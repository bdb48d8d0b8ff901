/** The argument maps the provider's per-operation methods build before they
    hand them to `api()`. Each method's keyword parameters, with their
    defaults, are a parameter record whose constructor has the same
    defaults; the builder turns the record into the map the method sends,
    and a decoder reads the record back, which shows that every parameter
    reaches its own key. */
module ArgBuilders {
  import opened Wrappers
  import opened PapiTypes
  import MacConversion

  /** The largest label value of MPLS (a 20-bit field). */
  const MplsIetfMaxLabel: int := 0xfffff
  /** The label value that stands for "no label". */
  const MplsLabelInvalid: int := MplsIetfMaxLabel + 1

  lemma MplsLabelInvalidValue()
    ensures MplsLabelInvalid == 0x100000 && MplsLabelInvalid == MplsIetfMaxLabel + 1
  {
  }

  // sw_interface_dump

  /** The arguments of `sw_interface_dump(filter)`: no fields at all without
      a filter, the flag and the filter with one. */
  function SwInterfaceDumpArgs(filter: Option<Value> := None): Args {
    match filter
    case Some(f) => map["name_filter_valid" := Int(1), "name_filter" := f]
    case None => map[]
  }

  function DecodeSwInterfaceDumpArgs(m: Args): Option<Value> {
    if "name_filter_valid" in m && m["name_filter_valid"] == Int(1) && "name_filter" in m
    then Some(m["name_filter"]) else None
  }

  lemma SwInterfaceDumpFilter(filter: Option<Value>)
    ensures filter.None? <==> SwInterfaceDumpArgs(filter) == map[]
    ensures filter.Some? ==>
              SwInterfaceDumpArgs(filter) == map["name_filter_valid" := Int(1), "name_filter" := filter.value]
    ensures DecodeSwInterfaceDumpArgs(SwInterfaceDumpArgs(filter)) == filter
  {
    if filter.Some? {
      assert "name_filter" in SwInterfaceDumpArgs(filter);
    }
  }

  // sw_interface_add_del_address

  datatype AddDelAddressParams = AddDelAddressParams(
    swIfIndex: Value, addr: Value, addrLen: Value,
    isIpv6: Value := Int(0), isAdd: Value := Int(1), delAll: Value := Int(0))

  function SwInterfaceAddDelAddressArgs(p: AddDelAddressParams): Args {
    map["sw_if_index" := p.swIfIndex,
        "is_add" := p.isAdd,
        "is_ipv6" := p.isIpv6,
        "del_all" := p.delAll,
        "address_length" := p.addrLen,
        "address" := p.addr]
  }

  function DecodeAddDelAddressArgs(m: Args): Option<AddDelAddressParams> {
    if {"sw_if_index", "is_add", "is_ipv6", "del_all", "address_length", "address"} <= m.Keys
    then Some(AddDelAddressParams(m["sw_if_index"], m["address"], m["address_length"],
                                  m["is_ipv6"], m["is_add"], m["del_all"]))
    else None
  }

  lemma SwInterfaceAddDelAddressRoundTrip(p: AddDelAddressParams)
    ensures SwInterfaceAddDelAddressArgs(p).Keys ==
              {"sw_if_index", "is_add", "is_ipv6", "del_all", "address_length", "address"}
    ensures DecodeAddDelAddressArgs(SwInterfaceAddDelAddressArgs(p)) == Some(p)
  {
  }

  lemma SwInterfaceAddDelAddressDefaults(swIfIndex: Value, addr: Value, addrLen: Value)
    ensures var m := SwInterfaceAddDelAddressArgs(AddDelAddressParams(swIfIndex, addr, addrLen));
      m["is_add"] == Int(1) && m["is_ipv6"] == Int(0) && m["del_all"] == Int(0)
  {
  }

  // sw_interface_enable_disable_mpls

  datatype MplsEnableParams = MplsEnableParams(swIfIndex: Value, isEnable: Value := Int(1))

  function SwInterfaceEnableDisableMplsArgs(p: MplsEnableParams): Args {
    map["sw_if_index" := p.swIfIndex, "enable" := p.isEnable]
  }

  function DecodeMplsEnableArgs(m: Args): Option<MplsEnableParams> {
    if {"sw_if_index", "enable"} <= m.Keys
    then Some(MplsEnableParams(m["sw_if_index"], m["enable"]))
    else None
  }

  lemma SwInterfaceEnableDisableMplsRoundTrip(p: MplsEnableParams)
    ensures SwInterfaceEnableDisableMplsArgs(p).Keys == {"sw_if_index", "enable"}
    ensures DecodeMplsEnableArgs(SwInterfaceEnableDisableMplsArgs(p)) == Some(p)
    ensures SwInterfaceEnableDisableMplsArgs(MplsEnableParams(p.swIfIndex))["enable"] == Int(1)
  {
  }

  // bridge_domain_add_del

  datatype BridgeDomainParams = BridgeDomainParams(
    bdId: Value, flood: Value := Int(1), uuFlood: Value := Int(1), forward: Value := Int(1),
    learn: Value := Int(1), arpTerm: Value := Int(0), isAdd: Value := Int(1))

  function BridgeDomainAddDelArgs(p: BridgeDomainParams): Args {
    map["bd_id" := p.bdId,
        "flood" := p.flood,
        "uu_flood" := p.uuFlood,
        "forward" := p.forward,
        "learn" := p.learn,
        "arp_term" := p.arpTerm,
        "is_add" := p.isAdd]
  }

  function DecodeBridgeDomainArgs(m: Args): Option<BridgeDomainParams> {
    if {"bd_id", "flood", "uu_flood", "forward", "learn", "arp_term", "is_add"} <= m.Keys
    then Some(BridgeDomainParams(m["bd_id"], m["flood"], m["uu_flood"], m["forward"],
                                 m["learn"], m["arp_term"], m["is_add"]))
    else None
  }

  lemma BridgeDomainAddDelRoundTrip(p: BridgeDomainParams)
    ensures BridgeDomainAddDelArgs(p).Keys ==
              {"bd_id", "flood", "uu_flood", "forward", "learn", "arp_term", "is_add"}
    ensures DecodeBridgeDomainArgs(BridgeDomainAddDelArgs(p)) == Some(p)
  {
  }

  /** Flooding, unknown-unicast flooding, forwarding and learning are on by
      default, ARP termination is off, and the call adds. */
  lemma BridgeDomainAddDelDefaults(bdId: Value)
    ensures var m := BridgeDomainAddDelArgs(BridgeDomainParams(bdId));
      && m["flood"] == Int(1) && m["uu_flood"] == Int(1) && m["forward"] == Int(1)
      && m["learn"] == Int(1) && m["arp_term"] == Int(0) && m["is_add"] == Int(1)
  {
  }

  // l2fib_add_del

  datatype L2fibParams = L2fibParams(
    mac: string, bdId: Value, swIfIndex: Value, isAdd: Value := Int(1),
    staticMac: Value := Int(0), filterMac: Value := Int(0), bviMac: Value := Int(0))

  /** The map `l2fib_add_del` sends once the MAC has been converted to `mac`. */
  function L2fibArgsFor(mac: int, p: L2fibParams): Args {
    map["mac" := Int(mac),
        "bd_id" := p.bdId,
        "sw_if_index" := p.swIfIndex,
        "is_add" := p.isAdd,
        "static_mac" := p.staticMac,
        "filter_mac" := p.filterMac,
        "bvi_mac" := p.bviMac]
  }

  /** Whatever the converted MAC, the map has exactly the seven keys and
      every other parameter sits at its own key. */
  lemma L2fibArgsForContents(mac: int, p: L2fibParams)
    ensures var m := L2fibArgsFor(mac, p);
      && m.Keys == {"mac", "bd_id", "sw_if_index", "is_add", "static_mac", "filter_mac", "bvi_mac"}
      && m["mac"] == Int(mac) && m["bd_id"] == p.bdId && m["sw_if_index"] == p.swIfIndex
      && m["is_add"] == p.isAdd && m["static_mac"] == p.staticMac
      && m["filter_mac"] == p.filterMac && m["bvi_mac"] == p.bviMac
  {
  }

  /** The arguments of `l2fib_add_del`; the MAC text goes through
      `_convert_mac`, whose error is raised before anything is sent. */
  function L2fibAddDelArgs(p: L2fibParams): (r: Result<Args, Error>)
    ensures r.Success? <==> MacConversion.ConvertMac(p.mac).Success?
    ensures r.Success? ==> "mac" in r.value && r.value["mac"] == Int(MacConversion.ConvertMac(p.mac).value)
    ensures r.Success? ==> r.value == L2fibArgsFor(MacConversion.ConvertMac(p.mac).value, p)
    ensures r.Failure? ==> r.error == MacConversion.ConvertMac(p.mac).error
  {
    match MacConversion.ConvertMac(p.mac)
    case Failure(e) => Failure(e)
    case Success(mac) => Success(L2fibArgsFor(mac, p))
  }

  /** Reads the parameters back, writing the MAC in its usual text form. */
  function DecodeL2fibArgs(m: Args): Option<L2fibParams> {
    if && {"mac", "bd_id", "sw_if_index", "is_add", "static_mac", "filter_mac", "bvi_mac"} <= m.Keys
       && m["mac"].Int?
       && 0 <= m["mac"].n
       && m["mac"].n % 0x1_0000 == 0
       && m["mac"].n / 0x1_0000 < MacConversion.Pow16(12)
    then Some(L2fibParams(MacConversion.FormatMac(m["mac"].n / 0x1_0000), m["bd_id"], m["sw_if_index"],
                          m["is_add"], m["static_mac"], m["filter_mac"], m["bvi_mac"]))
    else None
  }

  lemma L2fibArgsForDecodes(p: L2fibParams, n: nat)
    requires n < MacConversion.Pow16(12) && p.mac == MacConversion.FormatMac(n)
    ensures DecodeL2fibArgs(L2fibArgsFor(n * 0x1_0000, p)) == Some(p)
  {
    var m := L2fibArgsFor(n * 0x1_0000, p);
    assert {"mac", "bd_id", "sw_if_index", "is_add", "static_mac", "filter_mac", "bvi_mac"} <= m.Keys;
    assert n * 0x1_0000 / 0x1_0000 == n && n * 0x1_0000 % 0x1_0000 == 0;
  }

  /** An entry for a MAC in its usual text form is sent with every one of its
      parameters recoverable. */
  lemma L2fibAddDelRoundTrip(p: L2fibParams, n: nat)
    requires n < MacConversion.Pow16(12) && p.mac == MacConversion.FormatMac(n)
    ensures L2fibAddDelArgs(p) == Success(L2fibArgsFor(n * 0x1_0000, p))
    ensures DecodeL2fibArgs(L2fibAddDelArgs(p).value) == Some(p)
  {
    MacConversion.ConvertMacFormatMac(n);
    L2fibArgsForDecodes(p, n);
  }

  // vxlan_add_del_tunnel

  datatype VxlanParams = VxlanParams(
    srcAddr: Value, dstAddr: Value, mcastSwIfIndex: Value := Int(0xFFFF_FFFF),
    isAdd: Value := Int(1), isIpv6: Value := Int(0), encapVrfId: Value := Int(0),
    decapNextIndex: Value := Int(0xFFFF_FFFF), vni: Value := Int(0))

  /** The arguments `vxlan_add_del_tunnel` sends: one key per parameter. */
  function VxlanAddDelTunnelArgs(p: VxlanParams): Args {
    map["is_add" := p.isAdd,
        "is_ipv6" := p.isIpv6,
        "src_address" := p.srcAddr,
        "dst_address" := p.dstAddr,
        "mcast_sw_if_index" := p.mcastSwIfIndex,
        "encap_vrf_id" := p.encapVrfId,
        "decap_next_index" := p.decapNextIndex,
        "vni" := p.vni]
  }

  function DecodeVxlanArgs(m: Args): Option<VxlanParams> {
    if {"is_add", "is_ipv6", "src_address", "dst_address", "mcast_sw_if_index",
        "encap_vrf_id", "decap_next_index", "vni"} <= m.Keys
    then Some(VxlanParams(m["src_address"], m["dst_address"], m["mcast_sw_if_index"], m["is_add"],
                          m["is_ipv6"], m["encap_vrf_id"], m["decap_next_index"], m["vni"]))
    else None
  }

  lemma VxlanAddDelTunnelRoundTrip(p: VxlanParams)
    ensures VxlanAddDelTunnelArgs(p).Keys ==
              {"is_add", "is_ipv6", "src_address", "dst_address", "mcast_sw_if_index",
               "encap_vrf_id", "decap_next_index", "vni"}
    ensures DecodeVxlanArgs(VxlanAddDelTunnelArgs(p)) == Some(p)
  {
  }

  lemma VxlanAddDelTunnelDefaults(srcAddr: Value, dstAddr: Value)
    ensures var m := VxlanAddDelTunnelArgs(VxlanParams(srcAddr, dstAddr));
      m["mcast_sw_if_index"] == Int(0xFFFF_FFFF) && m["decap_next_index"] == Int(0xFFFF_FFFF) &&
      m["encap_vrf_id"] == Int(0) && m["vni"] == Int(0) && m["is_add"] == Int(1) && m["is_ipv6"] == Int(0)
  {
  }

  // ip_add_del_route

  datatype RouteParams = RouteParams(
    dstAddress: Value, dstAddressLength: Value, nextHopAddress: Value,
    nextHopSwIfIndex: Value := Int(0xFFFF_FFFF), tableId: Value := Int(0),
    nextHopTableId: Value := Int(0), nextHopWeight: Value := Int(1),
    nextHopNOutLabels: Value := Int(0), nextHopOutLabelStack: Value := IntList([]),
    nextHopViaLabel: Value := Int(MplsLabelInvalid), createVrfIfNeeded: Value := Int(0),
    isResolveHost: Value := Int(0), isResolveAttached: Value := Int(0),
    classifyTableIndex: Value := Int(0xFFFF_FFFF), isAdd: Value := Int(1),
    isDrop: Value := Int(0), isUnreach: Value := Int(0), isProhibit: Value := Int(0),
    isIpv6: Value := Int(0), isLocal: Value := Int(0), isClassify: Value := Int(0),
    isMultipath: Value := Int(0), notLast: Value := Int(0))

  function IpAddDelRouteArgs(p: RouteParams): Args {
    map["next_hop_sw_if_index" := p.nextHopSwIfIndex,
        "table_id" := p.tableId,
        "classify_table_index" := p.classifyTableIndex,
        "next_hop_table_id" := p.nextHopTableId,
        "create_vrf_if_needed" := p.createVrfIfNeeded,
        "is_add" := p.isAdd,
        "is_drop" := p.isDrop,
        "is_unreach" := p.isUnreach,
        "is_prohibit" := p.isProhibit,
        "is_ipv6" := p.isIpv6,
        "is_local" := p.isLocal,
        "is_classify" := p.isClassify,
        "is_multipath" := p.isMultipath,
        "is_resolve_host" := p.isResolveHost,
        "is_resolve_attached" := p.isResolveAttached,
        "not_last" := p.notLast,
        "next_hop_weight" := p.nextHopWeight,
        "dst_address_length" := p.dstAddressLength,
        "dst_address" := p.dstAddress,
        "next_hop_address" := p.nextHopAddress,
        "next_hop_n_out_labels" := p.nextHopNOutLabels,
        "next_hop_via_label" := p.nextHopViaLabel,
        "next_hop_out_label_stack" := p.nextHopOutLabelStack]
  }

  function DecodeRouteArgs(m: Args): Option<RouteParams> {
    if {"next_hop_sw_if_index", "table_id", "classify_table_index", "next_hop_table_id",
        "create_vrf_if_needed", "is_add", "is_drop", "is_unreach", "is_prohibit", "is_ipv6",
        "is_local", "is_classify", "is_multipath", "is_resolve_host", "is_resolve_attached",
        "not_last", "next_hop_weight", "dst_address_length", "dst_address", "next_hop_address",
        "next_hop_n_out_labels", "next_hop_via_label", "next_hop_out_label_stack"} <= m.Keys
    then Some(RouteParams(
      m["dst_address"], m["dst_address_length"], m["next_hop_address"],
      m["next_hop_sw_if_index"], m["table_id"], m["next_hop_table_id"], m["next_hop_weight"],
      m["next_hop_n_out_labels"], m["next_hop_out_label_stack"], m["next_hop_via_label"],
      m["create_vrf_if_needed"], m["is_resolve_host"], m["is_resolve_attached"],
      m["classify_table_index"], m["is_add"], m["is_drop"], m["is_unreach"], m["is_prohibit"],
      m["is_ipv6"], m["is_local"], m["is_classify"], m["is_multipath"], m["not_last"]))
    else None
  }

  lemma IpAddDelRouteArgsKeys(p: RouteParams)
    ensures {"next_hop_sw_if_index", "table_id", "classify_table_index", "next_hop_table_id",
               "create_vrf_if_needed", "is_add", "is_drop", "is_unreach", "is_prohibit", "is_ipv6",
               "is_local", "is_classify", "is_multipath", "is_resolve_host", "is_resolve_attached",
               "not_last", "next_hop_weight", "dst_address_length", "dst_address", "next_hop_address",
               "next_hop_n_out_labels", "next_hop_via_label", "next_hop_out_label_stack"} == IpAddDelRouteArgs(p).Keys
  {
  }

  // The route map's values, one group of keys per lemma so that each proof
  // stays small: interface and tables, VRF creation and add, route kind,
  // resolution flags, and the next hop with its labels.

  lemma IpAddDelRouteArgsTables(p: RouteParams)
    ensures var m := IpAddDelRouteArgs(p);
      && m["next_hop_sw_if_index"] == p.nextHopSwIfIndex
      && m["table_id"] == p.tableId
      && m["classify_table_index"] == p.classifyTableIndex
  {
  }

  lemma IpAddDelRouteArgsVrfAndAdd(p: RouteParams)
    ensures var m := IpAddDelRouteArgs(p);
      && m["next_hop_table_id"] == p.nextHopTableId
      && m["create_vrf_if_needed"] == p.createVrfIfNeeded
      && m["is_add"] == p.isAdd
  {
  }

  lemma IpAddDelRouteArgsRouteKind(p: RouteParams)
    ensures var m := IpAddDelRouteArgs(p);
      && m["is_drop"] == p.isDrop
      && m["is_unreach"] == p.isUnreach
      && m["is_prohibit"] == p.isProhibit
      && m["is_ipv6"] == p.isIpv6
      && m["is_local"] == p.isLocal
  {
  }

  lemma IpAddDelRouteArgsResolution(p: RouteParams)
    ensures var m := IpAddDelRouteArgs(p);
      && m["is_classify"] == p.isClassify
      && m["is_multipath"] == p.isMultipath
      && m["is_resolve_host"] == p.isResolveHost
      && m["is_resolve_attached"] == p.isResolveAttached
      && m["not_last"] == p.notLast
  {
  }

  lemma IpAddDelRouteArgsNextHop(p: RouteParams)
    ensures var m := IpAddDelRouteArgs(p);
      && m["next_hop_weight"] == p.nextHopWeight
      && m["dst_address_length"] == p.dstAddressLength
      && m["dst_address"] == p.dstAddress
      && m["next_hop_address"] == p.nextHopAddress
      && m["next_hop_n_out_labels"] == p.nextHopNOutLabels
      && m["next_hop_via_label"] == p.nextHopViaLabel
      && m["next_hop_out_label_stack"] == p.nextHopOutLabelStack
  {
  }

  lemma IpAddDelRouteRoundTrip(p: RouteParams)
    ensures DecodeRouteArgs(IpAddDelRouteArgs(p)) == Some(p)
  {
    IpAddDelRouteArgsKeys(p);
    IpAddDelRouteArgsTables(p);
    IpAddDelRouteArgsVrfAndAdd(p);
    IpAddDelRouteArgsRouteKind(p);
    IpAddDelRouteArgsResolution(p);
    IpAddDelRouteArgsNextHop(p);
  }

  /** A route given only its destination and next hop: any interface,
      table 0, weight 1, no classify table, and an add. */
  lemma IpAddDelRouteDefaults(dstAddress: Value, dstAddressLength: Value, nextHopAddress: Value)
    ensures var m := IpAddDelRouteArgs(RouteParams(dstAddress, dstAddressLength, nextHopAddress));
      && m["next_hop_sw_if_index"] == Int(0xFFFF_FFFF) && m["classify_table_index"] == Int(0xFFFF_FFFF)
      && m["table_id"] == Int(0) && m["next_hop_weight"] == Int(1)
      && m["is_add"] == Int(1) && m["is_drop"] == Int(0)
  {
    var p := RouteParams(dstAddress, dstAddressLength, nextHopAddress);
    IpAddDelRouteArgsTables(p);
    IpAddDelRouteArgsVrfAndAdd(p);
    IpAddDelRouteArgsRouteKind(p);
    IpAddDelRouteArgsNextHop(p);
  }

  /** Without labels a route carries an empty label stack and the invalid
      via-label. */
  lemma IpAddDelRouteLabelDefaults(dstAddress: Value, dstAddressLength: Value, nextHopAddress: Value)
    ensures var m := IpAddDelRouteArgs(RouteParams(dstAddress, dstAddressLength, nextHopAddress));
      && m["next_hop_via_label"] == Int(0x100000)
      && m["next_hop_out_label_stack"] == IntList([]) && m["next_hop_n_out_labels"] == Int(0)
  {
    var p := RouteParams(dstAddress, dstAddressLength, nextHopAddress);
    IpAddDelRouteArgsNextHop(p);
  }
}
