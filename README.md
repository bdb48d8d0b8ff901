# VPP Python API provider: checked calls, CLI text and argument maps

This project models `VppPapiProvider`, the object the VPP test framework uses
to drive the VPP engine over its Python API. The provider does not talk to
the engine itself. It builds a map of keyword arguments for each remote
operation, calls the matching function of the transport object `papi`, and
checks the reply. Around every call it notifies a pluggable hook.

What the model covers:

- **The checked call `api()`.** The before-hook runs first, then the
  transport function. If the reply carries a `retval` other than the expected
  one (0 by default), the call fails and the after-hook is skipped. Otherwise
  the after-hook runs and the reply is returned unchanged.
- **The CLI path `cli()` and `ppcli()`.** One newline is appended to the
  command, which is sent together with its length. The before-hook sees the
  command and the after-hook sees the sent text. Trailing NUL padding is
  stripped from the reply's payload. `ppcli()` joins the command and the
  output.
- **`_convert_mac()`.** It removes the colons from a MAC, parses the rest
  with Python 2.7's `int(_, 16)` and shifts the value left by 16 bits.
- **A representative set of argument builders.** `sw_interface_dump`,
  `sw_interface_add_del_address`, `sw_interface_enable_disable_mpls`,
  `bridge_domain_add_del`, `l2fib_add_del`, `vxlan_add_del_tunnel` and
  `ip_add_del_route`, together with the MPLS label constants.

Layout, one module per concern:

- `wrappers.dfy` (`Wrappers`): `Option` and `Result`.
- `papi_types.dfy` (`PapiTypes`): argument values, replies, hooks, the
  transport, errors, and the event log with its counting function.
- `mac_conversion.dfy` (`MacConversion`): `_convert_mac` and the syntax of
  `int(text, 16)`.
- `cli_text.dfy` (`CliText`): the text handling of `cli` and `ppcli`.
- `call_trace.dfy` (`CallTrace`): the outcome and the event sequence of one
  `api` call and of one `cli` call.
- `arg_builders.dfy` (`ArgBuilders`): constants, parameter records and
  argument maps.
- `provider.dfy` (`Provider`): the class `VppPapiProvider`.

Each keyword-argument method becomes a parameter record. The record's
constructor has the same defaults as the Python signature. For example,
`AddDelAddressParams(idx, addr, len, isAdd := Int(0))` reads like the
Python call. A builder function turns the record into the map the method
sends. A decoder reads the record back from the map. The round-trip lemmas
therefore show that every parameter reaches its own key.

The hook is recorded as an event log on the provider:

- `BeforeApi`, `Call`, `AfterApi` and `Fail` for `api()`;
- `BeforeCli`, `CliInband` and `AfterCli` for `cli()`.

Each hook event names the hook that received it, so `register_hook` shows up
in every later event. The transport is a value of type `Papi`: one function
from arguments to reply per operation, plus `cli_inband`. It is passed to the
constructor.

Where the docstrings and the code disagree, the model follows the code.
For example, `bridge_domain_add_del` documents `arp_term` as defaulting to 1,
but its signature defaults it to 0 (test/vpp_papi_provider.py:215, 227-228).

## Model

| member | source | states |
|---|---|---|
| `Provider.VppPapiProvider.constructor` | test/vpp_papi_provider.py:31-35 | a new provider keeps its name, prefix and transport, starts with the default hook `vpp-papi-provider` and has logged nothing |
| `Provider.VppPapiProvider.RegisterHook` | test/vpp_papi_provider.py:45-51 | the hook is replaced and nothing is logged; every later event names the new hook |
| `Provider.VppPapiProvider.Api` | test/vpp_papi_provider.py:61-79 | the result is the checked outcome of the callee's reply, and the log grows by exactly the before-hook, call, fail/after-hook events of that call |
| `CallTrace.ApiBeforeHookFirst` | test/vpp_papi_provider.py:71-72 | whatever the reply, the before-hook is logged exactly once, first, directly followed by the call |
| `CallTrace.ApiMismatchFails` | test/vpp_papi_provider.py:73-77 | a retval that differs from the expected one fails carrying exactly the two values its message reports, the expected retval and the reply; a Fail event with the same two values is logged and no after-hook is |
| `CallTrace.ApiMatchReturnsReply` | test/vpp_papi_provider.py:73-79 | a reply without a retval or with the expected one is returned unchanged; the after-hook is logged exactly once, last, and no failure is |
| `CallTrace.ApiExpectsZeroByDefault` | test/vpp_papi_provider.py:61 | without an explicit expectation only retval 0, or no retval, succeeds |
| `Provider.VppPapiProvider.Cli` | test/vpp_papi_provider.py:81-94 | the output is the payload of the `cli_inband` reply to `cmd + "\n"` with length `\|cmd\| + 1`, trailing NULs removed and interior ones kept; the log grows by the three cli events |
| `CallTrace.CliEventsShape` | test/vpp_papi_provider.py:89-92 | the before-hook gets the command, the transport gets the command plus newline and its length, the after-hook gets the sent text; no api hook or retval check is involved |
| `CliText.CliCommand` | test/vpp_papi_provider.py:90-91 | the sent text is the command followed by exactly one newline, one character longer |
| `CliText.StripTrailingNul` | test/vpp_papi_provider.py:94 | the result is a prefix of the payload, does not end in NUL, and only NULs were removed |
| `CliText.StripTrailingNulUnique` | test/vpp_papi_provider.py:94 | those three properties determine the stripped text |
| `CliText.StripTrailingNulPadding` | test/vpp_papi_provider.py:94 | appending any amount of NUL padding does not change the result |
| `CliText.StripTrailingNulIdempotent` | test/vpp_papi_provider.py:94 | stripping twice is stripping once |
| `CliText.CliOutput` | test/vpp_papi_provider.py:93-94 | no payload gives no output; a payload gives its prefix without trailing NULs, all other characters kept |
| `Provider.VppPapiProvider.Ppcli` | test/vpp_papi_provider.py:96-103 | the text is the command, a newline and `str()` of what `cli` returned ("None" without payload), with the same log as `cli` |
| `CliText.PpcliTextSplits` | test/vpp_papi_provider.py:103 | for a one-line command, the first line of the text is the command and the rest is the rendered output |
| `MacConversion.RemoveColons` | test/vpp_papi_provider.py:106 | no colon remains, every other character is kept, and a colon-free text is unchanged |
| `MacConversion.RemoveColonsAppend` | test/vpp_papi_provider.py:106 | removing colons distributes over concatenation |
| `MacConversion.HexValue` | test/vpp_papi_provider.py:106 | the value of n hex digits is below 16^n |
| `MacConversion.ParseHexInt` | test/vpp_papi_provider.py:106 | `int("", 16)` raises: an empty text is never a literal |
| `MacConversion.ParseHexIntLiteral` | test/vpp_papi_provider.py:106 | every text made of white space, an optional sign, white space, an optional `0x`/`0X`, hex digits and white space is accepted with the signed value of its digits |
| `MacConversion.ParseHexIntOnlyLiteral` | test/vpp_papi_provider.py:106 | conversely, every text `int(_, 16)` accepts splits into that form, and its value is the signed value of its digits; nothing else is accepted |
| `MacConversion.ParseHexIntBare` | test/vpp_papi_provider.py:106 | a text that starts with two hex digits and ends with one denotes its hex value if it is all hex digits and raises otherwise |
| `MacConversion.ParseHexIntSpaceAfterSign` | test/vpp_papi_provider.py:106 | white space between the sign and the digits is skipped: `"+ 0xff"` is 255 and `"- ff"` is -255 |
| `MacConversion.ParseHexIntPlain` | test/vpp_papi_provider.py:106 | `int(d, 16)` of a non-empty string of hex digits is its hex value |
| `MacConversion.ParseHexIntAlphabet` | test/vpp_papi_provider.py:106 | `int(s, 16)` accepts only white space, signs, `x`/`X` and hex digits |
| `MacConversion.ShiftLeft16` | test/vpp_papi_provider.py:106 | shifting left by 16 leaves the low 16 bits clear |
| `MacConversion.ConvertMac` | test/vpp_papi_provider.py:106 | a converted MAC has its low 16 bits clear; a rejected one raises an `InvalidLiteral` error that carries the colon-free text |
| `MacConversion.ConvertMacValue` | test/vpp_papi_provider.py:106 | a MAC whose colon-free text is hex digits converts to that hex value times 2^16 |
| `MacConversion.ConvertMacLiteral` | test/vpp_papi_provider.py:106 | a MAC whose colon-free text has the literal's form converts to the signed value of its digits times 2^16 |
| `MacConversion.ConvertMacOnlyLiteral` | test/vpp_papi_provider.py:106 | every MAC that converts has, without its colons, the literal's form and converts to the signed value of its digits times 2^16 |
| `MacConversion.ConvertMacRejectsInner` | test/vpp_papi_provider.py:106 | a colon-free text that starts with two hex digits and ends with one is rejected when any character in it is not a hex digit, so a dash, a sign or an `x` inside the address is an error |
| `MacConversion.ConvertMacRejectsDashes` | test/vpp_papi_provider.py:106 | `"aa-bb-cc-dd-ee-ff"` is rejected |
| `MacConversion.ConvertMacSpaceAfterSign` | test/vpp_papi_provider.py:106 | `"+ 0x:ff"` converts to 255 times 2^16 |
| `MacConversion.ConvertMacRejects` | test/vpp_papi_provider.py:106 | any character that is neither a colon nor part of a hex literal is an error |
| `MacConversion.ConvertMacFits64` | test/vpp_papi_provider.py:106 | a 12-digit MAC converts to a value below 2^64 with the low 16 bits clear |
| `MacConversion.HexValueToHex` | test/vpp_papi_provider.py:106 | writing a number below 16^w in w hex digits and reading them back gives the number |
| `MacConversion.ConvertMacFormatMac` | test/vpp_papi_provider.py:106 | converting the usual text `hh:hh:hh:hh:hh:hh` of a 48-bit value gives the value times 2^16 |
| `ArgBuilders.MplsLabelInvalidValue` | test/vpp_papi_provider.py:17-18 | the invalid label is 0x100000, one above the largest MPLS label |
| `ArgBuilders.SwInterfaceDumpFilter` | test/vpp_papi_provider.py:127-130 | no filter sends an empty map; a filter sends exactly `name_filter_valid = 1` and the filter, which decodes back |
| `Provider.VppPapiProvider.SwInterfaceDump` | test/vpp_papi_provider.py:121-131 | the filter map goes through `api` to `sw_interface_dump` with the default expectation |
| `ArgBuilders.SwInterfaceAddDelAddressRoundTrip` | test/vpp_papi_provider.py:158-164 | the map has exactly the six keys, and every parameter is read back from its own key |
| `ArgBuilders.SwInterfaceAddDelAddressDefaults` | test/vpp_papi_provider.py:146-147 | by default the call adds, for IPv4, without deleting all |
| `Provider.VppPapiProvider.SwInterfaceAddDelAddress` | test/vpp_papi_provider.py:146-164 | the address map goes through `api` to `sw_interface_add_del_address` |
| `ArgBuilders.SwInterfaceEnableDisableMplsRoundTrip` | test/vpp_papi_provider.py:166-176 | the map has exactly the keys `sw_if_index` and `enable`, decodes back, and enables by default |
| `Provider.VppPapiProvider.SwInterfaceEnableDisableMpls` | test/vpp_papi_provider.py:166-176 | the map goes through `api` to `sw_interface_set_mpls_enable` |
| `ArgBuilders.BridgeDomainAddDelRoundTrip` | test/vpp_papi_provider.py:231-238 | the map has exactly the seven keys, and every parameter is read back from its own key |
| `ArgBuilders.BridgeDomainAddDelDefaults` | test/vpp_papi_provider.py:214-215 | flood, unknown-unicast flood, forward and learn default on, ARP termination off, and the call adds |
| `Provider.VppPapiProvider.BridgeDomainAddDel` | test/vpp_papi_provider.py:214-238 | the map goes through `api` to `bridge_domain_add_del` |
| `ArgBuilders.L2fibArgsForContents` | test/vpp_papi_provider.py:256-263 | for any converted MAC value the map has exactly the seven keys, with the value at `mac` and every other parameter at its own key |
| `ArgBuilders.L2fibAddDelArgs` | test/vpp_papi_provider.py:256-263 | the map exists exactly when the MAC converts, and is then the seven-key map for the converted value; otherwise the conversion error is raised |
| `ArgBuilders.L2fibAddDelRoundTrip` | test/vpp_papi_provider.py:240-263 | for a MAC in its usual text form, `mac` is the value times 2^16 and every parameter, the MAC text included, is read back |
| `Provider.VppPapiProvider.L2fibAddDel` | test/vpp_papi_provider.py:240-263 | a rejected MAC raises before any hook runs or anything is logged; otherwise the map goes through `api` to `l2fib_add_del` |
| `ArgBuilders.VxlanAddDelTunnelRoundTrip` | test/vpp_papi_provider.py:204-212 | the map has exactly the eight keys, and every parameter of the tunnel, `encap_vrf_id` included, is read back from its own key |
| `ArgBuilders.VxlanAddDelTunnelDefaults` | test/vpp_papi_provider.py:182-190 | by default a tunnel has no multicast interface and no decap next node (both 0xFFFFFFFF), VRF 0 and VNI 0, is IPv4 and is added |
| `Provider.VppPapiProvider.VxlanAddDelTunnel` | test/vpp_papi_provider.py:182-212 | the tunnel map goes through `api` to `vxlan_add_del_tunnel` |
| `ArgBuilders.IpAddDelRouteRoundTrip` | test/vpp_papi_provider.py:471-495 | every one of the 23 route parameters is read back from its own key |
| `ArgBuilders.IpAddDelRouteDefaults` | test/vpp_papi_provider.py:422-446 | by default a route uses any interface, table 0, weight 1 and no classify table, and it adds rather than drops |
| `ArgBuilders.IpAddDelRouteLabelDefaults` | test/vpp_papi_provider.py:431-433 | by default a route has no out labels, an empty label stack and the invalid via-label 0x100000 |
| `Provider.VppPapiProvider.IpAddDelRoute` | test/vpp_papi_provider.py:422-495 | the route map goes through `api` to `ip_add_del_route` |

## Left out

- Loading the transport is left out. This covers the optional import of `vpp_papi` driven by `NO_VPP_PAPI`, and the scan of `VPP_TEST_INSTALL_PATH` for `*.api.json` files (test/vpp_papi_provider.py:5-14, 38-43). Both are environment and file-system I/O. The transport is a constructor parameter instead.
- `connect`, `disconnect` and `show_version` are left out (test/vpp_papi_provider.py:53-59, 108-110). Each is one call into the transport, with nothing of its own to model.
- The transport is modelled as a total function from arguments to reply. A real engine may answer the same request differently at different times. Exceptions raised by the transport itself are not modelled.
- The hook's own behaviour is not modelled: the `Hook` class is not part of this model. Its calls are recorded as events that carry the hook's name.
- The logger call before the failure is raised is recorded as the `Fail` event (test/vpp_papi_provider.py:74-76). That event and the failure carry the two values the message formats: the expected retval and the reply. The message text itself, with `repr(reply)`, is not modelled. The logger is the only user of `test_class` (test/vpp_papi_provider.py:31, 35, 76), so `test_class` is not a constructor parameter.
- `bytes.decode()` on the CLI payload is taken as the identity on characters (test/vpp_papi_provider.py:94).
- Python's dynamic typing is narrowed: `retval` is an integer, and argument values are integers, strings, byte strings or integer lists.
- The unreachable second `return` at the end of `mpls_tunnel_add_del` is dead code and is not modelled (test/vpp_papi_provider.py:710-711).
- The shared mutable `[]` defaults are modelled as a fresh empty list per call (test/vpp_papi_provider.py:432, 581, 669). Nothing in the file mutates them.
- Most builders are not modelled, since each is the same kind of key renaming as the modelled ones: `pg_create_interface`, `sw_interface_set_table`, `sw_interface_ra_suppress`, `sw_interface_set_l2_bridge`, `bridge_flags`, `bridge_domain_dump`, `sw_interface_set_l2_xconnect`, `sw_interface_set_l2_tag_rewrite`, `sw_interface_set_flags`, `create_subif`, `delete_subif`, `create_vlan_subif`, `create_loopback`, `ip_neighbor_add_del`, `sw_interface_span_enable_disable`, `gre_tunnel_add_del`, `mpls_route_add_del`, `mpls_ip_bind_unbind` and `mpls_tunnel_add_del`. Of these, `mpls_tunnel_add_del` also accepts `next_hop_via_label` and `create_vrf_if_needed` without sending them. Whether its remote message has such fields cannot be told from this file.
- ConvertMac: follows Python 2.7's `int(_, 16)` for a byte-string (`str`) argument, one byte per character, including the white space skipped after the sign. This is the kind of argument the provider's callers pass. A `unicode` argument is not modelled: Python 2.7 first maps its Unicode digits and white space to ASCII, so it accepts `u"\u0661\u0662"` or a leading no-break space, and the model rejects both. Python 3 is not modelled either: it rejects white space after the sign, and it accepts underscores between digits.
- ConvertMac: the text of the ValueError's message is not modelled. Python 2.7 uses `repr()` of the text after its leading white space, cut to 200 characters. `InvalidLiteral` carries the whole colon-free text instead.
