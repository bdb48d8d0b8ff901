/** The values that flow between the test harness, the provider and the
    transport library: argument maps, replies, hooks and the event log. */
module PapiTypes {
  import opened Wrappers

  /** A Python value placed in an argument map. */
  datatype Value =
    | Int(n: int)
    | Str(s: string)
    | Bytes(b: seq<bv8>)
    | IntList(items: seq<int>)

  /** The keyword arguments of one remote call (`api_args`). */
  type Args = map<string, Value>

  /** A reply object of the transport. `retval` is present only when the
      reply has that attribute; `reply` is the optional textual payload of a
      CLI reply (already decoded); `fields` stands for everything else the
      reply carries. */
  datatype Reply = Reply(retval: Option<int>, reply: Option<string>, fields: Args)

  /** The hook object; the provider only ever passes it along, so its name is
      the only thing the model needs to tell two hooks apart. */
  datatype Hook = Hook(name: string)

  /** A transport function, `self.papi.<op>`: its `__name__` and its effect. */
  datatype ApiFn = ApiFn(name: string, callee: Args -> Reply)

  /** The transport object `self.papi`: one callable per remote operation and
      the in-band CLI call `cli_inband(length, cmd)`. */
  datatype Papi = Papi(op: string -> Args -> Reply, cliInband: (nat, string) -> Reply)
  {
    /** The bound function `self.papi.<name>`. */
    function Fn(name: string): ApiFn {
      ApiFn(name, op(name))
    }
  }

  /** What a provider call can raise. */
  datatype Error =
      /** The reply's retval differed from the expected one. */
    | CallFailed(expected: int, reply: Reply)
      /** `int(text, 16)` rejected its argument (Python's ValueError). */
    | InvalidLiteral(text: string)

  /** One observable step of a provider call, in the order it happens. */
  datatype Event =
    | BeforeApi(hook: Hook, apiName: string, args: Args)
    | Call(apiName: string, args: Args)
    | AfterApi(hook: Hook, apiName: string, args: Args)
    | Fail(expected: int, reply: Reply)
    | BeforeCli(hook: Hook, cmd: string)
    | CliInband(length: nat, cmd: string)
    | AfterCli(hook: Hook, cmd: string)

  datatype EventKind =
    BeforeApiKind | CallKind | AfterApiKind | FailKind | BeforeCliKind | CliInbandKind | AfterCliKind

  function Kind(e: Event): EventKind {
    match e
    case BeforeApi(_, _, _) => BeforeApiKind
    case Call(_, _) => CallKind
    case AfterApi(_, _, _) => AfterApiKind
    case Fail(_, _) => FailKind
    case BeforeCli(_, _) => BeforeCliKind
    case CliInband(_, _) => CliInbandKind
    case AfterCli(_, _) => AfterCliKind
  }

  /** How many events of kind `k` the log holds. */
  function Occurrences(log: seq<Event>, k: EventKind): nat {
    if log == [] then 0
    else Occurrences(log[..|log| - 1], k) + Indicator(log[|log| - 1], k)
  }

  lemma {:induction false} OccurrencesAppend(a: seq<Event>, b: seq<Event>, k: EventKind)
    ensures Occurrences(a + b, k) == Occurrences(a, k) + Occurrences(b, k)
    decreases |b|
  {
    if b == [] {
      assert a + b == a;
    } else {
      var b' := b[..|b| - 1];
      assert (a + b)[..|a + b| - 1] == a + b';
      assert (a + b)[|a + b| - 1] == b[|b| - 1];
      OccurrencesAppend(a, b', k);
    }
  }

  function Indicator(e: Event, k: EventKind): nat {
    if Kind(e) == k then 1 else 0
  }

  lemma OccurrencesOfThree(e0: Event, e1: Event, e2: Event, k: EventKind)
    ensures Occurrences([e0, e1, e2], k) == Indicator(e0, k) + Indicator(e1, k) + Indicator(e2, k)
  {
    assert [e0][..0] == [];
    assert Occurrences([e0], k) == Indicator(e0, k);
    assert [e0, e1][..1] == [e0];
    assert Occurrences([e0, e1], k) == Indicator(e0, k) + Indicator(e1, k);
    assert [e0, e1, e2][..2] == [e0, e1];
  }
}
