/** The checked-call contract of `api()` and the hook sequence of `cli()`,
    stated on the events they log and the outcome they produce. */
module CallTrace {
  import opened Wrappers
  import opened PapiTypes
  import CliText

  /** The reply has a retval and it is not the expected one. */
  predicate Mismatch(reply: Reply, expected: int) {
    reply.retval.Some? && reply.retval.value != expected
  }

  /** What `api(fn, args, expected)` returns or raises. */
  function ApiOutcome(fn: ApiFn, args: Args, expected: int := 0): Result<Reply, Error> {
    var reply := fn.callee(args);
    if Mismatch(reply, expected) then Failure(CallFailed(expected, reply)) else Success(reply)
  }

  /** The events one `api(fn, args, expected)` logs under hook `h`: the
      before-hook, the call, then the failure or the after-hook. */
  function ApiEvents(h: Hook, fn: ApiFn, args: Args, expected: int := 0): seq<Event> {
    var reply := fn.callee(args);
    [BeforeApi(h, fn.name, args), Call(fn.name, args)]
      + (if Mismatch(reply, expected) then [Fail(expected, reply)] else [AfterApi(h, fn.name, args)])
  }

  /** The events one `cli(cmd)` logs under hook `h`. */
  function CliEvents(h: Hook, cmd: string): seq<Event> {
    var sent := CliText.CliCommand(cmd);
    [BeforeCli(h, cmd), CliInband(|sent|, sent), AfterCli(h, sent)]
  }

  /** The before-hook is logged exactly once per call, first, and the call
      follows it directly, whatever the reply. */
  lemma ApiBeforeHookFirst(prior: seq<Event>, h: Hook, fn: ApiFn, args: Args, expected: int)
    ensures var t := ApiEvents(h, fn, args, expected);
      && |t| == 3
      && t[0] == BeforeApi(h, fn.name, args)
      && t[1] == Call(fn.name, args)
      && Occurrences(prior + t, BeforeApiKind) == Occurrences(prior, BeforeApiKind) + 1
      && Occurrences(prior + t, CallKind) == Occurrences(prior, CallKind) + 1
  {
    var t := ApiEvents(h, fn, args, expected);
    assert t == [t[0], t[1], t[2]];
    OccurrencesAppend(prior, t, BeforeApiKind);
    OccurrencesAppend(prior, t, CallKind);
    OccurrencesOfThree(t[0], t[1], t[2], BeforeApiKind);
    OccurrencesOfThree(t[0], t[1], t[2], CallKind);
  }

  /** A reply whose retval differs from the expected one makes the call fail
      with that reply, and the after-hook is not logged. */
  lemma ApiMismatchFails(prior: seq<Event>, h: Hook, fn: ApiFn, args: Args, expected: int)
    requires Mismatch(fn.callee(args), expected)
    ensures ApiOutcome(fn, args, expected) == Failure(CallFailed(expected, fn.callee(args)))
    ensures var t := ApiEvents(h, fn, args, expected);
      && t[2] == Fail(expected, fn.callee(args))
      && Occurrences(prior + t, AfterApiKind) == Occurrences(prior, AfterApiKind)
  {
    var t := ApiEvents(h, fn, args, expected);
    assert t == [t[0], t[1], t[2]];
    OccurrencesAppend(prior, t, AfterApiKind);
    OccurrencesOfThree(t[0], t[1], t[2], AfterApiKind);
  }

  /** A reply without a retval, or with the expected one, is returned
      unchanged and the after-hook is logged exactly once, last. */
  lemma ApiMatchReturnsReply(prior: seq<Event>, h: Hook, fn: ApiFn, args: Args, expected: int)
    requires !Mismatch(fn.callee(args), expected)
    ensures ApiOutcome(fn, args, expected) == Success(fn.callee(args))
    ensures var t := ApiEvents(h, fn, args, expected);
      && t[2] == AfterApi(h, fn.name, args)
      && Occurrences(prior + t, AfterApiKind) == Occurrences(prior, AfterApiKind) + 1
      && Occurrences(prior + t, FailKind) == Occurrences(prior, FailKind)
  {
    var t := ApiEvents(h, fn, args, expected);
    assert t == [t[0], t[1], t[2]];
    OccurrencesAppend(prior, t, AfterApiKind);
    OccurrencesAppend(prior, t, FailKind);
    OccurrencesOfThree(t[0], t[1], t[2], AfterApiKind);
    OccurrencesOfThree(t[0], t[1], t[2], FailKind);
  }

  /** When the caller gives no expected value, only retval 0 (or none) is
      accepted. */
  lemma ApiExpectsZeroByDefault(fn: ApiFn, args: Args)
    ensures ApiOutcome(fn, args).Success? <==>
              fn.callee(args).retval.None? || fn.callee(args).retval.value == 0
  {
  }

  /** `cli(cmd)` hands the command to the before-hook, sends it with a
      newline and its length, hands the sent text to the after-hook, and
      neither checks a retval nor runs the api hooks. */
  lemma CliEventsShape(prior: seq<Event>, h: Hook, cmd: string)
    ensures var t := CliEvents(h, cmd);
      && t == [BeforeCli(h, cmd), CliInband(|cmd| + 1, cmd + "\n"), AfterCli(h, cmd + "\n")]
      && t[0].cmd != t[2].cmd
      && forall k :: k in {BeforeApiKind, CallKind, AfterApiKind, FailKind} ==>
           Occurrences(prior + t, k) == Occurrences(prior, k)
  {
    var t := CliEvents(h, cmd);
    assert t == [t[0], t[1], t[2]];
    assert |t[0].cmd| != |t[2].cmd|;
    forall k | k in {BeforeApiKind, CallKind, AfterApiKind, FailKind}
      ensures Occurrences(prior + t, k) == Occurrences(prior, k)
    {
      OccurrencesAppend(prior, t, k);
      OccurrencesOfThree(t[0], t[1], t[2], k);
    }
  }
}
