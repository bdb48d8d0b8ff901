/** The text handling of `cli()` and `ppcli()`: the command sent to the
    engine, the NUL padding stripped from its answer, and the joined text
    `ppcli` returns. */
module CliText {
  import opened Wrappers
  import opened PapiTypes

  /** The text `cli()` sends: the command with one newline appended. */
  function CliCommand(cmd: string): (sent: string)
    ensures |sent| == |cmd| + 1 && sent[..|cmd|] == cmd && sent[|cmd|] == '\n'
  {
    cmd + "\n"
  }

  /** `s.rstrip('\x00')`. */
  function StripTrailingNul(s: string): (r: string)
    ensures |r| <= |s| && r == s[..|r|]
    ensures r == [] || r[|r| - 1] != '\0'
    ensures forall i :: |r| <= i < |s| ==> s[i] == '\0'
  {
    if |s| > 0 && s[|s| - 1] == '\0' then StripTrailingNul(s[..|s| - 1]) else s
  }

  /** The three properties above determine the stripped text. */
  lemma StripTrailingNulUnique(s: string, r: string)
    requires |r| <= |s| && r == s[..|r|]
    requires r == [] || r[|r| - 1] != '\0'
    requires forall i :: |r| <= i < |s| ==> s[i] == '\0'
    ensures r == StripTrailingNul(s)
  {
  }

  /** Appending NUL padding does not change the stripped text. */
  lemma StripTrailingNulPadding(s: string, n: nat)
    ensures StripTrailingNul(s + seq(n, _ => '\0')) == StripTrailingNul(s)
  {
    var p := s + seq(n, _ => '\0');
    var r := StripTrailingNul(s);
    assert p[..|s|] == s;
    assert p[..|r|] == r;
    StripTrailingNulUnique(p, r);
  }

  lemma StripTrailingNulIdempotent(s: string)
    ensures StripTrailingNul(StripTrailingNul(s)) == StripTrailingNul(s)
  {
    var r := StripTrailingNul(s);
    assert r[..|r|] == r;
    StripTrailingNulUnique(r, r);
  }

  /** What `cli()` returns for the reply `r` of `cli_inband`: the payload
      without its trailing NULs, or nothing when the reply has no payload. */
  function CliOutput(r: Reply): (out: Option<string>)
    ensures out.None? <==> r.reply.None?
    ensures out.Some? ==> |out.value| <= |r.reply.value| && out.value == r.reply.value[..|out.value|]
    ensures out.Some? ==> out.value == [] || out.value[|out.value| - 1] != '\0'
    ensures out.Some? ==> forall i :: |out.value| <= i < |r.reply.value| ==> r.reply.value[i] == '\0'
  {
    match r.reply
    case Some(payload) => Some(StripTrailingNul(payload))
    case None => None
  }

  /** Python's `str()` of what `cli()` returned. */
  function PyStr(out: Option<string>): string {
    match out
    case Some(text) => text
    case None => "None"
  }

  /** The text `ppcli()` returns. */
  function PpcliText(cmd: string, out: Option<string>): string {
    cmd + "\n" + PyStr(out)
  }

  /** The line before the first newline of `s`, and the rest after it. */
  function SplitFirstLine(s: string): (string, string) {
    if s == [] then ([], [])
    else if s[0] == '\n' then ([], s[1..])
    else var (line, rest) := SplitFirstLine(s[1..]); ([s[0]] + line, rest)
  }

  /** For a one-line command, the command and the rendered output can be read
      back from the text `ppcli()` returns. */
  lemma {:induction false} PpcliTextSplits(cmd: string, out: Option<string>)
    requires '\n' !in cmd
    ensures SplitFirstLine(PpcliText(cmd, out)) == (cmd, PyStr(out))
  {
    if cmd != [] {
      assert PpcliText(cmd, out)[1..] == PpcliText(cmd[1..], out);
      assert cmd == [cmd[0]] + cmd[1..];
      PpcliTextSplits(cmd[1..], out);
    }
  }
}
