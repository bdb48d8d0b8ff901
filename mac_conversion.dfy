/** `_convert_mac`: a MAC address written as hex digits separated by colons
    becomes the integer the L2 FIB message expects, the hex value shifted
    left by 16 bits. The conversion relies on Python 2.7's `int(text, 16)`,
    whose accepted syntax is modelled here as well. */
module MacConversion {
  import opened Wrappers
  import opened PapiTypes

  predicate IsHexDigit(c: char) {
    '0' <= c <= '9' || 'a' <= c <= 'f' || 'A' <= c <= 'F'
  }

  predicate AllHex(s: string) {
    forall i :: 0 <= i < |s| ==> IsHexDigit(s[i])
  }

  /** The characters `isspace` accepts in the C locale. */
  predicate IsSpace(c: char) {
    c == ' ' || c == '\t' || c == '\n' || c == '\r' || c == '\U{000B}' || c == '\U{000C}'
  }

  /** Every character that may occur in a text `int(text, 16)` accepts:
      white space, a sign, the `x` of a `0x` prefix and hex digits. */
  predicate InLiteralAlphabet(c: char) {
    IsSpace(c) || c == '+' || c == '-' || c == 'x' || c == 'X' || IsHexDigit(c)
  }

  function DigitValue(c: char): (v: nat)
    requires IsHexDigit(c)
    ensures v < 16
  {
    if '0' <= c <= '9' then c as int - '0' as int
    else if 'a' <= c <= 'f' then c as int - 'a' as int + 10
    else c as int - 'A' as int + 10
  }

  /** The lower-case digit for `v`; the partner of DigitValue. */
  function HexChar(v: nat): (c: char)
    requires v < 16
    ensures IsHexDigit(c) && DigitValue(c) == v && c != ':'
  {
    if v < 10 then ('0' as int + v) as char else ('a' as int + v - 10) as char
  }

  function Pow16(n: nat): (p: nat)
    ensures p >= 1
  {
    if n == 0 then 1 else 16 * Pow16(n - 1)
  }

  /** The number a string of hex digits denotes, most significant first. */
  function HexValue(d: string): (n: nat)
    requires AllHex(d)
    ensures n < Pow16(|d|)
  {
    if d == [] then 0 else HexValue(d[..|d| - 1]) * 16 + DigitValue(d[|d| - 1])
  }

  /** The `width` lowest hex digits of `n`, most significant first. */
  function ToHex(n: nat, width: nat): (d: string)
    ensures |d| == width && AllHex(d) && ':' !in d
  {
    if width == 0 then [] else ToHex(n / 16, width - 1) + [HexChar(n % 16)]
  }

  lemma {:induction false} HexValueToHex(n: nat, width: nat)
    requires n < Pow16(width)
    ensures HexValue(ToHex(n, width)) == n
  {
    if width > 0 {
      var d := ToHex(n, width);
      assert d[..|d| - 1] == ToHex(n / 16, width - 1);
      assert n / 16 < Pow16(width - 1);
      HexValueToHex(n / 16, width - 1);
    }
  }

  /** `s` with the leading white space removed. */
  function TrimLeft(s: string): (r: string)
    ensures |r| <= |s| && r == s[|s| - |r|..]
    ensures forall i :: 0 <= i < |s| - |r| ==> IsSpace(s[i])
  {
    if |s| > 0 && IsSpace(s[0]) then
      var r := TrimLeft(s[1..]);
      assert s[1..][|s| - 1 - |r|..] == s[|s| - |r|..];
      assert forall i :: 1 <= i < |s| - |r| ==> s[i] == s[1..][i - 1];
      r
    else s
  }

  /** `s` with the trailing white space removed. */
  function TrimRight(s: string): (r: string)
    ensures |r| <= |s| && r == s[..|r|]
    ensures forall i :: |r| <= i < |s| ==> IsSpace(s[i])
  {
    if |s| > 0 && IsSpace(s[|s| - 1]) then TrimRight(s[..|s| - 1]) else s
  }

  /** `t` without its leading sign, if it has one. */
  function StripSign(t: string): (u: string)
    ensures |u| <= |t| && u == t[|t| - |u|..]
    ensures forall i :: 0 <= i < |t| - |u| ==> t[i] == '+' || t[i] == '-'
  {
    if |t| > 0 && (t[0] == '-' || t[0] == '+') then t[1..] else t
  }

  /** `u` without its `0x` or `0X` prefix, if it has one. */
  function StripHexPrefix(u: string): (d: string)
    ensures |d| <= |u| && d == u[|u| - |d|..]
    ensures forall i :: 0 <= i < |u| - |d| ==> u[i] == '0' || u[i] == 'x' || u[i] == 'X'
  {
    if |u| >= 2 && u[0] == '0' && (u[1] == 'x' || u[1] == 'X') then u[2..] else u
  }

  /** Python 2.7's `int(s, 16)` on a byte string: optional surrounding white space, an
      optional sign, optional white space after the sign, an optional
      `0x`/`0X` prefix and at least one hex digit. None is the ValueError. */
  function ParseHexInt(s: string): (r: Option<int>)
    ensures s == [] ==> r == None
  {
    var d := LiteralDigits(s);
    if |d| > 0 && AllHex(d) then
      Some(SignedValue(NegativeLiteral(s), d))
    else None
  }

  /** The digits of the literal `s`, after white space, sign, the white
      space after the sign and the prefix. */
  function LiteralDigits(s: string): (d: string)
    ensures |d| <= |s|
  {
    StripHexPrefix(TrimLeft(StripSign(TrimLeft(TrimRight(s)))))
  }

  predicate NegativeLiteral(s: string) {
    var t := TrimLeft(TrimRight(s));
    |t| > 0 && t[0] == '-'
  }

  lemma TrimHexText(s: string)
    requires |s| > 0 && AllHex(s)
    ensures TrimLeft(TrimRight(s)) == s
  {
    assert IsHexDigit(s[|s| - 1]);
    assert TrimRight(s) == s;
    assert IsHexDigit(s[0]);
  }

  lemma TrimLeftNoSpace(s: string)
    requires |s| > 0 && !IsSpace(s[0])
    ensures TrimLeft(s) == s
  {
  }

  /** A plain string of hex digits denotes its hex value. */
  lemma ParseHexIntPlain(s: string)
    requires |s| > 0 && AllHex(s)
    ensures ParseHexInt(s) == Some(HexValue(s))
  {
    TrimHexText(s);
    BareDigits(s);
    assert LiteralDigits(s) == s && !NegativeLiteral(s);
  }

  predicate AllSpace(w: string) {
    forall i :: 0 <= i < |w| ==> IsSpace(w[i])
  }

  lemma {:induction false} TrimRightSpaces(x: string, w: string)
    requires |x| > 0 && !IsSpace(x[|x| - 1]) && AllSpace(w)
    ensures TrimRight(x + w) == x
  {
    if w != [] {
      assert (x + w)[..|x + w| - 1] == x + w[..|w| - 1];
      TrimRightSpaces(x, w[..|w| - 1]);
    }
  }

  lemma {:induction false} TrimLeftSpaces(w: string, x: string)
    requires |x| > 0 && !IsSpace(x[0]) && AllSpace(w)
    ensures TrimLeft(w + x) == x
  {
    if w != [] {
      assert (w + x)[1..] == w[1..] + x;
      TrimLeftSpaces(w[1..], x);
    }
  }

  /** Bare digits pass sign, white space and prefix stripping unchanged. */
  lemma BareDigits(d: string)
    requires |d| > 0 && AllHex(d)
    ensures !IsSpace(d[0]) && d[0] != '+' && d[0] != '-'
    ensures StripHexPrefix(TrimLeft(StripSign(d))) == d
  {
    assert IsHexDigit(d[0]);
    assert StripSign(d) == d;
    TrimLeftNoSpace(d);
    assert |d| >= 2 ==> IsHexDigit(d[1]);
  }

  /** Digits after `0x` or `0X` are what remains once the prefix is gone. */
  lemma PrefixedDigits(pd: string, d: string)
    requires |pd| == |d| + 2 && pd[0] == '0' && (pd[1] == 'x' || pd[1] == 'X') && pd[2..] == d
    ensures !IsSpace(pd[0]) && pd[0] != '+' && pd[0] != '-'
    ensures StripHexPrefix(TrimLeft(StripSign(pd))) == d
  {
    assert StripSign(pd) == pd;
    TrimLeftNoSpace(pd);
  }

  lemma OptionalPrefixDigits(prefix: string, d: string)
    requires prefix == "" || prefix == "0x" || prefix == "0X"
    requires |d| > 0 && AllHex(d)
    ensures |prefix + d| > 0 && !IsSpace((prefix + d)[0])
    ensures (prefix + d)[0] != '+' && (prefix + d)[0] != '-'
    ensures !IsSpace((prefix + d)[|prefix + d| - 1])
    ensures StripHexPrefix(TrimLeft(StripSign(prefix + d))) == d
  {
    var pd := prefix + d;
    assert IsHexDigit(d[|d| - 1]) && pd[|pd| - 1] == d[|d| - 1];
    if prefix == "" {
      assert pd == d;
      BareDigits(d);
    } else {
      assert pd[2..] == d;
      PrefixedDigits(pd, d);
    }
  }

  /** The value of a literal with digits `d`, negated when it is signed `-`. */
  function SignedValue(negative: bool, d: string): int
    requires AllHex(d)
  {
    if negative then -(HexValue(d) as int) else HexValue(d)
  }

  /** Trimming the literal's form leaves the sign, the white space after
      it, the prefix and the digits; without a sign, only prefix and digits. */
  lemma TrimLiteral(s: string, w1: string, sign: string, w2: string, pd: string, w3: string)
    requires AllSpace(w1) && AllSpace(w2) && AllSpace(w3)
    requires sign == "" || sign == "+" || sign == "-"
    requires |pd| > 0 && !IsSpace(pd[0]) && !IsSpace(pd[|pd| - 1])
    requires s == w1 + sign + w2 + pd + w3
    ensures TrimLeft(TrimRight(s)) == if sign == "" then pd else sign + w2 + pd
  {
    assert w1 + sign + w2 + pd + w3 == (w1 + sign + w2 + pd) + w3;
    TrimRightSpaces(w1 + sign + w2 + pd, w3);
    if sign == "" {
      assert AllSpace(w1 + w2);
      assert w1 + sign + w2 + pd == (w1 + w2) + pd;
      TrimLeftSpaces(w1 + w2, pd);
    } else {
      assert w1 + sign + w2 + pd == w1 + (sign + w2 + pd);
      TrimLeftSpaces(w1, sign + w2 + pd);
    }
  }

  /** After the sign, white space is skipped before the prefix. */
  lemma SignedDigits(sign: string, w2: string, pd: string, d: string)
    requires AllSpace(w2) && (sign == "+" || sign == "-")
    requires |pd| > 0 && !IsSpace(pd[0]) && pd[0] != '+' && pd[0] != '-'
    requires StripHexPrefix(TrimLeft(StripSign(pd))) == d
    ensures StripHexPrefix(TrimLeft(StripSign(sign + w2 + pd))) == d
  {
    StripSignOf(sign, w2, pd);
    TrimLeftSpaces(w2, pd);
    TrimLeftNoSpace(pd);
    StripSignNoSign(pd);
  }

  lemma StripSignNoSign(t: string)
    requires |t| > 0 && t[0] != '+' && t[0] != '-'
    ensures StripSign(t) == t
  {
  }

  lemma StripSignOf(sign: string, x: string, y: string)
    requires sign == "+" || sign == "-"
    ensures StripSign(sign + x + y) == x + y
  {
    assert (sign + x + y)[1..] == x + y;
  }

  /** `int(s, 16)` in terms of the trimmed text and the digits after sign and prefix. */
  lemma ParseHexIntOf(s: string, t: string, d: string)
    requires TrimLeft(TrimRight(s)) == t && StripHexPrefix(TrimLeft(StripSign(t))) == d
    requires |d| > 0 && AllHex(d)
    ensures ParseHexInt(s) == Some(SignedValue(|t| > 0 && t[0] == '-', d))
  {
    assert LiteralDigits(s) == d;
  }

  lemma ParseHexIntUnsigned(s: string, pd: string, d: string)
    requires |pd| > 0 && pd[0] != '-'
    requires TrimLeft(TrimRight(s)) == pd && StripHexPrefix(TrimLeft(StripSign(pd))) == d
    requires |d| > 0 && AllHex(d)
    ensures ParseHexInt(s) == Some(SignedValue(false, d))
  {
    ParseHexIntOf(s, pd, d);
  }

  lemma ParseHexIntSigned(s: string, sign: string, w2: string, pd: string, d: string)
    requires AllSpace(w2) && (sign == "+" || sign == "-")
    requires |pd| > 0 && !IsSpace(pd[0]) && pd[0] != '+' && pd[0] != '-'
    requires TrimLeft(TrimRight(s)) == sign + w2 + pd && StripHexPrefix(TrimLeft(StripSign(pd))) == d
    requires |d| > 0 && AllHex(d)
    ensures ParseHexInt(s) == Some(SignedValue(sign == "-", d))
  {
    SignedDigits(sign, w2, pd, d);
    ParseHexIntOf(s, sign + w2 + pd, d);
    assert (sign + w2 + pd)[0] == sign[0];
  }

  lemma LiteralTextAssoc(w1: string, sign: string, w2: string, prefix: string, d: string, w3: string)
    ensures w1 + sign + w2 + prefix + d + w3 == w1 + sign + w2 + (prefix + d) + w3
  {
  }

  /** Every text of the literal's form, white space, sign, white space,
      `0x`, digits, white space, denotes the signed value of its digits. */
  lemma ParseHexIntLiteral(w1: string, sign: string, w2: string, prefix: string, d: string, w3: string)
    requires AllSpace(w1) && AllSpace(w2) && AllSpace(w3)
    requires sign == "" || sign == "+" || sign == "-"
    requires prefix == "" || prefix == "0x" || prefix == "0X"
    requires |d| > 0 && AllHex(d)
    ensures ParseHexInt(w1 + sign + w2 + prefix + d + w3) == Some(SignedValue(sign == "-", d))
  {
    var s := w1 + sign + w2 + prefix + d + w3;
    OptionalPrefixDigits(prefix, d);
    LiteralTextAssoc(w1, sign, w2, prefix, d, w3);
    TrimLiteral(s, w1, sign, w2, prefix + d, w3);
    if sign == "" {
      ParseHexIntUnsigned(s, prefix + d, d);
    } else {
      ParseHexIntSigned(s, sign, w2, prefix + d, d);
    }
  }

  /** `TrimRight` splits its text into what it keeps and the white space it drops. */
  lemma TrimRightParts(s: string) returns (x: string, w: string)
    ensures x == TrimRight(s) && AllSpace(w) && s == x + w
  {
    x := TrimRight(s);
    w := s[|x|..];
    forall i | 0 <= i < |w| ensures IsSpace(w[i]) {
      assert w[i] == s[|x| + i];
    }
  }

  /** `TrimLeft` splits its text into the white space it drops and what it keeps. */
  lemma TrimLeftParts(s: string) returns (w: string, x: string)
    ensures x == TrimLeft(s) && AllSpace(w) && s == w + x
  {
    x := TrimLeft(s);
    var k := |s| - |x|;
    w := s[..k];
    SplitAt(s, k);
    SpacePrefix(s, k);
  }

  lemma SplitAt(s: string, k: nat)
    requires k <= |s|
    ensures s == s[..k] + s[k..]
  {
  }

  lemma SpacePrefix(s: string, k: nat)
    requires k <= |s| && forall i :: 0 <= i < k ==> IsSpace(s[i])
    ensures AllSpace(s[..k])
  {
    forall i | 0 <= i < k ensures IsSpace(s[..k][i]) {
      assert s[..k][i] == s[i];
    }
  }

  /** `StripSign` splits its text into the sign, if any, and the rest. */
  lemma StripSignParts(t: string) returns (sign: string, u: string)
    ensures u == StripSign(t) && t == sign + u
    ensures sign == "" || sign == "+" || sign == "-"
    ensures (|t| > 0 && t[0] == '-') <==> sign == "-"
  {
    u := StripSign(t);
    if |t| > 0 && (t[0] == '-' || t[0] == '+') {
      sign := [t[0]];
      assert t == [t[0]] + t[1..];
    } else {
      sign := "";
    }
  }

  /** `StripHexPrefix` splits its text into the prefix, if any, and the rest. */
  lemma StripHexPrefixParts(v: string) returns (prefix: string, d: string)
    ensures d == StripHexPrefix(v) && v == prefix + d
    ensures prefix == "" || prefix == "0x" || prefix == "0X"
  {
    d := StripHexPrefix(v);
    if |v| >= 2 && v[0] == '0' && (v[1] == 'x' || v[1] == 'X') {
      prefix := v[..2];
      assert v == v[..2] + v[2..];
      assert prefix == [v[0], v[1]];
    } else {
      prefix := "";
    }
  }

  /** The converse of ParseHexIntLiteral: every text `int(_, 16)` accepts has
      the literal's form, and its value is the signed value of its digits. */
  lemma ParseHexIntOnlyLiteral(s: string)
      returns (w1: string, sign: string, w2: string, prefix: string, d: string, w3: string)
    requires ParseHexInt(s).Some?
    ensures AllSpace(w1) && AllSpace(w2) && AllSpace(w3)
    ensures sign == "" || sign == "+" || sign == "-"
    ensures prefix == "" || prefix == "0x" || prefix == "0X"
    ensures |d| > 0 && AllHex(d)
    ensures s == w1 + sign + w2 + prefix + d + w3
    ensures ParseHexInt(s) == Some(SignedValue(sign == "-", d))
  {
    var x, t, u, v;
    x, w3 := TrimRightParts(s);
    w1, t := TrimLeftParts(x);
    sign, u := StripSignParts(t);
    w2, v := TrimLeftParts(u);
    prefix, d := StripHexPrefixParts(v);
    ParseHexIntDigits(s);
    AssembleLiteral(s, x, t, u, v, w1, sign, w2, prefix, d, w3);
    ParseHexIntLiteral(w1, sign, w2, prefix, d, w3);
  }

  lemma ParseHexIntDigits(s: string)
    requires ParseHexInt(s).Some?
    ensures |LiteralDigits(s)| > 0 && AllHex(LiteralDigits(s))
  {
  }

  lemma AssembleLiteral(s: string, x: string, t: string, u: string, v: string,
                        w1: string, sign: string, w2: string, prefix: string, d: string, w3: string)
    requires s == x + w3 && x == w1 + t && t == sign + u && u == w2 + v && v == prefix + d
    ensures s == w1 + sign + w2 + prefix + d + w3
  {
  }

  lemma SpaceAfterSignTexts()
    ensures "" + "+" + " " + "0x" + "ff" + "" == "+ 0xff"
    ensures "" + "-" + " " + "" + "ff" + "" == "- ff"
  {
  }

  lemma HexValueFF()
    ensures AllHex("ff") && HexValue("ff") == 255
  {
    assert "ff"[..1] == "f";
  }

  /** Python 2.7 also skips white space between the sign and the digits. */
  lemma ParseHexIntSpaceAfterSign()
    ensures ParseHexInt("+ 0xff") == Some(255)
    ensures ParseHexInt("- ff") == Some(-255)
  {
    HexValueFF();
    SpaceAfterSignTexts();
    ParseHexIntLiteral("", "+", " ", "0x", "ff", "");
    ParseHexIntLiteral("", "-", " ", "", "ff", "");
  }

  predicate AllInLiteralAlphabet(s: string) {
    forall i :: 0 <= i < |s| ==> InLiteralAlphabet(s[i])
  }

  lemma SuffixInAlphabet(s: string, k: nat)
    requires k <= |s| && AllInLiteralAlphabet(s[k..])
    requires forall i :: 0 <= i < k ==> InLiteralAlphabet(s[i])
    ensures AllInLiteralAlphabet(s)
  {
    forall i | k <= i < |s| ensures InLiteralAlphabet(s[i]) {
      assert s[i] == s[k..][i - k];
    }
  }

  lemma TrimRightInAlphabet(s: string)
    requires AllInLiteralAlphabet(TrimRight(s))
    ensures AllInLiteralAlphabet(s)
  {
    var r := TrimRight(s);
    forall i | 0 <= i < |s| ensures InLiteralAlphabet(s[i]) {
      if i < |r| {
        assert s[i] == r[i];
      }
    }
  }

  lemma TrimLeftInAlphabet(s: string)
    requires AllInLiteralAlphabet(TrimLeft(s))
    ensures AllInLiteralAlphabet(s)
  {
    SuffixInAlphabet(s, |s| - |TrimLeft(s)|);
  }

  lemma StripSignInAlphabet(t: string)
    requires AllInLiteralAlphabet(StripSign(t))
    ensures AllInLiteralAlphabet(t)
  {
    SuffixInAlphabet(t, |t| - |StripSign(t)|);
  }

  lemma StripHexPrefixInAlphabet(u: string)
    requires AllInLiteralAlphabet(StripHexPrefix(u))
    ensures AllInLiteralAlphabet(u)
  {
    SuffixInAlphabet(u, |u| - |StripHexPrefix(u)|);
  }

  /** Anything outside white space, signs, `x` and hex digits is an error. */
  lemma ParseHexIntAlphabet(s: string)
    requires ParseHexInt(s).Some?
    ensures forall c :: c in s ==> InLiteralAlphabet(c)
  {
    var t1 := TrimRight(s);
    var t := TrimLeft(t1);
    var t2 := StripSign(t);
    var u := TrimLeft(t2);
    var d := StripHexPrefix(u);
    assert d == LiteralDigits(s) && AllHex(d);
    assert AllInLiteralAlphabet(d);
    StripHexPrefixInAlphabet(u);
    TrimLeftInAlphabet(t2);
    StripSignInAlphabet(t);
    TrimLeftInAlphabet(t1);
    TrimRightInAlphabet(s);
  }

  /** `s.replace(":", "")`. */
  function RemoveColons(s: string): (r: string)
    ensures ':' !in r
    ensures forall c :: c in r <==> c in s && c != ':'
    ensures ':' !in s ==> r == s
  {
    if s == [] then []
    else (if s[0] == ':' then [] else [s[0]]) + RemoveColons(s[1..])
  }

  lemma {:induction false} RemoveColonsAppend(a: string, b: string)
    ensures RemoveColons(a + b) == RemoveColons(a) + RemoveColons(b)
  {
    if a != [] {
      RemoveColonsFirst(a, b);
      RemoveColonsAppend(a[1..], b);
    } else {
      assert a + b == b;
    }
  }

  lemma RemoveColonsFirst(a: string, b: string)
    requires a != []
    ensures var h: string := if a[0] == ':' then [] else [a[0]];
      RemoveColons(a + b) == h + RemoveColons(a[1..] + b) && RemoveColons(a) == h + RemoveColons(a[1..])
  {
    assert (a + b)[0] == a[0] && (a + b)[1..] == a[1..] + b;
  }

  /** Python's `v << 16`, which multiplies by 2^16 also when `v` is negative. */
  function ShiftLeft16(v: int): (r: int)
    ensures r % 0x1_0000 == 0
  {
    v * 0x1_0000
  }

  /** `_convert_mac`: `int(mac.replace(":", ""), 16) << 16`. Python's left
      shift multiplies by 2^16, also for a negative value. */
  function ConvertMac(mac: string): (r: Result<int, Error>)
    ensures r.Success? ==> r.value % 0x1_0000 == 0
    ensures r.Failure? ==> r.error == InvalidLiteral(RemoveColons(mac))
  {
    var digits := RemoveColons(mac);
    match ParseHexInt(digits)
    case Some(v) => Success(ShiftLeft16(v))
    case None => Failure(InvalidLiteral(digits))
  }

  /** A MAC whose colon-free text is plain hex digits converts to the hex
      value of that text times 2^16. */
  lemma ConvertMacValue(mac: string)
    requires |RemoveColons(mac)| > 0 && AllHex(RemoveColons(mac))
    ensures ConvertMac(mac) == Success(HexValue(RemoveColons(mac)) * 0x1_0000)
  {
    ParseHexIntPlain(RemoveColons(mac));
  }

  /** Whatever white space, sign and prefix surround the digits, once the
      colons are gone, the MAC converts to their signed value times 2^16. */
  lemma ConvertMacLiteral(mac: string, w1: string, sign: string, w2: string, prefix: string,
                          d: string, w3: string)
    requires AllSpace(w1) && AllSpace(w2) && AllSpace(w3)
    requires sign == "" || sign == "+" || sign == "-"
    requires prefix == "" || prefix == "0x" || prefix == "0X"
    requires |d| > 0 && AllHex(d)
    requires RemoveColons(mac) == w1 + sign + w2 + prefix + d + w3
    ensures ConvertMac(mac) == Success(SignedValue(sign == "-", d) * 0x1_0000)
  {
    ParseHexIntLiteral(w1, sign, w2, prefix, d, w3);
  }

  lemma SpaceAfterSignMac()
    ensures RemoveColons("+ 0x:ff") == "+ 0xff"
  {
    var a, b := "+ 0x", ":ff";
    assert a + b == "+ 0x:ff";
    RemoveColonsAppend(a, b);
    NoColonsInSignPrefix();
    LeadingColonRemoved();
  }

  lemma NoColonsInSignPrefix()
    ensures RemoveColons("+ 0x") == "+ 0x"
  {
    assert ':' !in "+ 0x";
  }

  lemma LeadingColonRemoved()
    ensures RemoveColons(":ff") == "ff"
  {
    assert ":ff"[1..] == "ff";
  }

  /** As in Python 2.7, a sign followed by white space is accepted. */
  lemma ConvertMacSpaceAfterSign()
    ensures ConvertMac("+ 0x:ff") == Success(255 * 0x1_0000)
  {
    SpaceAfterSignMac();
    ParseHexIntSpaceAfterSign();
  }

  /** Every MAC that converts has, once the colons are gone, the literal's
      form, and converts to the signed value of its digits times 2^16. */
  lemma ConvertMacOnlyLiteral(mac: string)
      returns (w1: string, sign: string, w2: string, prefix: string, d: string, w3: string)
    requires ConvertMac(mac).Success?
    ensures AllSpace(w1) && AllSpace(w2) && AllSpace(w3)
    ensures sign == "" || sign == "+" || sign == "-"
    ensures prefix == "" || prefix == "0x" || prefix == "0X"
    ensures |d| > 0 && AllHex(d)
    ensures RemoveColons(mac) == w1 + sign + w2 + prefix + d + w3
    ensures ConvertMac(mac) == Success(SignedValue(sign == "-", d) * 0x1_0000)
  {
    w1, sign, w2, prefix, d, w3 := ParseHexIntOnlyLiteral(RemoveColons(mac));
  }

  /** A text that starts with two hex digits and ends with one has no white
      space, sign or prefix around its digits. */
  lemma BareLiteralDigits(s: string)
    requires |s| >= 2 && IsHexDigit(s[0]) && IsHexDigit(s[1]) && IsHexDigit(s[|s| - 1])
    ensures TrimLeft(TrimRight(s)) == s && LiteralDigits(s) == s
  {
    TrimRightNoSpace(s);
    TrimLeftNoSpace(s);
    StripSignNoSign(s);
    StripHexPrefixNone(s);
  }

  lemma TrimRightNoSpace(s: string)
    requires |s| > 0 && !IsSpace(s[|s| - 1])
    ensures TrimRight(s) == s
  {
  }

  lemma StripHexPrefixNone(s: string)
    requires |s| >= 2 && IsHexDigit(s[1])
    ensures StripHexPrefix(s) == s
  {
  }

  lemma ParseHexIntBare(s: string)
    requires |s| >= 2 && IsHexDigit(s[0]) && IsHexDigit(s[1]) && IsHexDigit(s[|s| - 1])
    ensures ParseHexInt(s) == if AllHex(s) then Some(HexValue(s)) else None
  {
    BareLiteralDigits(s);
    assert !NegativeLiteral(s);
  }

  /** Once the colons are gone, a MAC that starts with two hex digits and
      ends with one is rejected as soon as any character is not a hex digit:
      a dash, a sign or an `x` inside the address is an error. */
  lemma ConvertMacRejectsInner(mac: string, i: nat)
    requires var t := RemoveColons(mac);
      && |t| >= 2 && IsHexDigit(t[0]) && IsHexDigit(t[1]) && IsHexDigit(t[|t| - 1])
      && i < |t| && !IsHexDigit(t[i])
    ensures ConvertMac(mac) == Failure(InvalidLiteral(RemoveColons(mac)))
  {
    ParseHexIntBare(RemoveColons(mac));
  }

  lemma DashedMacText()
    ensures RemoveColons("aa-bb-cc-dd-ee-ff") == "aa-bb-cc-dd-ee-ff"
  {
    assert ':' !in "aa-bb-cc-dd-ee-ff";
  }

  /** A MAC written with dashes instead of colons is rejected. */
  lemma ConvertMacRejectsDashes()
    ensures ConvertMac("aa-bb-cc-dd-ee-ff") == Failure(InvalidLiteral("aa-bb-cc-dd-ee-ff"))
  {
    DashedMacText();
    ConvertMacRejectsInner("aa-bb-cc-dd-ee-ff", 2);
  }

  /** A character that is neither a colon nor part of a hex literal makes the
      conversion fail. */
  lemma ConvertMacRejects(mac: string, c: char)
    requires c in mac && c != ':' && !InLiteralAlphabet(c)
    ensures ConvertMac(mac) == Failure(InvalidLiteral(RemoveColons(mac)))
  {
    var digits := RemoveColons(mac);
    assert c in digits;
    if ParseHexInt(digits).Some? {
      ParseHexIntAlphabet(digits);
      assert false;
    }
  }

  lemma Pow16Twelve()
    ensures Pow16(12) == 0x1_0000_0000_0000
  {
    assert Pow16(4) == 0x1_0000;
    assert Pow16(8) == 0x1_0000_0000;
  }

  /** A MAC of twelve hex digits converts to a value with the low 16 bits
      clear that fits in 64 bits. */
  lemma ConvertMacFits64(mac: string)
    requires |RemoveColons(mac)| == 12 && AllHex(RemoveColons(mac))
    ensures ConvertMac(mac).Success?
    ensures 0 <= ConvertMac(mac).value < 0x1_0000_0000_0000_0000
    ensures ConvertMac(mac).value % 0x1_0000 == 0
  {
    ConvertMacValue(mac);
    Pow16Twelve();
    assert HexValue(RemoveColons(mac)) < 0x1_0000_0000_0000;
  }

  /** Hex digits in pairs, joined by colons. */
  function Grouped(d: string): (s: string)
    decreases |d|
  {
    if |d| <= 2 then d else d[..2] + ":" + Grouped(d[2..])
  }

  /** The usual text of a 48-bit MAC address, `hh:hh:hh:hh:hh:hh`; the
      inverse partner of ConvertMac. */
  function FormatMac(n: nat): (s: string)
    requires n < Pow16(12)
  {
    Grouped(ToHex(n, 12))
  }

  lemma {:induction false} RemoveColonsGrouped(d: string)
    requires ':' !in d
    ensures RemoveColons(Grouped(d)) == d
    decreases |d|
  {
    if |d| > 2 {
      assert ':' !in d[2..] && ':' !in d[..2];
      RemoveColonsAppend(d[..2] + ":", Grouped(d[2..]));
      RemoveColonsAppend(d[..2], ":");
      RemoveColonsGrouped(d[2..]);
      assert d[..2] + d[2..] == d;
    }
  }

  /** Formatting a 48-bit value as a MAC and converting it back gives the
      value shifted left by 16 bits. */
  lemma ConvertMacFormatMac(n: nat)
    requires n < Pow16(12)
    ensures ConvertMac(FormatMac(n)) == Success(n * 0x1_0000)
  {
    var d := ToHex(n, 12);
    RemoveColonsGrouped(d);
    HexValueToHex(n, 12);
    ConvertMacValue(FormatMac(n));
  }
}
