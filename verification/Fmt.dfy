/** The builder and the number parsers of include/at_fmt.h. */
module Fmt {
  import opened Common

  const UINT32_MAX := 4294967295
  const INT32_MAX := 2147483647

  type uint32 = x: int | 0 <= x <= 4294967295
  type int32 = x: int | -2147483648 <= x <= 2147483647

  // ---------------------------------------------------------------- decimal notation

  predicate IsDigit(c: char) {
    '0' <= c <= '9'
  }

  function DigitChar(d: nat): char
    requires d < 10
  {
    '0' + d as char
  }

  /** Decimal notation without leading zeros; the empty string for zero. */
  function Numeral(v: nat): (s: string)
    ensures forall i :: 0 <= i < |s| ==> IsDigit(s[i])
  {
    if v == 0 then "" else Numeral(v / 10) + [DigitChar(v % 10)]
  }

  function Unsigned(v: nat): string {
    if v == 0 then "0" else Numeral(v)
  }

  function Signed(v: int): string {
    if v < 0 then "-" + Unsigned(-v) else Unsigned(v)
  }

  function DigitValue(c: char): nat {
    if IsDigit(c) then (c - '0') as nat else 0
  }

  /** The number that the digits s[a..b] denote, most significant digit first. */
  function Number(s: string, a: nat, b: nat): nat
    requires a <= b <= |s|
  {
    if a == b then 0 else Number(s, a, b - 1) * 10 + DigitValue(s[b - 1])
  }

  lemma {:induction false} NumberOfCopy(s: string, a: nat, t: string, c: nat, n: nat)
    requires a + n <= |s| && c + n <= |t|
    requires forall i :: a <= i < a + n ==> s[i] == t[i - a + c]
    ensures Number(s, a, a + n) == Number(t, c, c + n)
  {
    if n > 0 {
      NumberOfCopy(s, a, t, c, n - 1);
    }
  }

  lemma {:induction false} NumberOfNumeral(v: nat)
    ensures Number(Numeral(v), 0, |Numeral(v)|) == v
  {
    if v != 0 {
      NumberOfNumeral(v / 10);
      NumberOfCopy(Numeral(v), 0, Numeral(v / 10), 0, |Numeral(v / 10)|);
    }
  }

  lemma UnsignedIsNumber(v: nat)
    ensures Unsigned(v) != "" && forall i :: 0 <= i < |Unsigned(v)| ==> IsDigit(Unsigned(v)[i])
    ensures Number(Unsigned(v), 0, |Unsigned(v)|) == v
  {
    NumberOfNumeral(v);
  }

  function Pow10(k: nat): nat {
    if k == 0 then 1 else 10 * Pow10(k - 1)
  }

  function Reverse(s: string): string {
    if s == "" then "" else Reverse(s[1..]) + [s[0]]
  }

  lemma {:induction false} ReverseAppend(s: string, c: char)
    ensures Reverse(s + [c]) == [c] + Reverse(s)
  {
    if s != "" {
      assert (s + [c])[1..] == s[1..] + [c];
      ReverseAppend(s[1..], c);
    }
  }

  lemma MinusFirst(before: string, v: int32, magnitude: nat)
    requires v < 0 && magnitude == -(v as int)
    ensures before + Signed(v) == (before + "-") + Unsigned(magnitude)
  {
  }

  // ---------------------------------------------------------------- builder

  /** One AB_* invocation; AB_U8 and AB_U16 are U32, AB_I16 is I32. */
  datatype Piece = Char(c: char) | Str(s: CString) | QStr(q: CString) | U32(u: uint32) | I32(i: int32)

  /** What a piece prints. */
  function Text(p: Piece): string {
    match p
    case Char(c) => [c]
    case Str(s) => s
    case QStr(q) => "\"" + q + "\""
    case U32(u) => Unsigned(u)
    case I32(i) => Signed(i)
  }

  function Printed(ps: seq<Piece>): string {
    if ps == [] then "" else Printed(ps[..|ps| - 1]) + Text(ps[|ps| - 1])
  }

  class Builder {
    const buf: array<char>
    var len: nat
    var ok: bool
    ghost var pieces: seq<Piece>  // everything appended so far

    /** The buffer holds as much of the printed text as fits beside a terminator,
        and `ok` says whether that is all of it. */
    ghost predicate Valid()
      reads this, buf
    {
      && Room()
      && buf[..len] == Take(Printed(pieces), buf.Length - 1)
      && (ok <==> |Printed(pieces)| < buf.Length)
    }

    predicate Room()
      reads this
    {
      len < buf.Length
    }

    /** The effect shared by the append primitives: text is added until the buffer is full. */
    twostate predicate Extended(text: string, done: bool)
      requires old(Room())
      reads this, buf
    {
      && Room()
      && buf[..len] == Take(old(buf[..len]) + text, buf.Length - 1)
      && (done <==> |old(buf[..len])| + |text| < buf.Length)
    }

    constructor (b: array<char>)
      requires b.Length >= 1
      ensures Valid() && buf == b && pieces == [] && ok && len == 0
    {
      buf, len, ok, pieces := b, 0, true, [];
    }

    method AbChar(c: char) returns (done: bool)
      requires Room()
      modifies this`len, buf
      ensures Extended([c], done)
    {
      if len + 1 >= buf.Length { return false; }
      buf[len] := c;
      len := len + 1;
      return true;
    }

    method AbStr(s: CString) returns (done: bool)
      requires Room()
      modifies this`len, buf
      ensures Extended(s, done)
    {
      var i := 0;
      ghost var before := buf[..len];
      while i < |s|
        invariant i <= |s| && Room()
        invariant buf[..len] == before + s[..i]
      {
        if len + 1 >= buf.Length {
          assert (before + s)[..len] == before + s[..i];
          return false;
        }
        buf[len] := s[i];
        len, i := len + 1, i + 1;
      }
      assert s[..i] == s;
      return true;
    }

    method AbQStr(s: CString) returns (done: bool)
      requires Room()
      modifies this`len, buf
      ensures Extended("\"" + s + "\"", done)
    {
      ghost var before, n := buf[..len], buf.Length - 1;
      done := AbChar('"');
      if !done {
        return;
      }
      ghost var quoted := before + "\"";
      done := AbStr(s);
      TakeAppend(quoted + s, "\"", n);
      assert before + ("\"" + s + "\"") == quoted + s + "\"";
      if done {
        done := AbChar('"');
      }
    }

    method AbU32(v0: uint32) returns (done: bool)
      requires Room()
      modifies this`len, buf
      ensures Extended(Unsigned(v0), done)
    {
      if v0 == 0 {
        done := AbChar('0');
        return;
      }
      var tmp, n, v := new char[10], 0, v0;
      assert Pow10(10) == 10000000000 by { assert Pow10(5) == 100000; }
      while v > 0
        invariant 0 <= n <= 10 && 0 <= v < Pow10(10 - n)
        invariant Numeral(v0) == Numeral(v) + Reverse(tmp[..n])
        modifies tmp
        decreases v
      {
        ghost var low := tmp[..n];
        tmp[n] := DigitChar(v % 10);
        v, n := v / 10, n + 1;
        assert tmp[..n] == low + [tmp[n - 1]];
        ReverseAppend(low, tmp[n - 1]);
      }
      done := EmitReversed(tmp, n);
    }

    /** The digits of tmp, last one first. */
    method EmitReversed(tmp: array<char>, n: nat) returns (done: bool)
      requires Room() && n <= tmp.Length && tmp != buf
      modifies this`len, buf
      ensures Extended(Reverse(tmp[..n]), done)
    {
      ghost var before, text := buf[..len], Reverse(tmp[..n]);
      var i := n;
      while i > 0
        invariant 0 <= i <= n && Room()
        invariant buf[..len] + Reverse(tmp[..i]) == before + text
      {
        i := i - 1;
        assert tmp[..i + 1] == tmp[..i] + [tmp[i]];
        ReverseAppend(tmp[..i], tmp[i]);
        ghost var shown := buf[..len];
        assert shown + ([tmp[i]] + Reverse(tmp[..i])) == (shown + [tmp[i]]) + Reverse(tmp[..i]);
        done := AbChar(tmp[i]);
        if !done {
          assert (before + text)[..|shown|] == shown == buf[..len];
          return;
        }
      }
      assert buf[..len] + Reverse(tmp[..0]) == buf[..len];
      done := true;
    }

    method AbI32(v: int32) returns (done: bool)
      requires Room()
      modifies this`len, buf
      ensures Extended(Signed(v), done)
    {
      if v < 0 {
        ghost var before := buf[..len];
        done := AbChar('-');
        if !done { return; }
        var magnitude := -(v + 1) + 1;
        done := AbU32(magnitude);
        MinusFirst(before, v, magnitude);
      } else {
        done := AbU32(v);
      }
    }

    method AppendText(p: Piece) returns (done: bool)
      requires Room()
      modifies this`len, buf
      ensures Extended(Text(p), done)
    {
      match p
      case Char(c) => done := AbChar(c);
      case Str(s) => done := AbStr(s);
      case QStr(q) => done := AbQStr(q);
      case U32(u) => done := AbU32(u);
      case I32(i) => done := AbI32(i);
    }

    /** An AB_* macro: skipped once an earlier append has failed. */
    method Append(p: Piece)
      requires Valid()
      modifies this, buf
      ensures Valid() && pieces == old(pieces) + [p]
    {
      ghost var all := Printed(pieces);
      if ok {
        ok := AppendText(p);
      }
      pieces := pieces + [p];
      TakeAppend(all, Text(p), buf.Length - 1);
      assert pieces[..|pieces| - 1] == old(pieces);
    }

    /** A sequence of them. */
    method AppendAll(ps: seq<Piece>)
      requires Valid() && pieces == []
      modifies this, buf
      ensures Valid() && pieces == ps
    {
      for i := 0 to |ps|
        invariant Valid() && pieces == ps[..i]
      {
        Append(ps[i]);
        assert ps[..i + 1] == ps[..i] + [ps[i]];
      }
      assert ps[..|ps|] == ps;
    }

    /** AB_DONE: terminate the text in place. */
    method Done() returns (s: string)
      requires Valid()
      modifies buf
      ensures Valid() && buf[len] == NUL
      ensures s == Take(Printed(pieces), buf.Length - 1)
      ensures ok ==> s == Printed(pieces)
    {
      buf[len] := NUL;
      assert buf[..len] == old(buf[..len]);
      s := buf[..len];
    }
  }

  /** A whole AB_INIT .. AB_OK .. AB_DONE sequence: it succeeds exactly when the text and its
      terminator fit, and then the buffer is the concatenation of the pieces. */
  method Build(ps: seq<Piece>, buf: array<char>) returns (ok: bool, text: string)
    requires buf.Length >= 1
    modifies buf
    ensures ok <==> |Printed(ps)| < buf.Length
    ensures text == Take(Printed(ps), buf.Length - 1)
    ensures text == buf[..|text|] && buf[|text|] == NUL
  {
    var b := new Builder(buf);
    b.AppendAll(ps);
    ok := b.ok;
    text := b.Done();
  }

  // ---------------------------------------------------------------- parsers

  /** Where the run of digits starting at p ends. */
  function DigitEnd(s: string, p: nat): (q: nat)
    requires p <= |s|
    ensures p <= q <= |s| && (q < |s| ==> !IsDigit(s[q]))
    ensures forall i :: p <= i < q ==> IsDigit(s[i])
    decreases |s| - p
  {
    if p < |s| && IsDigit(s[p]) then DigitEnd(s, p + 1) else p
  }

  predicate IsBlank(c: char) {
    c == ' ' || c == '\t'
  }

  function BlankEnd(s: string, p: nat): (q: nat)
    requires p <= |s|
    ensures p <= q <= |s| && (q < |s| ==> !IsBlank(s[q]))
    ensures forall i :: p <= i < q ==> IsBlank(s[i])
    decreases |s| - p
  {
    if p < |s| && IsBlank(s[p]) then BlankEnd(s, p + 1) else p
  }

  /** What at__parse_uint makes of a digit string with value n. */
  function SaturateUint(n: nat): uint32 {
    if n <= 4294967289 then n else UINT32_MAX
  }

  function SaturateInt(n: nat): int32 {
    if n <= 2147483639 then n else INT32_MAX
  }

  /** Where its digits begin: after blanks and at most one sign. */
  function FirstDigit(s: string, p: nat): (q: nat)
    requires p <= |s|
    ensures BlankEnd(s, p) <= q <= |s|
  {
    var sign := BlankEnd(s, p);
    if sign < |s| && (s[sign] == '-' || s[sign] == '+') then sign + 1 else sign
  }

  /** The number at__parse_int reads from position p of s on. */
  function ParsedInt(s: string, p: nat): int32
    requires p <= |s|
  {
    var sign, first := BlankEnd(s, p), FirstDigit(s, p);
    var magnitude := SaturateInt(Number(s, first, DigitEnd(s, first)));
    if sign < |s| && s[sign] == '-' then -magnitude else magnitude
  }

  method ParseUint(s: string, p0: nat) returns (v: uint32, p: nat)
    requires p0 <= |s|
    ensures p == DigitEnd(s, p0)
    ensures v == if Number(s, p0, p) <= 4294967289 then Number(s, p0, p) else 4294967295
  {
    v, p := 0, p0;
    while p < |s| && '0' <= s[p] <= '9'
      invariant p0 <= p <= |s|
      invariant DigitEnd(s, p0) == DigitEnd(s, p)
      invariant v == SaturateUint(Number(s, p0, p))
    {
      if v <= (0xFFFFFFFF - 9) / 10 {
        v := v * 10 + (s[p] - '0') as int;
      } else {
        v := 0xFFFFFFFF;
      }
      p := p + 1;
    }
  }

  method ParseInt(s: string, p0: nat) returns (r: int32, p: nat)
    requires p0 <= |s|
    ensures r == ParsedInt(s, p0)
    ensures var sign, first := BlankEnd(s, p0), FirstDigit(s, p0);
            && p == DigitEnd(s, first)
            && var n := Number(s, first, p);
            var m := if n <= 2147483639 then n else 2147483647;
            r == if sign < |s| && s[sign] == '-' then -m else m
  {
    p := p0;
    while p < |s| && (s[p] == ' ' || s[p] == '\t')
      invariant p0 <= p <= |s|
      invariant BlankEnd(s, p0) == BlankEnd(s, p)
    {
      p := p + 1;
    }
    var neg := false;
    if p < |s| && s[p] == '-' {
      neg, p := true, p + 1;
    } else if p < |s| && s[p] == '+' {
      p := p + 1;
    }
    var v;
    v, p := ParseMagnitude(s, p);
    r := if neg then -v else v;
  }

  /** The digit loop of at__parse_int. */
  method ParseMagnitude(s: string, p0: nat) returns (v: int32, p: nat)
    requires p0 <= |s|
    ensures p == DigitEnd(s, p0)
    ensures v == SaturateInt(Number(s, p0, p))
  {
    v, p := 0, p0;
    while p < |s| && '0' <= s[p] <= '9'
      invariant p0 <= p <= |s|
      invariant DigitEnd(s, p0) == DigitEnd(s, p)
      invariant v == SaturateInt(Number(s, p0, p))
    {
      if v <= (0x7FFFFFFF - 9) / 10 {
        v := v * 10 + (s[p] - '0') as int;
      } else {
        v := 0x7FFFFFFF;
      }
      p := p + 1;
    }
  }

  /** Numbers are printed in decimal: a digit as itself, and one more digit for ten times the value. */
  lemma DecimalNotation(v: nat, d: nat)
    requires d < 10
    ensures Unsigned(d) == ["0123456789"[d]]
    ensures v > 0 ==> Unsigned(10 * v + d) == Unsigned(v) + ["0123456789"[d]]
  {
    assert Numeral(0) == "" && (d > 0 ==> Numeral(d) == Numeral(0) + [DigitChar(d)]);
    assert (10 * v + d) / 10 == v && (10 * v + d) % 10 == d;
  }

  /** A minus negates what follows, a plus does not, and blanks before them are skipped. */
  lemma SignsAreRead(v: uint32)
    ensures ParsedInt(" \t" + Unsigned(v), 0) == ParsedInt(" \t+" + Unsigned(v), 0)
                                               == (if v <= 2147483639 then v else 2147483647)
    ensures ParsedInt(" \t-" + Unsigned(v), 0) == if v <= 2147483639 then -(v as int) else -2147483647
  {
    UnsignedIsNumber(v);
    ReadAfter(" \t", v);
    ReadAfter(" \t+", v);
    ReadAfter(" \t-", v);
  }

  lemma ReadAfter(front: string, v: nat)
    requires front in {" \t", " \t+", " \t-"}
    ensures ParsedInt(front + Unsigned(v), 0)
            == if front == " \t-" then -SaturateInt(v) else SaturateInt(v)
  {
    var s, first := front + Unsigned(v), |front|;
    UnsignedIsNumber(v);
    assert s[0] == ' ' && s[1] == '\t' && IsDigit(s[first]);
    BlanksEnd(s, 0, 2);
    DigitsEnd(s, first, |s|);
    NumberOfCopy(s, first, Unsigned(v), 0, |Unsigned(v)|);
  }

  lemma {:induction false} DigitsToEnd(s: string, p: nat)
    requires p <= |s| && forall i :: p <= i < |s| ==> IsDigit(s[i])
    ensures DigitEnd(s, p) == |s|
    decreases |s| - p
  {
    if p < |s| {
      DigitsToEnd(s, p + 1);
    }
  }

  /** Printing then parsing an unsigned number is the identity except just below the limit. */
  lemma UintRoundTrip(v: uint32)
    ensures DigitEnd(Unsigned(v), 0) == |Unsigned(v)|
    ensures SaturateUint(Number(Unsigned(v), 0, |Unsigned(v)|)) == v
            <==> v <= 4294967289 || v == UINT32_MAX
  {
    UnsignedIsNumber(v);
    DigitsToEnd(Unsigned(v), 0);
  }

  /** A number written as an optional minus and digits up to the end of s. */
  lemma ParsedIntOfDigits(s: string, first: nat)
    requires first < |s| && first <= 1 && (first == 1 ==> s[0] == '-')
    requires forall i :: first <= i < |s| ==> IsDigit(s[i])
    ensures var m := SaturateInt(Number(s, first, |s|));
            ParsedInt(s, 0) == if first == 1 then -m else m
  {
    DigitsToEnd(s, first);
    assert IsDigit(s[first]);
  }

  lemma NumberAfterMinus(u: string)
    requires forall i :: 0 <= i < |u| ==> IsDigit(u[i])
    ensures forall i :: 1 <= i < 1 + |u| ==> IsDigit(("-" + u)[i])
    ensures Number("-" + u, 1, 1 + |u|) == Number(u, 0, |u|)
  {
    NumberOfCopy("-" + u, 1, u, 0, |u|);
  }

  lemma {:induction false} BlanksEnd(s: string, p: nat, q: nat)
    requires p <= q <= |s| && (q < |s| ==> !IsBlank(s[q]))
    requires forall i :: p <= i < q ==> IsBlank(s[i])
    ensures BlankEnd(s, p) == q
    decreases q - p
  {
    if p < q {
      BlanksEnd(s, p + 1, q);
    }
  }

  lemma {:induction false} DigitsEnd(s: string, p: nat, q: nat)
    requires p <= q <= |s| && (q < |s| ==> !IsDigit(s[q]))
    requires forall i :: p <= i < q ==> IsDigit(s[i])
    ensures DigitEnd(s, p) == q
    decreases q - p
  {
    if p < q {
      DigitsEnd(s, p + 1, q);
    }
  }

  /** Blanks, an optional minus, digits, and then something else. */
  lemma ParsedIntAt(s: string, p: nat, sign: nat, first: nat, end: nat)
    requires p <= sign <= first < end <= |s| && (end < |s| ==> !IsDigit(s[end]))
    requires (forall i :: p <= i < sign ==> IsBlank(s[i])) && (forall i :: first <= i < end ==> IsDigit(s[i]))
    requires first == sign || (first == sign + 1 && s[sign] == '-')
    ensures var m := SaturateInt(Number(s, first, end));
            ParsedInt(s, p) == if first == sign then m else -m
  {
    assert IsDigit(s[first]);
    BlanksEnd(s, p, sign);
    DigitsEnd(s, first, end);
  }

  function Magnitude(v: int32): nat {
    if v < 0 then -(v as int) else v
  }

  lemma SignedShape(v: int32)
    ensures Signed(v) == (if v < 0 then "-" else "") + Unsigned(Magnitude(v))
  {
  }

  /** A printed number is read the same in the middle of a text, after blanks and before anything
      that is not a digit. */
  lemma ParsedIntInText(before: string, blanks: string, v: int32, rest: string)
    requires (forall i :: 0 <= i < |blanks| ==> IsBlank(blanks[i])) && (rest != "" ==> !IsDigit(rest[0]))
    ensures ParsedInt(before + blanks + Signed(v) + rest, |before|)
            == if v < 0 then -SaturateInt(Magnitude(v)) else SaturateInt(Magnitude(v))
  {
    UnsignedIsNumber(Magnitude(v));
    TextShape(before, blanks, v, rest);
    ParsedIntShaped(before + blanks + Signed(v) + rest, |before|, |before| + |blanks|, v < 0, Unsigned(Magnitude(v)));
  }

  lemma ParsedIntShaped(s: string, p: nat, sign: nat, neg: bool, digits: string)
    requires digits != "" && forall i :: 0 <= i < |digits| ==> IsDigit(digits[i])
    requires p <= sign && (if neg then sign + 1 else sign) + |digits| <= |s|
    requires (forall i :: p <= i < sign ==> IsBlank(s[i])) && (neg ==> s[sign] == '-')
    requires var first := if neg then sign + 1 else sign;
             && (forall i :: first <= i < first + |digits| ==> s[i] == digits[i - first])
             && (first + |digits| < |s| ==> !IsDigit(s[first + |digits|]))
    ensures var m := SaturateInt(Number(digits, 0, |digits|));
            ParsedInt(s, p) == if neg then -m else m
  {
    var first := if neg then sign + 1 else sign;
    NumberOfCopy(s, first, digits, 0, |digits|);
    ParsedIntAt(s, p, sign, first, first + |digits|);
  }

  lemma TextShape(before: string, blanks: string, v: int32, rest: string)
    ensures var s, sign, digits := before + blanks + Signed(v) + rest, |before| + |blanks|, Unsigned(Magnitude(v));
            var first := if v < 0 then sign + 1 else sign;
            && first + |digits| + |rest| == |s|
            && (forall i :: |before| <= i < sign ==> s[i] == blanks[i - |before|])
            && (v < 0 ==> s[sign] == '-')
            && (forall i :: first <= i < first + |digits| ==> s[i] == digits[i - first])
            && (rest != "" ==> s[first + |digits|] == rest[0])
  {
    SignedShape(v);
  }

  /** Likewise for signed numbers, where INT32_MIN is lost as well. */
  lemma IntRoundTrip(v: int32)
    ensures ParsedInt(Signed(v), 0) == v
            <==> -2147483639 <= v <= 2147483639 || v == INT32_MAX || v == -INT32_MAX
  {
    if v < 0 {
      UnsignedIsNumber(-(v as int));
      NumberAfterMinus(Unsigned(-(v as int)));
      ParsedIntOfDigits(Signed(v), 1);
    } else {
      UnsignedIsNumber(v);
      ParsedIntOfDigits(Signed(v), 0);
    }
  }
}
