/** The GSM 7-bit default alphabet codec of src/at_gsm.c. */
module Gsm7 {
  import opened Common
  import opened Arithmetic
  import opened Packing

  datatype Gsm7Result = Gsm7Ok | ErrTooLong | ErrBufFull | ErrChar

  const SINGLE_MAX := 160

  // ---------------------------------------------------------------- alphabet

  function CharToSeptet(c: char): Option<septet> {
    if c == '@' then Some(0x00)
    else if c == '$' then Some(0x02)
    else if c == '\n' then Some(0x0A)
    else if c == '\r' then Some(0x0D)
    else if c == '_' then Some(0x11)
    else if ' ' <= c <= 'Z' || 'a' <= c <= 'z' then Some(c as int)
    else None
  }

  function SeptetToChar(x: septet): char {
    if x == 0x00 then '@'
    else if x == 0x02 then '$'
    else if x == 0x0A then '\n'
    else if x == 0x0D then '\r'
    else if x == 0x11 then '_'
    else if x == 0x24 || x == 0x40 then '?'
    else if 0x20 <= x <= 0x5A || 0x61 <= x <= 0x7A then x as char
    else '?'
  }

  predicate InAlphabet(text: string) {
    forall i :: 0 <= i < |text| ==> CharToSeptet(text[i]).Some?
  }

  /** The 128 positions of the default alphabet, after 3GPP TS 23.038 section 6.2.1. */
  const GSM_ALPHABET: seq<string> := [
    "@\U{A3}$\U{A5}\U{E8}\U{E9}\U{F9}\U{EC}\U{F2}\U{C7}\n\U{D8}\U{F8}\r\U{C5}\U{E5}",
    "\U{394}_\U{3A6}\U{393}\U{39B}\U{3A9}\U{3A0}\U{3A8}\U{3A3}\U{398}\U{39E}\U{1B}\U{C6}\U{E6}\U{DF}\U{C9}",
    " !\"#\U{A4}%&'()*+,-./",
    "0123456789:;<=>?",
    "\U{A1}ABCDEFGHIJKLMNO",
    "PQRSTUVWXYZ\U{C4}\U{D6}\U{D1}\U{DC}\U{A7}",
    "\U{BF}abcdefghijklmno",
    "pqrstuvwxyz\U{E4}\U{F6}\U{F1}\U{FC}\U{E0}"]

  function GsmChar(x: septet): char {
    GSM_ALPHABET[x / 16][x % 16]
  }

  /** The characters of the alphabet that the code supports: those of ASCII, but not the escape to
      the extension table. */
  predicate Supported(c: char) {
    c < '\U{80}' && c != '\U{1B}'
  }

  /** A character is encoded as its position in the standard's table, and only supported ones are; a
      position is decoded to its character, or to a question mark. */
  lemma AlphabetIsStandard(c: char, x: septet)
    ensures CharToSeptet(c) == Some(x) <==> GsmChar(x) == c && Supported(c)
    ensures SeptetToChar(x) == if Supported(GsmChar(x)) then GsmChar(x) else '?'
  {
    if x < 32 {
      LowRows(x);
    } else if x < 64 {
      DigitRows(x);
    } else if x < 96 {
      CapitalRows(x);
    } else {
      SmallRows(x);
    }
    TableAt(c, x);
  }

  /** What the tables of the code say about a position, given its character. */
  predicate CodeAgrees(x: septet) {
    var c := GsmChar(x);
    && (Supported(c) ==> CharToSeptet(c) == Some(x) && SeptetToChar(x) == c)
    && (!Supported(c) ==> CharToSeptet(c) == None && SeptetToChar(x) == '?')
  }

  lemma LowRows(x: septet)
    requires x < 32
    ensures CodeAgrees(x)
  {
  }

  lemma DigitRows(x: septet)
    requires 32 <= x < 64
    ensures CodeAgrees(x)
  {
  }

  lemma CapitalRows(x: septet)
    requires 64 <= x < 96
    ensures CodeAgrees(x)
  {
  }

  lemma SmallRows(x: septet)
    requires 96 <= x
    ensures CodeAgrees(x)
  {
  }

  lemma TableAt(c: char, x: septet)
    requires CodeAgrees(x)
    ensures CharToSeptet(c) == Some(x) ==> GsmChar(x) == c && Supported(c)
  {
  }

  /** The septets some character is encoded as. */
  predicate Encodes(x: septet) {
    CharToSeptet(SeptetToChar(x)) == Some(x)
  }

  lemma CharRoundTrip(c: char)
    requires CharToSeptet(c).Some?
    ensures SeptetToChar(CharToSeptet(c).value) == c && Encodes(CharToSeptet(c).value)
  {
  }

  function Septets(text: string): (s: seq<septet>)
    requires InAlphabet(text)
    ensures |s| == |text|
  {
    seq(|text|, i requires 0 <= i < |text| => CharToSeptet(text[i]).value)
  }

  function Chars(s: seq<septet>): (t: string)
    ensures |t| == |s|
  {
    seq(|s|, i requires 0 <= i < |s| => SeptetToChar(s[i]))
  }

  // ---------------------------------------------------------------- encoding

  /** OR-ing septet i into octets that hold the i septets before it adds it at its own weight. */
  lemma AddSeptet(o: seq<byte>, i: nat, k: nat, off: nat, x: septet)
    requires 7 * i == 8 * k + off && off < 8 && 7 * i + 7 <= 8 * |o|
    requires Val(o, 8) < Pow2(7 * i)
    ensures k < |o| && (off > 1 ==> k + 1 < |o|)
    ensures BitOr(o[k], Shl(x, off)) < 256
    ensures off > 1 ==> BitOr(o[k + 1], Shr(x, 8 - off)) < 256
    ensures var low := o[k := BitOr(o[k], Shl(x, off))];
            Val(if off > 1 then low[k + 1 := BitOr(o[k + 1], Shr(x, 8 - off))] else low, 8)
            == Val(o, 8) + x * Pow2(7 * i)
  {
    ValSmall(o, k, off);
    SplitSeptet(o[k], x, off);
    Pow2Add(8 * k, off);
    AddTwoOctets(o, k, BitOr(o[k], Shl(x, off)), Shr(x, 8 - off), x, Pow2(off));
  }

  /** A 15-bit amount x * c, added at octet k as a low and a high octet. */
  lemma AddTwoOctets(o: seq<byte>, k: nat, lo: byte, hi: byte, x: nat, c: nat)
    requires k < |o| && lo + 256 * hi == o[k] + x * c
    requires hi != 0 || k + 1 < |o| ==> k + 1 < |o| && o[k + 1] == 0
    ensures k + 1 < |o| ==> Val(o[k := lo][k + 1 := hi], 8) == Val(o, 8) + x * (Pow2(8 * k) * c)
    ensures hi == 0 ==> Val(o[k := lo], 8) == Val(o, 8) + x * (Pow2(8 * k) * c)
  {
    var p := Pow2(8 * k);
    assert Pow2(8 * (k + 1)) == p * 256 by { Pow2Add(8 * k, 8); SmallPowers(); }
    ValUpdate(o, k, lo, 8);
    Combine(p, lo - o[k], hi, x, c);
    if k + 1 < |o| {
      ValUpdate(o[k := lo], k + 1, hi, 8);
    }
  }

  /** The octets hold exactly the septets packed so far. */
  ghost predicate Holds(o: seq<byte>, packed: seq<septet>) {
    Val(o, 8) == Val(packed, 7)
  }

  /** One iteration of the packing loop. */
  lemma PackStep(o: seq<byte>, packed: seq<septet>, k: nat, off: nat, x: septet)
    requires Holds(o, packed)
    requires 7 * |packed| == 8 * k + off && off < 8 && 7 * |packed| + 7 <= 8 * |o|
    ensures k < |o| && (off > 1 ==> k + 1 < |o|)
    ensures BitOr(o[k], Shl(x, off)) < 256
    ensures off > 1 ==> BitOr(o[k + 1], Shr(x, 8 - off)) < 256
    ensures var low: seq<byte> := o[k := BitOr(o[k], Shl(x, off))];
            Holds(if off > 1 then low[k + 1 := BitOr(o[k + 1], Shr(x, 8 - off))] else low, packed + [x])
  {
    SmallPowers();
    ValBound(packed, 7);
    AddSeptet(o, |packed|, k, off, x);
    ValSnoc(packed, x, 7);
  }

  lemma HoldsAll(o: seq<byte>, packed: seq<septet>)
    requires Holds(o, packed) && |o| == PackedLength(|packed|)
    ensures o == Pack(packed)
  {
    SmallPowers();
    DigitsOfVal(o, 8);
  }

  lemma Combine(p: nat, lo: int, hi: nat, x: nat, c: nat)
    requires lo + 256 * hi == x * c
    ensures lo * p + hi * (p * 256) == x * (p * c)
  {
    assert x * (p * c) == (x * c) * p;
    assert (lo + 256 * hi) * p == lo * p + (256 * hi) * p;
    assert (256 * hi) * p == hi * (p * 256);
  }

  lemma SplitSeptet(b: byte, x: septet, off: nat)
    requires off < 8 && b < Pow2(off)
    ensures BitOr(b, Shl(x, off)) < 256
    ensures BitOr(b, Shl(x, off)) + 256 * Shr(x, 8 - off) == b + x * Pow2(off)
    ensures off <= 1 ==> Shr(x, 8 - off) == 0
  {
    assert Pow2(off) * Pow2(8 - off) == 256 by { Pow2Add(off, 8 - off); SmallPowers(); }
    ShlIsProduct(x, off);
    ShrIsQuotient(x, 8 - off);
    SplitProduct(b, x, Pow2(off), Pow2(8 - off), off);
    if off <= 1 {
      assert Pow2(8 - off) >= 128 by { SmallPowers(); }
    }
  }

  lemma SplitProduct(b: nat, x: nat, c: nat, d: nat, off: nat)
    requires c == Pow2(off) && d > 0 && c * d == 256 && b < c
    ensures BitOr(b, Rem(x * c, 256)) < 256
    ensures BitOr(b, Rem(x * c, 256)) + 256 * Quot(x, d) == b + x * c
  {
    SplitSum(b, x, c, d);
    OrDisjoint(b, x % d, off);
  }

  lemma SplitSum(b: nat, x: nat, c: nat, d: nat)
    requires d > 0 && c * d == 256 && b < c
    ensures Rem(x * c, 256) == (x % d) * c && b + (x % d) * c < 256
    ensures (x % d) * c + 256 * Quot(x, d) == x * c
  {
    ModScale(x, c, d, 256);
    MulStep(c, b, x % d, d);
    DivMod(x, d);
    Regroup(x, c, d, Quot(x, d), Rem(x, d));
  }

  /** The result code at_gsm7_encode returns for an output buffer of `room` bytes. */
  function EncodeResult(text: string, room: nat): Gsm7Result {
    if |text| > SINGLE_MAX then ErrTooLong
    else if PackedLength(|text|) > room then ErrBufFull
    else if !InAlphabet(text) then ErrChar
    else Gsm7Ok
  }

  /** The body of the packing loop: the septet goes to bit position bitPos. */
  method PackSeptet(out: array<byte>, bitPos: nat, x: septet, ghost maxOut: nat, ghost packed: seq<septet>)
    requires maxOut <= out.Length && bitPos == 7 * |packed| && bitPos + 7 <= 8 * maxOut
    requires Holds(out[..maxOut], packed)
    modifies out
    ensures Holds(out[..maxOut], packed + [x])
    ensures forall j :: maxOut <= j < out.Length ==> out[j] == old(out[j])
  {
    var byteOff, bitOff := bitPos / 8, bitPos % 8;
    ghost var o := out[..maxOut];
    PackStep(o, packed, byteOff, bitOff, x);
    ghost var low: seq<byte> := o[byteOff := BitOr(o[byteOff], Shl(x, bitOff))];
    out[byteOff] := BitOr(out[byteOff], Shl(x, bitOff));
    assert out[..maxOut] == low;
    if bitOff > 1 && byteOff + 1 < out.Length {
      out[byteOff + 1] := BitOr(out[byteOff + 1], Shr(x, 8 - bitOff));
      assert out[..maxOut] == low[byteOff + 1 := BitOr(o[byteOff + 1], Shr(x, 8 - bitOff))];
    }
  }

  method Encode(text: CString, out: array<byte>) returns (res: Gsm7Result, outLen: nat, nChars: nat)
    modifies out
    ensures res == EncodeResult(text, out.Length)
    ensures res == Gsm7Ok ==> nChars == |text| && outLen == PackedLength(|text|) <= out.Length
    ensures res == Gsm7Ok ==> out[..outLen] == Pack(Septets(text))
    ensures res == Gsm7Ok ==> Val(out[..outLen], 8) == Val(Septets(text), 7)
    ensures res in {ErrTooLong, ErrBufFull} ==> out[..] == old(out[..])
    ensures forall k :: PackedLength(|text|) <= k < out.Length ==> out[k] == old(out[k])
  {
    outLen, nChars := 0, 0;
    var inLen := |text|;
    if inLen > 160 { return ErrTooLong, 0, 0; }
    var maxOut := (inLen * 7 + 7) / 8;
    if maxOut > out.Length { return ErrBufFull, 0, 0; }
    for k := 0 to maxOut
      invariant forall j :: 0 <= j < k ==> out[j] == 0
      invariant forall j :: maxOut <= j < out.Length ==> out[j] == old(out[j])
    {
      out[k] := 0;
    }
    ZerosHaveNoValue(out[..maxOut]);
    var bitPos := 0;
    ghost var packed: seq<septet> := [];
    for i := 0 to inLen
      invariant bitPos == 7 * i && |packed| == i
      invariant forall j :: 0 <= j < i ==> CharToSeptet(text[j]) == Some(packed[j])
      invariant Holds(out[..maxOut], packed)
      invariant forall j :: maxOut <= j < out.Length ==> out[j] == old(out[j])
    {
      var sept := CharToSeptet(text[i]);
      if sept.None? { return ErrChar, 0, 0; }
      var x := sept.value;
      PackSeptet(out, bitPos, x, maxOut, packed);
      packed := packed + [x];
      bitPos := bitPos + 7;
    }
    outLen, nChars := (bitPos + 7) / 8, inLen;
    assert packed == Septets(text);
    HoldsAll(out[..maxOut], packed);
    return Gsm7Ok, outLen, nChars;
  }

  lemma {:induction false} ZerosHaveNoValue(o: seq<byte>)
    requires forall j :: 0 <= j < |o| ==> o[j] == 0
    ensures Holds(o, [])
  {
    if o != [] {
      ZerosHaveNoValue(o[1..]);
    }
  }

  // ---------------------------------------------------------------- decoding

  /** What at_gsm7_decode computes from the octets k and k + 1. */
  function ReadSeptet(b: seq<byte>, k: nat, off: nat): septet
    requires k < |b| && off < 8
  {
    var low := Shr(b[k], off) % 128;
    if off > 1 && k + 1 < |b| then BitOr(low, Shl(b[k + 1], 8 - off) % 128) % 128 else low
  }

  lemma ReadSeptetIsDigit(b: seq<byte>, n: nat, i: nat, k: nat, off: nat)
    requires i < n && 7 * i == 8 * k + off && off < 8 && k < |b|
    ensures ReadSeptet(b, k, off) == Unpack(b, n)[i]
  {
    SeptetAt(b, n, i, k, off);
    ReadWindow(b[k], OctetAt(b, k + 1), off);
    if k + 1 >= |b| && off > 1 {
      NothingAbove(Shr(b[k], off) % 128, 8 - off);
    }
  }

  /** Past the end of the buffer there are only zeros. */
  lemma NothingAbove(low: septet, n: nat)
    ensures BitOr(low, Shl(0, n) % 128) % 128 == low
  {
    ShlIsProduct(0, n);
    assert Shl(0, n) == 0;
  }

  /** The two partial reads together yield the seven bits of the window. */
  lemma ReadWindow(b0: byte, b1: byte, off: nat)
    requires off < 8
    ensures off > 1 ==> BitOr(Shr(b0, off) % 128, Shl(b1, 8 - off) % 128) % 128 == Window(b0, b1, off)
    ensures off <= 1 ==> Shr(b0, off) % 128 == Window(b0, b1, off)
  {
    var c, d := Pow2(off), Pow2(8 - off);
    assert c * d == 256 by { Pow2Add(off, 8 - off); SmallPowers(); }
    ShrIsQuotient(b0, off);
    ShrIsQuotient(b0 + 256 * b1, off);
    ShlIsProduct(b1, 8 - off);
    SplitWindow(b0, b1, c, d);
    if off > 1 {
      assert Pow2(off - 1) * d == 128 by { Pow2Add(off - 1, 8 - off); SmallPowers(); }
      ReadTwo(Quot(b0, c), b1, d, Pow2(off - 1), 8 - off);
    } else {
      var t := if off == 0 then 2 * b1 else b1;
      assert d * b1 == 128 * t by { SmallPowers(); }
      AddMultiple(Quot(b0, c), 128, t);
    }
  }

  lemma SplitWindow(b0: byte, b1: byte, c: nat, d: nat)
    requires c > 0 && c * d == 256
    ensures Quot(b0 + 256 * b1, c) == Quot(b0, c) + d * b1
    ensures Quot(b0, c) < d
  {
    assert c * (d * b1) == (c * d) * b1;
    AddMultiple(b0, c, d * b1);
    DivSmaller(b0, c, d);
  }

  lemma ReadTwo(low: nat, b1: byte, d: nat, e: nat, n: nat)
    requires d == Pow2(n) && d * e == 128 && low < d && e > 0
    ensures BitOr(low % 128, Rem(b1 * d, 256) % 128) % 128 == (low + d * b1) % 128
  {
    ModScale(b1, d, e, 128);
    MergeHalves(low, b1 * d, Rem(b1, e), d, e, n);
    assert b1 * d == d * b1;
  }

  lemma MergeHalves(low: nat, y: nat, r: nat, d: nat, e: nat, n: nat)
    requires d == Pow2(n) && d * e == 128 && low < d && r < e && y % 128 == r * d
    ensures BitOr(low % 128, Rem(y, 256) % 128) % 128 == (low + y) % 128
  {
    Mod256(y);
    MulStep(d, low, r, e);
    OrDisjoint(low, r, n);
    ModAdd(low, y, 128);
    SmallMod(low, 128);
    SmallMod(low + r * d, 128);
  }

  lemma Mod256(y: nat)
    ensures Rem(y, 256) % 128 == y % 128
  {
  }

  method UnpackSeptet(packed: array<byte>, bitPos: nat) returns (sept: septet)
    requires bitPos / 8 < packed.Length
    ensures sept == ReadSeptet(packed[..], bitPos / 8, bitPos % 8)
  {
    var byteOff, bitOff := bitPos / 8, bitPos % 8;
    var s: nat := Shr(packed[byteOff], bitOff) % 128;
    if bitOff > 1 && byteOff + 1 < packed.Length {
      s := BitOr(s, Shl(packed[byteOff + 1], 8 - bitOff) % 128);
    }
    sept := s % 128;
  }

  method Decode(packed: array<byte>, nChars: nat, out: array<char>) returns (res: Gsm7Result)
    requires 0 < nChars < out.Length ==> 7 * (nChars - 1) / 8 < packed.Length
    modifies out
    ensures res == if out.Length < nChars + 1 then ErrBufFull else Gsm7Ok
    ensures res == ErrBufFull ==> out[..] == old(out[..])
    ensures res == Gsm7Ok ==> out[..nChars] == Chars(Unpack(packed[..], nChars)) && out[nChars] == NUL
    ensures forall k :: nChars < k < out.Length ==> out[k] == old(out[k])
  {
    if out.Length < nChars + 1 { return ErrBufFull; }
    ghost var septets := Unpack(packed[..], nChars);
    for i := 0 to nChars
      invariant forall j :: 0 <= j < i ==> out[j] == SeptetToChar(septets[j])
      invariant forall k :: nChars < k < out.Length ==> out[k] == old(out[k])
    {
      var bitPos := i * 7;
      var sept := UnpackSeptet(packed, bitPos);
      ReadSeptetIsDigit(packed[..], nChars, i, bitPos / 8, bitPos % 8);
      out[i] := SeptetToChar(sept);
    }
    out[nChars] := NUL;
    assert out[..nChars] == Chars(septets);
    return Gsm7Ok;
  }

  // ---------------------------------------------------------------- round trips

  /** The text that septets spell in the standard's table. */
  function TableText(s: seq<septet>): (t: string)
    ensures |t| == |s|
  {
    seq(|s|, i requires 0 <= i < |s| => GsmChar(s[i]))
  }

  /** Whoever reads the packed form of an accepted text by the standard's table reads that text, and
      so does the decoder. */
  lemma DecodeEncode(text: string)
    requires InAlphabet(text)
    ensures TableText(Unpack(Pack(Septets(text)), |text|)) == text
    ensures Chars(Unpack(Pack(Septets(text)), |text|)) == text
  {
    UnpackPack(Septets(text));
    forall i | 0 <= i < |text| ensures SeptetToChar(Septets(text)[i]) == text[i] == GsmChar(Septets(text)[i]) {
      CharRoundTrip(text[i]);
      AlphabetIsStandard(text[i], Septets(text)[i]);
    }
  }

  /** The decoder reads any octets by the standard's table, as far as it supports the characters. */
  lemma DecodesByTable(s: seq<septet>, i: nat)
    requires i < |s|
    ensures Chars(s)[i] == if Supported(TableText(s)[i]) then TableText(s)[i] else '?'
  {
    AlphabetIsStandard(GsmChar(s[i]), s[i]);
  }

  /** The character has a position in the standard's table and is supported. */
  ghost predicate Encodable(c: char) {
    Supported(c) && exists x: septet :: GsmChar(x) == c
  }

  lemma EncodableIsEncoded(c: char)
    ensures CharToSeptet(c).Some? <==> Encodable(c)
  {
    if CharToSeptet(c).Some? {
      AlphabetIsStandard(c, CharToSeptet(c).value);
    } else if Encodable(c) {
      var x: septet :| GsmChar(x) == c;
      AlphabetIsStandard(c, x);
    }
  }

  /** A text is encoded exactly when it has at most 160 characters, its seven bits each fit the buffer,
      and every character is in the alphabet and supported; the result code names the first of these
      that fails. */
  lemma EncodeAccepts(text: string, room: nat)
    ensures var all := forall i :: 0 <= i < |text| ==> Encodable(text[i]);
            EncodeResult(text, room)
            == if |text| > 160 then ErrTooLong
               else if 7 * |text| > 8 * room then ErrBufFull
               else if !all then ErrChar else Gsm7Ok
  {
    forall i | 0 <= i < |text| ensures CharToSeptet(text[i]).Some? <==> Encodable(text[i]) {
      EncodableIsEncoded(text[i]);
    }
  }

  /** Encoding what was decoded from b restores b exactly when every septet of b is one the
      encoder produces and the pad bits of b are zero. */
  lemma EncodeDecode(b: seq<byte>, n: nat)
    requires |b| == PackedLength(n)
    ensures var text := Chars(Unpack(b, n));
            && InAlphabet(text)
            && (Pack(Septets(text)) == b
                <==> Val(b, 8) < Pow2(7 * n) && forall i :: 0 <= i < n ==> Encodes(Unpack(b, n)[i]))
  {
    var s := Unpack(b, n);
    var text := Chars(s);
    forall i | 0 <= i < n ensures CharToSeptet(text[i]).Some? {
      assert text[i] == SeptetToChar(s[i]);
    }
    PackUnpack(b, n);
    if Pack(Septets(text)) == b {
      UnpackPack(Septets(text));
      assert Septets(text) == s;
      forall i | 0 <= i < n ensures Encodes(s[i]) {
        assert Septets(text)[i] == CharToSeptet(text[i]).value;
      }
      PackPreservesValue(s);
    } else if forall i :: 0 <= i < n ==> Encodes(s[i]) {
      assert Septets(text) == s;
    }
  }
}
