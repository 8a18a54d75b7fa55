/** SMS-SUBMIT assembly of src/at_gsm.c: semi-octet addresses, the PDU, its hexadecimal form, and an
    independent decoder after 3GPP TS 23.040. */
module Sms {
  import opened Common
  import opened Fmt
  import opened Arithmetic
  import opened Packing
  import opened Gsm7

  // ---------------------------------------------------------------- phone numbers

  predicate NumberChar(c: char) {
    '0' <= c <= '9' || c == '+' || c == '*' || c == '#' || c == ',' || c == ';'
  }

  /** Of a number nothing but digits and the five dialling characters is accepted. */
  lemma NumberCharacters(c: char)
    ensures NumberChar(c) <==> c in "0123456789+*#,;"
  {
    var all := "0123456789+*#,;";
    if '0' <= c <= '9' {
      assert all[(c - '0') as int] == c;
    } else if NumberChar(c) {
      assert all[10] == '+' && all[11] == '*' && all[12] == '#' && all[13] == ',' && all[14] == ';';
    }
  }

  /** What validate_phone_number accepts. */
  predicate ValidNumber(number: CString) {
    number != "" && forall i :: 0 <= i < |number| ==> NumberChar(number[i])
  }

  method ValidatePhoneNumber(number: Option<CString>) returns (ok: bool)
    ensures ok <==> number.Some? && ValidNumber(number.value)
  {
    if number.None? || number.value == "" { return false; }
    for i := 0 to |number.value|
      invariant forall j :: 0 <= j < i ==> NumberChar(number.value[j])
    {
      if !NumberChar(number.value[i]) { return false; }
    }
    return true;
  }

  /** The number without a leading plus. */
  function AfterPlus(number: CString): CString {
    if number != "" && number[0] == '+' then number[1..] else number
  }

  lemma OnePlusIsDropped(number: CString)
    ensures if number != "" && number[0] == '+' then number == "+" + AfterPlus(number) else number == AfterPlus(number)
  {
  }

  /** Every decimal number, with or without a plus in front, is accepted. */
  lemma OrdinaryNumberIsValid(digits: CString)
    requires digits != "" && forall i :: 0 <= i < |digits| ==> digits[i] in "0123456789"
    ensures ValidNumber(digits) && ValidNumber("+" + digits)
    ensures AfterPlus(digits) == AfterPlus("+" + digits) == digits
  {
    forall i | 0 <= i < |digits| ensures '0' <= digits[i] <= '9' {
      assert digits[i] in "0123456789";
    }
  }

  /** The part of a number that encode_address uses. */
  function Dialled(number: CString): (d: CString)
    ensures |d| <= 20
  {
    Take(AfterPlus(number), 20)
  }

  // ---------------------------------------------------------------- semi-octets

  /** (uint8_t)(c - '0') & 0x0F */
  function Nibble(c: char): (n: nat)
    ensures n < 16
  {
    (c as int - '0' as int) % 16
  }

  function SemiOctet(digits: string, i: nat): byte
    requires 2 * i < |digits|
  {
    var hi := if 2 * i + 1 < |digits| then Nibble(digits[2 * i + 1]) else 15;
    16 * hi + Nibble(digits[2 * i])
  }

  function SemiOctets(digits: string): (s: seq<byte>)
    ensures |s| == (|digits| + 1) / 2
  {
    seq((|digits| + 1) / 2, i requires 0 <= i < (|digits| + 1) / 2 => SemiOctet(digits, i))
  }

  /** Type-of-address, then the digits. */
  function EncodedAddress(number: CString): (s: seq<byte>)
    ensures 1 <= |s| <= 11
  {
    [0x91] + SemiOctets(Dialled(number))
  }

  lemma ShiftNibble(hi: nat)
    requires hi < 16
    ensures Shl(hi, 4) == 16 * hi
  {
    var p := Pow2(4);
    assert p == 16 by { SmallPowers(); }
    ShlSmall(hi, 4, p);
  }

  lemma ShlSmall(x: byte, n: nat, p: nat)
    requires p == Pow2(n) && x * p < 256
    ensures Shl(x, n) == x * p
  {
    ShlIsProduct(x, n);
    SmallMod(x * p, 256);
  }

  /** (uint8_t)((hi << 4) | lo) */
  function JoinNibbles(lo: nat, hi: nat): (b: byte)
    requires lo < 16 && hi < 16
    ensures b == 16 * hi + lo
  {
    ShiftNibble(hi);
    OrSixteen(lo, hi);
    BitOr(lo, Shl(hi, 4))
  }

  lemma OrSixteen(lo: nat, hi: nat)
    requires lo < 16
    ensures BitOr(lo, 16 * hi) == 16 * hi + lo
  {
    SmallPowers();
    OrDisjoint(lo, hi, 4);
  }

  method EncodeAddress(number: CString, buf: array<byte>) returns (n: nat)
    requires buf.Length >= 12
    modifies buf
    ensures n <= buf.Length && buf[..n] == EncodedAddress(number)
  {
    var digits := AfterPlus(number);
    var len := |digits|;
    if len > 20 { len := 20; }
    ghost var used := Dialled(number);
    buf[0] := 0x91;
    var bcdBytes := (len + 1) / 2;
    for i := 0 to bcdBytes
      invariant buf[0] == 0x91
      invariant forall j :: 0 <= j < i ==> buf[1 + j] == SemiOctet(used, j)
    {
      var lo := Nibble(digits[2 * i]);
      var hi := if 2 * i + 1 < len then Nibble(digits[2 * i + 1]) else 0x0F;
      buf[1 + i] := JoinNibbles(lo, hi);
    }
    n := 1 + bcdBytes;
    assert buf[..n] == EncodedAddress(number);
  }

  // ---------------------------------------------------------------- decoding addresses

  /** The character of a semi-octet, after 3GPP TS 23.040 section 9.1.2.3. */
  function SemiChar(n: nat): char
    requires n < 16
  {
    if n < 10 then '0' + n as char else "*#abcF"[n - 10]
  }

  function NibbleAt(octets: seq<byte>, i: nat): (n: nat)
    requires i < 2 * |octets|
    ensures n < 16
  {
    if i % 2 == 0 then octets[i / 2] % 16 else octets[i / 2] / 16
  }

  /** The first n semi-octets. */
  function DecodeDigits(octets: seq<byte>, n: nat): (s: string)
    requires n <= 2 * |octets|
    ensures |s| == n
  {
    seq(n, i requires 0 <= i < n => SemiChar(NibbleAt(octets, i)))
  }

  /** The digits of a field whose length is given in octets: a last filler is not a digit. */
  function DecodeFilled(octets: seq<byte>): string {
    var n := 2 * |octets|;
    DecodeDigits(octets, if n > 0 && NibbleAt(octets, n - 1) == 15 then n - 1 else n)
  }

  /** The characters whose semi-octet stands for themselves. */
  predicate Faithful(c: char) {
    '0' <= c <= '9' || c == '*'
  }

  predicate AllFaithful(s: string) {
    forall i :: 0 <= i < |s| ==> Faithful(s[i])
  }

  lemma SemiCharOfNibble(c: char)
    ensures SemiChar(Nibble(c)) == c <==> Faithful(c)
    ensures Faithful(c) ==> Nibble(c) < 15
  {
  }

  /** What the other dialling characters come out as. */
  lemma OtherCharacters()
    ensures SemiChar(Nibble('+')) == SemiChar(Nibble(';')) == '#' && SemiChar(Nibble('#')) == '3'
    ensures SemiChar(Nibble(',')) == 'a'
  {
    assert '+' as int == 43 && '#' as int == 35 && ',' as int == 44 && ';' as int == 59 && '0' as int == 48;
  }

  lemma NibbleOfSemi(digits: string, i: nat)
    requires i < |digits|
    ensures NibbleAt(SemiOctets(digits), i) == Nibble(digits[i])
  {
    assert SemiOctets(digits)[i / 2] == SemiOctet(digits, i / 2);
  }

  /** Decoding the semi-octets of a number gives it back exactly when it consists of digits and
      stars. */
  lemma AddressRoundTrip(digits: string)
    ensures DecodeDigits(SemiOctets(digits), |digits|) == digits <==> AllFaithful(digits)
  {
    var out := DecodeDigits(SemiOctets(digits), |digits|);
    forall i | 0 <= i < |digits| ensures out[i] == digits[i] <==> Faithful(digits[i]) {
      NibbleOfSemi(digits, i);
      SemiCharOfNibble(digits[i]);
    }
  }

  /** The same when the length has to be found from the filler. */
  lemma FilledRoundTrip(digits: string)
    ensures DecodeFilled(SemiOctets(digits)) == digits <==> AllFaithful(digits)
  {
    AddressRoundTrip(digits);
    var o, n := SemiOctets(digits), |digits|;
    if n % 2 == 1 {
      OddFiller(digits);
    } else if n > 0 {
      NibbleOfSemi(digits, n - 1);
      SemiCharOfNibble(digits[n - 1]);
      if Nibble(digits[n - 1]) == 15 {
        assert |DecodeFilled(o)| == n - 1;
        assert !Faithful(digits[n - 1]);
      }
    }
  }

  lemma OddFiller(digits: string)
    requires |digits| % 2 == 1
    ensures DecodeFilled(SemiOctets(digits)) == DecodeDigits(SemiOctets(digits), |digits|)
  {
    var o := SemiOctets(digits);
    assert o[|o| - 1] == SemiOctet(digits, |o| - 1);
    assert NibbleAt(o, 2 * |o| - 1) == 15;
  }

  // ---------------------------------------------------------------- hexadecimal

  function HexDigit(n: nat): char
    requires n < 16
  {
    "0123456789ABCDEF"[n]
  }

  function HexOf(b: seq<byte>): (s: CString)
    ensures |s| == 2 * |b|
  {
    seq(2 * |b|, i requires 0 <= i < 2 * |b| => HexDigit(if i % 2 == 0 then b[i / 2] / 16 else b[i / 2] % 16))
  }

  lemma HexSnoc(b: seq<byte>, x: byte)
    ensures HexOf(b + [x]) == HexOf(b) + [HexDigit(x / 16), HexDigit(x % 16)]
  {
  }

  /** As many octets as fit beside the terminator. */
  method HexEncode(src: array<byte>, srcLen: nat, buf: array<char>) returns (n: nat)
    requires srcLen <= src.Length && buf.Length >= 1
    modifies buf
    ensures var k := if 2 * srcLen < buf.Length then srcLen else (buf.Length - 1) / 2;
            n == 2 * k && n < buf.Length && buf[..n] == HexOf(src[..k]) && buf[n] == NUL
  {
    n := 0;
    var i := 0;
    while i < srcLen && n + 2 < buf.Length
      invariant i <= srcLen && n == 2 * i < buf.Length
      invariant buf[..n] == HexOf(src[..i])
    {
      assert Shr(src[i], 4) % 16 == src[i] / 16 by {
        ShrIsQuotient(src[i], 4);
        SmallPowers();
      }
      ghost var shown := buf[..n];
      buf[n] := HexDigit(Shr(src[i], 4) % 16);
      buf[n + 1] := HexDigit(src[i] % 16);
      HexSnoc(src[..i], src[i]);
      assert src[..i + 1] == src[..i] + [src[i]];
      assert buf[..n + 2] == shown + [buf[n], buf[n + 1]];
      n, i := n + 2, i + 1;
    }
    buf[n] := NUL;
    assert buf[..n] == HexOf(src[..i]);
  }

  function HexValue(c: char): Option<nat> {
    if '0' <= c <= '9' then Some((c - '0') as nat)
    else if 'A' <= c <= 'F' then Some((c - 'A') as nat + 10)
    else None
  }

  /** Reading hexadecimal back. */
  function UnHex(s: string): Option<seq<byte>> {
    if s == "" then Some([])
    else if |s| == 1 then None
    else
      var hi, lo, rest := HexValue(s[0]), HexValue(s[1]), UnHex(s[2..]);
      if hi.None? || lo.None? || rest.None? then None
      else
        var b: byte := 16 * hi.value + lo.value;
        Some([b] + rest.value)
  }

  lemma HexDigitValue(n: nat)
    requires n < 16
    ensures HexValue(HexDigit(n)) == Some(n)
  {
  }

  lemma {:induction false} HexRoundTrip(b: seq<byte>)
    ensures UnHex(HexOf(b)) == Some(b)
  {
    if b != [] {
      HexRoundTrip(b[1..]);
      HexFirst(b);
      UnHexFirst(HexOf(b), b[0], b[1..]);
      assert [b[0]] + b[1..] == b;
    }
  }

  lemma UnHexFirst(s: string, x: byte, rest: seq<byte>)
    requires |s| >= 2 && s[0] == HexDigit(x / 16) && s[1] == HexDigit(x % 16) && UnHex(s[2..]) == Some(rest)
    ensures UnHex(s) == Some([x] + rest)
  {
    HexDigitValue(x / 16);
    HexDigitValue(x % 16);
  }

  lemma HexFirst(b: seq<byte>)
    requires b != []
    ensures HexOf(b)[0] == HexDigit(b[0] / 16) && HexOf(b)[1] == HexDigit(b[0] % 16)
    ensures HexOf(b)[2..] == HexOf(b[1..])
  {
  }

  // ---------------------------------------------------------------- SMS-SUBMIT

  function SmscField(smsc: Option<CString>): (s: seq<byte>)
    ensures 1 <= |s| <= 12 && |s| == 1 + (s[0] as nat)
  {
    if smsc.None? || smsc.value == "" then [0]
    else
      var a := EncodedAddress(smsc.value);
      [|a| as byte] + a
  }

  /** The octets after the SMSC field. */
  function Tpdu(number: CString, text: CString): seq<byte>
    requires |AfterPlus(number)| <= 20 && EncodeResult(text, 140) == Gsm7Ok
  {
    [0x01, 0x00, |AfterPlus(number)| as byte] + EncodedAddress(number) + [0x00, 0x00, |text| as byte]
    + Pack(Septets(text))
  }

  /** An address as a receiver reads it: type of number, numbering plan and digits. */
  datatype Address = Address(ton: nat, npi: nat, digits: string)

  /** The two fields of a type-of-address octet, after 3GPP TS 23.040 section 9.1.2.5. */
  const TON_INTERNATIONAL := 1
  const NPI_E164 := 1

  /** The address with the given type octet, whose highest bit must be set. */
  function TypedAddress(octet: byte, digits: string): Option<Address> {
    if octet < 128 then None else Some(Address(octet / 16 % 8, octet % 16, digits))
  }

  function International(digits: string): Address {
    Address(TON_INTERNATIONAL, NPI_E164, digits)
  }

  /** An SMS-SUBMIT as a receiver reads it. */
  datatype Submit = Submit(
    smsc: Option<Address>, reference: byte, dest: Address, pid: byte, dcs: byte, text: string)

  /** The address field at the front of s: number of digits, type and digits. */
  function ParseDest(s: seq<byte>): Option<(Address, seq<byte>)> {
    if |s| < 2 then None
    else
      var n: nat := s[0];
      var end := 2 + (n + 1) / 2;
      if |s| < end then None
      else
        var a := TypedAddress(s[1], DecodeDigits(s[2..end], n));
        if a.None? then None else Some((a.value, s[end..]))
  }

  /** The SMSC field at the front of s: number of octets, type and digits. */
  function ParseSmsc(s: seq<byte>): Option<(Option<Address>, seq<byte>)> {
    if s == [] then None
    else
      var end: nat := 1 + (s[0] as nat);
      if |s| < end then None
      else if end == 1 then Some((None, s[1..]))
      else
        var a := TypedAddress(s[1], DecodeFilled(s[2..end]));
        if a.None? then None else Some((a, s[end..]))
  }

  /** What follows the SMSC field: reference, destination, PID, DCS and text. */
  function ParseAfterSmsc(t: seq<byte>, smsc: Option<Address>): Option<Submit> {
    if |t| < 2 || t[0] != 0x01 then None
    else
      var dest := ParseDest(t[2..]);
      if dest.None? || |dest.value.1| < 3 then None
      else
        var tail := dest.value.1;
        var ud := tail[3..];
        if |ud| != PackedLength(tail[2]) then None
        else Some(Submit(smsc, t[1], dest.value.0, tail[0], tail[1], TableText(Unpack(ud, tail[2]))))
  }

  /** After 3GPP TS 23.040 section 9.2.2.2: an SMS-SUBMIT without validity period and without user
      data header, its text in the default alphabet of 3GPP TS 23.038. */
  function ParseSubmit(pdu: seq<byte>): Option<Submit> {
    var smsc := ParseSmsc(pdu);
    if smsc.None? then None else ParseAfterSmsc(smsc.value.1, smsc.value.0)
  }

  lemma ParseSmscField(smsc: Option<CString>, rest: seq<byte>)
    ensures ParseSmsc(SmscField(smsc) + rest)
            == Some((if smsc.None? || smsc.value == "" then None
                     else Some(International(DecodeFilled(SemiOctets(Dialled(smsc.value))))), rest))
  {
    var f := SmscField(smsc);
    assert (f + rest)[|f|..] == rest;
    if smsc.Some? && smsc.value != "" {
      assert (f + rest)[2..|f|] == SemiOctets(Dialled(smsc.value));
    }
  }

  lemma ParseDestField(number: CString, rest: seq<byte>)
    requires |AfterPlus(number)| <= 20
    ensures ParseDest([|AfterPlus(number)| as byte] + EncodedAddress(number) + rest)
            == Some((International(DecodeDigits(SemiOctets(AfterPlus(number)), |AfterPlus(number)|)), rest))
  {
    var digits := AfterPlus(number);
    var o := SemiOctets(digits);
    var s := [|digits| as byte] + EncodedAddress(number) + rest;
    assert s == [|digits| as byte, 0x91] + o + rest;
    assert s[2..2 + |o|] == o && s[2 + |o|..] == rest;
  }

  lemma TpduTail(number: CString, text: CString)
    requires |AfterPlus(number)| <= 20 && EncodeResult(text, 140) == Gsm7Ok
    ensures var t := Tpdu(number, text);
            && |t| >= 2 && t[0] == 0x01 && t[1] == 0x00
            && t[2..] == [|AfterPlus(number)| as byte] + EncodedAddress(number)
                         + ([0x00, 0x00, |text| as byte] + Pack(Septets(text)))
  {
    DropTwo(0x01, |AfterPlus(number)| as byte, EncodedAddress(number), [0x00, 0x00, |text| as byte], Pack(Septets(text)));
  }

  lemma DropTwo(first: byte, len: byte, a: seq<byte>, head: seq<byte>, ud: seq<byte>)
    ensures var t := [first, 0x00, len] + a + head + ud;
            |t| >= 2 && t[0] == first && t[1] == 0x00 && t[2..] == [len] + a + (head + ud)
  {
  }

  lemma ParseTpdu(number: CString, text: CString, smsc: Option<Address>)
    requires |AfterPlus(number)| <= 20 && EncodeResult(text, 140) == Gsm7Ok
    ensures ParseAfterSmsc(Tpdu(number, text), smsc)
            == Some(Submit(smsc, 0, International(DecodeDigits(SemiOctets(AfterPlus(number)), |AfterPlus(number)|)), 0, 0, text))
  {
    var ud := Pack(Septets(text));
    var tail := [0x00, 0x00, |text| as byte] + ud;
    TpduTail(number, text);
    ParseDestField(number, tail);
    assert tail[3..] == ud;
    DecodeEncode(text);
  }

  /** Every assembled message decodes, with the text unchanged, and with international addresses. The
      destination is recovered exactly when it consists of digits and stars after an optional plus,
      and so is a service centre of at most 20 such characters. */
  lemma SubmitRoundTrip(smsc: Option<CString>, number: CString, text: CString)
    requires |AfterPlus(number)| <= 20 && EncodeResult(text, 140) == Gsm7Ok
    ensures var r := ParseSubmit(SmscField(smsc) + Tpdu(number, text));
            && r.Some? && r.value.reference == r.value.pid == r.value.dcs == 0 && r.value.text == text
            && (r.value.dest == Address(1, 1, AfterPlus(number)) <==> AllFaithful(AfterPlus(number)))
            && r.value.dest.ton == r.value.dest.npi == 1
            && (r.value.smsc.None? <==> smsc.None? || smsc.value == "")
            && (r.value.smsc.Some? ==>
                  && r.value.smsc.value.ton == r.value.smsc.value.npi == 1
                  && (r.value.smsc.value.digits == AfterPlus(smsc.value)
                      <==> |AfterPlus(smsc.value)| <= 20 && AllFaithful(AfterPlus(smsc.value))))
  {
    ParseSmscField(smsc, Tpdu(number, text));
    ParseTpdu(number, text, ParseSmsc(SmscField(smsc) + Tpdu(number, text)).value.0);
    AddressRoundTrip(AfterPlus(number));
    if smsc.Some? {
      FilledRoundTrip(Dialled(smsc.value));
    }
  }
}
