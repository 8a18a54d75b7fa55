/** Sending SMS through the engine (src/at_gsm.c): one message as a PDU, or a long text in parts. */
module SmsSend {
  import opened Common
  import opened Fmt
  import opened Packing
  import opened Gsm7
  import opened Sms
  import opened EngineTypes
  import opened EngineSpec
  import opened Engine

  const CONCAT_MAX := 153

  // ---------------------------------------------------------------- what is sent

  /** The octets up to and including the data coding scheme. */
  function Header(smsc: Option<CString>, first: byte, number: CString): seq<byte>
    requires |AfterPlus(number)| <= 20
  {
    SmscField(smsc) + [first, 0x00, |AfterPlus(number)| as byte] + EncodedAddress(number) + [0x00, 0x00]
  }

  lemma HeaderTpdu(smsc: Option<CString>, number: CString, text: CString)
    requires |AfterPlus(number)| <= 20 && EncodeResult(text, 140) == Gsm7Ok
    ensures Header(smsc, 0x01, number) + [|text| as byte] + Pack(Septets(text)) == SmscField(smsc) + Tpdu(number, text)
  {
  }

  function LengthCommand(n: nat): CString {
    assert forall i :: 0 <= i < |Unsigned(n)| ==> IsDigit(Unsigned(n)[i]) by { UnsignedIsNumber(n); }
    "AT+CMGS=" + Unsigned(n)
  }

  /** The command for a PDU: its length after the SMSC field, its octets in hexadecimal as the body,
      to be sent after the prompt. */
  function PduDesc(c: Config, smsc: Option<CString>, pdu: seq<byte>, cb: Option<Handler>): Desc
    requires |pdu| >= |SmscField(smsc)|
  {
    Desc(Some(LengthCommand(|pdu| - |SmscField(smsc)|)), Some(HexOf(pdu)), c.promptTimeout, true, cb)
  }

  // ---------------------------------------------------------------- filling the PDU buffer

  method PutByte(pdu: array<byte>, p: nat, b: byte) returns (q: nat)
    requires p < pdu.Length
    modifies pdu
    ensures q == p + 1 && pdu[..q] == old(pdu[..p]) + [b]
  {
    pdu[p] := b;
    q := p + 1;
    assert pdu[..p] == old(pdu[..p]);
  }

  /** memcpy(&pdu[p], src, n) */
  method PutBytes(pdu: array<byte>, p: nat, src: array<byte>, n: nat) returns (q: nat)
    requires n <= src.Length && p + n <= pdu.Length && src != pdu
    modifies pdu
    ensures q == p + n && pdu[..q] == old(pdu[..p]) + src[..n]
  {
    for i := 0 to n
      invariant pdu[..p + i] == old(pdu[..p]) + src[..i]
    {
      pdu[p + i] := src[i];
      assert pdu[..p + i + 1] == pdu[..p + i] + [src[i]];
    }
    q := p + n;
  }

  /** SMSC field, first octet, message reference, destination, PID and DCS. */
  method PutHeader(pdu: array<byte>, smsc: Option<CString>, first: byte, number: CString) returns (ok: bool, p: nat)
    requires pdu.Length >= 60
    modifies pdu
    ensures ok <==> |AfterPlus(number)| <= 20
    ensures ok ==> p <= 30 && pdu[..p] == Header(smsc, first, number)
  {
    p := PutSmsc(pdu, smsc);
    p := PutByte(pdu, p, first);
    p := PutByte(pdu, p, 0x00);
    if |AfterPlus(number)| > 20 { return false, p; }
    ghost var front := pdu[..p];
    p := PutDest(pdu, p, number);
    ghost var dest := pdu[..p];
    p := PutByte(pdu, p, 0x00);
    p := PutByte(pdu, p, 0x00);
    assert front == SmscField(smsc) + [first, 0x00];
    assert dest == front + ([|AfterPlus(number)| as byte] + EncodedAddress(number));
    assert pdu[..p] == dest + [0x00, 0x00];
    HeaderJoin(smsc, first, number);
    return true, p;
  }

  lemma HeaderJoin(smsc: Option<CString>, first: byte, number: CString)
    requires |AfterPlus(number)| <= 20
    ensures SmscField(smsc) + [first, 0x00] + ([|AfterPlus(number)| as byte] + EncodedAddress(number)) + [0x00, 0x00]
            == Header(smsc, first, number)
  {
  }

  method PutDest(pdu: array<byte>, p0: nat, number: CString) returns (p: nat)
    requires p0 + 12 <= pdu.Length && |AfterPlus(number)| <= 20
    modifies pdu
    ensures p <= p0 + 12
    ensures pdu[..p] == old(pdu[..p0]) + ([|AfterPlus(number)| as byte] + EncodedAddress(number))
  {
    p := PutByte(pdu, p0, |AfterPlus(number)|);
    var da := new byte[14];
    var daLen := EncodeAddress(number, da);
    p := PutBytes(pdu, p, da, daLen);
  }

  method PutSmsc(pdu: array<byte>, smsc: Option<CString>) returns (p: nat)
    requires pdu.Length >= 60
    modifies pdu
    ensures p <= 12 && pdu[..p] == SmscField(smsc)
  {
    assert pdu[..0] == [];
    if smsc.None? || smsc.value == "" {
      p := PutByte(pdu, 0, 0x00);
    } else {
      var addr := new byte[14];
      var n := EncodeAddress(smsc.value, addr);
      p := PutByte(pdu, 0, n);
      p := PutBytes(pdu, p, addr, n);
    }
  }

  /** Hex-encode the PDU, print its length, and queue the command. */
  method SendPdu(e: Engine, smsc: Option<CString>, pdu: array<byte>, p: nat, cb: Option<Handler>)
    returns (r: Status)
    requires e.Valid()
    requires p <= pdu.Length < 256 && SmscField(smsc) <= pdu[..p]
    modifies e`qHead, e`qCount, e`commands, e`log, e.queue
    ensures e.Valid()
    ensures var d := PduDesc(e.c, smsc, old(pdu[..p]), cb);
            && r == SendCheck(e.c, d, old(e.qCount))
            && e.Abs() == Enqueue(e.c, old(e.Abs()), d)
  {
    var d := DescribePdu(e.c, smsc, pdu, p, cb);
    r := e.Send(d);
  }

  method DescribePdu(c: Config, smsc: Option<CString>, pdu: array<byte>, p: nat, cb: Option<Handler>)
    returns (d: Desc)
    requires p <= pdu.Length < 256 && SmscField(smsc) <= pdu[..p]
    ensures d == PduDesc(c, smsc, pdu[..p], cb)
  {
    var prefix := SmscLength(smsc, pdu, p);
    var body := HexBody(pdu, p);
    var text := PrintCommand(p - prefix);
    d := Desc(Some(text), Some(body), c.promptTimeout, true, cb);
  }

  /** The SMSC field is as long as its first octet says. */
  method SmscLength(smsc: Option<CString>, pdu: array<byte>, p: nat) returns (n: nat)
    requires p <= pdu.Length && SmscField(smsc) <= pdu[..p]
    ensures n == |SmscField(smsc)|
  {
    assert pdu[..p][0] == SmscField(smsc)[0];
    n := 1 + pdu[0] as nat;
  }

  method HexBody(pdu: array<byte>, p: nat) returns (body: CString)
    requires p <= pdu.Length
    ensures body == HexOf(pdu[..p])
  {
    var hex := new char[2 * pdu.Length + 1];
    var n := HexEncode(pdu, p, hex);
    body := hex[..n];
  }

  /** The command text in its 24-byte buffer; it always fits. */
  method PrintCommand(n: uint32) returns (text: CString)
    requires n < 256
    ensures text == LengthCommand(n)
  {
    PrintedCommand(n);
    var cmd := new char[24];
    var ok, printed := Build([Str("AT+CMGS="), U32(n)], cmd);
    text := printed;
  }

  lemma PrintedCommand(n: uint32)
    requires n < 256
    ensures Printed([Str("AT+CMGS="), U32(n)]) == LengthCommand(n) && |LengthCommand(n)| < 24
  {
    var ps := [Str("AT+CMGS="), U32(n)];
    assert ps[..1] == [Str("AT+CMGS=")] && [Str("AT+CMGS=")][..0] == [];
    assert Printed([Str("AT+CMGS=")]) == "" + "AT+CMGS=" == "AT+CMGS=";
    assert Printed(ps) == Printed(ps[..1]) + Text(ps[1]);
    ShortNumeral(n);
  }

  lemma ShortNumeral(n: nat)
    requires n < 256
    ensures |Unsigned(n)| <= 3
  {
    if n > 0 {
      assert |Numeral(n)| == 1 + |Numeral(n / 10)|;
      if n / 10 > 0 {
        assert |Numeral(n / 10)| == 1 + |Numeral(n / 10 / 10)|;
        if n / 10 / 10 > 0 {
          assert |Numeral(n / 10 / 10)| == 1 + |Numeral(n / 10 / 10 / 10)|;
        }
      }
    }
  }

  // ---------------------------------------------------------------- a single message

  /** The arguments for which a message is built. */
  predicate Buildable(number: Option<CString>, text: Option<CString>) {
    && number.Some? && text.Some? && ValidNumber(number.value)
    && |AfterPlus(number.value)| <= 20 && EncodeResult(text.value, 140) == Gsm7Ok
  }

  function SubmitDesc(c: Config, smsc: Option<CString>, number: CString, text: CString, cb: Option<Handler>): Desc
    requires |AfterPlus(number)| <= 20 && EncodeResult(text, 140) == Gsm7Ok
  {
    PduDesc(c, smsc, SmscField(smsc) + Tpdu(number, text), cb)
  }

  method CmgsPdu(e: Engine, smsc: Option<CString>, number: Option<CString>, text: Option<CString>, cb: Option<Handler>)
    returns (r: Status)
    requires e.Valid()
    modifies e`qHead, e`qCount, e`commands, e`log, e.queue
    ensures e.Valid()
    ensures !Buildable(number, text) ==> r == ErrParam && e.Abs() == old(e.Abs())
    ensures Buildable(number, text) ==>
              var d := SubmitDesc(e.c, smsc, number.value, text.value, cb);
              r == SendCheck(e.c, d, old(e.qCount)) && e.Abs() == Enqueue(e.c, old(e.Abs()), d)
  {
    if number.None? || text.None? { return ErrParam; }
    var valid := ValidatePhoneNumber(number);
    if !valid { return ErrParam; }
    var pdu := new byte[200];
    var ok, p := BuildSubmit(pdu, smsc, number.value, text.value);
    if !ok { return ErrParam; }
    r := SendPdu(e, smsc, pdu, p, cb);
  }

  method BuildSubmit(pdu: array<byte>, smsc: Option<CString>, number: CString, text: CString) returns (ok: bool, p: nat)
    requires pdu.Length == 200
    modifies pdu
    ensures ok <==> |AfterPlus(number)| <= 20 && EncodeResult(text, 140) == Gsm7Ok
    ensures ok ==> p <= pdu.Length && pdu[..p] == SmscField(smsc) + Tpdu(number, text)
  {
    ok, p := PutHeader(pdu, smsc, 0x01, number);
    if !ok { return; }
    ghost var header := pdu[..p];
    var ud := new byte[140];
    var grc, udLen, nChars := Encode(text, ud);
    if grc != Gsm7Ok { return false, p; }
    p := PutByte(pdu, p, nChars);
    p := PutBytes(pdu, p, ud, udLen);
    assert pdu[..p] == header + [|text| as byte] + Pack(Septets(text));
    HeaderTpdu(smsc, number, text);
  }

  /** An SMS command to be sent with the prompt, its timeout and the given callback, whose body
      un-hexes to the octets and whose text announces their number after the SMSC field. */
  ghost predicate Submits(c: Config, d: Desc, cb: Option<Handler>, octets: seq<byte>) {
    && d.sms && d.timeout == c.promptTimeout && d.cb == cb
    && d.cmd.Some? && d.body.Some? && UnHex(d.body.value) == Some(octets) && CountsOctets(d.cmd.value, octets)
  }

  /** It conveys the message m. */
  ghost predicate Conveys(c: Config, d: Desc, cb: Option<Handler>, m: Submit) {
    exists octets :: Submits(c, d, cb, octets) && ParseSubmit(octets) == Some(m)
  }

  ghost predicate CountsOctets(cmd: CString, octets: seq<byte>) {
    && octets != [] && 1 + (octets[0] as nat) <= |octets|
    && cmd == "AT+CMGS=" + Unsigned(|octets| - 1 - (octets[0] as nat))
  }

  lemma CommandCounts(smsc: Option<CString>, rest: seq<byte>)
    ensures CountsOctets(LengthCommand(|SmscField(smsc) + rest| - |SmscField(smsc)|), SmscField(smsc) + rest)
  {
    assert (SmscField(smsc) + rest)[0] == SmscField(smsc)[0];
  }

  lemma PduSubmits(c: Config, smsc: Option<CString>, rest: seq<byte>, cb: Option<Handler>)
    ensures Submits(c, PduDesc(c, smsc, SmscField(smsc) + rest, cb), cb, SmscField(smsc) + rest)
  {
    HexRoundTrip(SmscField(smsc) + rest);
    CommandCounts(smsc, rest);
  }

  /** What the modem receives for a message conveys service centre, destination and text. */
  lemma MessageOnTheWire(c: Config, smsc: Option<CString>, number: CString, text: CString, cb: Option<Handler>)
    requires |AfterPlus(number)| <= 20 && EncodeResult(text, 140) == Gsm7Ok
    requires AllFaithful(AfterPlus(number))
    requires smsc.Some? ==> |AfterPlus(smsc.value)| <= 20 && AllFaithful(AfterPlus(smsc.value))
    ensures Conveys(c, SubmitDesc(c, smsc, number, text, cb), cb,
                    Submit(if smsc.None? || smsc.value == "" then None else Some(International(AfterPlus(smsc.value))),
                           0, International(AfterPlus(number)), 0, 0, text))
  {
    PduSubmits(c, smsc, Tpdu(number, text), cb);
    SubmitRoundTrip(smsc, number, text);
  }

  /** A message is built exactly when there are a number and a text, the number has at most twenty
      characters after a leading plus and only dialling characters, and the text at most 160
      characters, all of the alphabet. */
  lemma BuildableExactly(number: Option<CString>, text: Option<CString>)
    ensures Buildable(number, text)
            <==> && number.Some? && text.Some? && number.value != ""
                 && (forall i :: 0 <= i < |number.value| ==> number.value[i] in "0123456789+*#,;")
                 && |AfterPlus(number.value)| <= 20 && |text.value| <= 160
                 && forall i :: 0 <= i < |text.value| ==> Encodable(text.value[i])
  {
    if number.Some? && text.Some? {
      forall i | 0 <= i < |number.value| ensures NumberChar(number.value[i]) <==> number.value[i] in "0123456789+*#,;" {
        NumberCharacters(number.value[i]);
      }
      EncodeAccepts(text.value, 140);
    }
  }

  // ---------------------------------------------------------------- parts of a long text

  /** at_gsm_part_count: the count is an 8-bit number, zero for text outside the alphabet. */
  function PartCountOf(text: CString): (n: nat)
    ensures n < 256
  {
    if text == "" then 1
    else if !InAlphabet(text) then 0
    else if |text| <= SINGLE_MAX then 1
    else (|text| + 152) / 153 % 256
  }

  /** A text outside the alphabet has no parts, one of at most 160 characters is one part, and a longer
      one needs the least number k of parts of 153 characters that hold it, of which eight bits are
      kept. */
  lemma PartCountMeans(text: CString, k: nat)
    requires 153 * (k - 1) < |text| <= 153 * k
    ensures var all := forall i :: 0 <= i < |text| ==> Encodable(text[i]);
            PartCountOf(text) == if !all then 0 else if |text| <= 160 then 1 else k % 256
  {
    assert (|text| + 152) / 153 == k;
    forall i | 0 <= i < |text| ensures CharToSeptet(text[i]).Some? <==> Encodable(text[i]) {
      EncodableIsEncoded(text[i]);
    }
  }

  method PartCount(text: Option<CString>) returns (n: nat)
    ensures n == if text.None? then 0 else PartCountOf(text.value)
  {
    if text.None? { return 0; }
    var len := |text.value|;
    if len == 0 { return 1; }
    for i := 0 to len
      invariant forall j :: 0 <= j < i ==> CharToSeptet(text.value[j]).Some?
    {
      if CharToSeptet(text.value[i]).None? { return 0; }
    }
    if len <= SINGLE_MAX { return 1; }
    return (len + 152) / 153 % 256;
  }

  /** The part of a text that begins at an offset. */
  function Segment(text: CString, offset: nat): (s: CString)
    requires offset <= |text|
    ensures |s| <= CONCAT_MAX
  {
    Take(text[offset..], 153)
  }

  /** The first n parts together. */
  function Joined(text: CString, n: nat): CString
    requires n > 0 ==> 153 * (n - 1) <= |text|
  {
    if n == 0 then "" else Joined(text, n - 1) + Segment(text, 153 * (n - 1))
  }

  lemma {:induction false} JoinedIsPrefix(text: CString, n: nat)
    requires n > 0 ==> 153 * (n - 1) <= |text|
    ensures Joined(text, n) == Take(text, 153 * n)
  {
    if n > 0 {
      JoinedIsPrefix(text, n - 1);
      TakeMore(text, 153 * (n - 1));
    }
  }

  lemma TakeMore(s: string, k: nat)
    requires k <= |s|
    ensures Take(s, k) + Take(s[k..], 153) == Take(s, k + 153)
  {
  }

  /** The parts are non-empty, and together they are the text exactly when it has at most 255 * 153
      characters; of a longer text the 8-bit count loses a part. */
  lemma PartsCoverText(text: CString)
    requires InAlphabet(text) && |text| > SINGLE_MAX
    ensures var n := PartCountOf(text);
            && HoldsParts(text, n)
            && (forall i :: 0 <= i < n ==> 153 * i < |text| && Segment(text, 153 * i) != "")
            && (Joined(text, n) == text <==> |text| <= 255 * CONCAT_MAX)
  {
    PartArithmetic(|text|);
    PartsCover(text, PartCountOf(text));
  }

  lemma PartsCover(text: CString, n: nat)
    requires InAlphabet(text) && n < 256 && forall i :: 0 <= i < n ==> 153 * i < |text|
    ensures HoldsParts(text, n) && forall i :: 0 <= i < n ==> Segment(text, 153 * i) != ""
    ensures Joined(text, n) == text <==> |text| <= 153 * n
  {
    if n > 0 {
      assert 153 * (n - 1) < |text|;
    }
    JoinedIsPrefix(text, n);
  }

  lemma PartArithmetic(len: nat)
    requires len > 0
    ensures var n := (len + 152) / 153 % 256;
            && (forall i :: 0 <= i < n ==> 153 * i < len)
            && (153 * n >= len <==> len <= 39015)
  {
    var full := (len + 152) / 153;
    assert 153 * (full - 1) < len <= 153 * full;
  }

  /** From the PID to the length octet of a part: the user data header comes before the length. */
  function PartHead(refId: byte, total: byte, part: byte, len: byte): seq<byte> {
    [0x00, 0x00, 0x05, 0x00, 0x03, refId, total, part, len]
  }

  /** One part of a long message after the SMSC field. */
  function PartTpdu(number: CString, refId: byte, total: byte, part: byte, seg: CString): seq<byte>
    requires |AfterPlus(number)| <= 20 && InAlphabet(seg) && |seg| <= CONCAT_MAX
  {
    [0x41, 0x00, |AfterPlus(number)| as byte] + EncodedAddress(number)
    + PartHead(refId, total, part, 7 + |seg|) + Pack(Septets(seg))
  }

  function PartOctets(smsc: Option<CString>, number: CString, refId: byte, total: byte, part: byte, seg: CString): seq<byte>
    requires |AfterPlus(number)| <= 20 && InAlphabet(seg) && |seg| <= CONCAT_MAX
  {
    SmscField(smsc) + PartTpdu(number, refId, total, part, seg)
  }

  lemma PartJoin(smsc: Option<CString>, number: CString, refId: byte, total: byte, part: byte, len: byte, ud: seq<byte>)
    requires |AfterPlus(number)| <= 20
    ensures Header(smsc, 0x41, number) + [0x05, 0x00, 0x03, refId, total, part] + [len] + ud
            == SmscField(smsc) + ([0x41, 0x00, |AfterPlus(number)| as byte] + EncodedAddress(number)
                                  + PartHead(refId, total, part, len) + ud)
  {
    var udh: seq<byte> := [0x05, 0x00, 0x03, refId, total, part];
    HeadJoin(refId, total, part, len);
    SevenJoin(SmscField(smsc), [0x41, 0x00, |AfterPlus(number)| as byte], EncodedAddress(number), [0x00, 0x00], udh, [len], ud);
  }

  lemma HeadJoin(refId: byte, total: byte, part: byte, len: byte)
    ensures [0x00, 0x00] + [0x05, 0x00, 0x03, refId, total, part] + [len] == PartHead(refId, total, part, len)
  {
  }

  lemma SevenJoin(a: seq<byte>, b: seq<byte>, d: seq<byte>, e: seq<byte>, f: seq<byte>, g: seq<byte>, h: seq<byte>)
    ensures a + b + d + e + f + g + h == a + (b + d + (e + f + g) + h)
  {
  }

  method SendConcatPart(e: Engine, smsc: Option<CString>, number: CString, segText: CString, segLen: nat,
                        refId: byte, total: byte, part: byte, cb: Option<Handler>)
    returns (r: Status)
    requires e.Valid() && segLen <= |segText|
    modifies e`qHead, e`qCount, e`commands, e`log, e.queue
    ensures e.Valid()
    ensures |AfterPlus(number)| > 20 || !InAlphabet(Take(segText[..segLen], 153)) ==>
              r == ErrParam && e.Abs() == old(e.Abs())
    ensures |AfterPlus(number)| <= 20 && InAlphabet(Take(segText[..segLen], 153)) ==>
              var d := PduDesc(e.c, smsc, PartOctets(smsc, number, refId, total, part, Take(segText[..segLen], 153)), cb);
              r == SendCheck(e.c, d, old(e.qCount)) && e.Abs() == Enqueue(e.c, old(e.Abs()), d)
  {
    var pdu := new byte[220];
    var seg: CString := Take(segText[..segLen], 153);
    var ok, p := BuildPart(pdu, smsc, number, refId, total, part, seg);
    if !ok { return ErrParam; }
    r := SendPdu(e, smsc, pdu, p, cb);
  }

  method BuildPart(pdu: array<byte>, smsc: Option<CString>, number: CString, refId: byte, total: byte, part: byte,
                   seg: CString)
    returns (ok: bool, p: nat)
    requires pdu.Length == 220 && |seg| <= CONCAT_MAX
    modifies pdu
    ensures ok <==> |AfterPlus(number)| <= 20 && InAlphabet(seg)
    ensures ok ==> p <= pdu.Length && pdu[..p] == PartOctets(smsc, number, refId, total, part, seg)
    ensures ok ==> SmscField(smsc) <= pdu[..p]
  {
    ok, p := PutHeader(pdu, smsc, 0x41, number);
    if !ok { return; }
    ghost var header := pdu[..p];
    p := PutUdh(pdu, p, refId, total, part);
    ghost var withUdh := pdu[..p];
    var ud := new byte[153];
    var grc, udLen, nChars := Encode(seg, ud);
    if grc != Gsm7Ok { return false, p; }
    p := PutByte(pdu, p, 7 + nChars);
    p := PutBytes(pdu, p, ud, udLen);
    assert withUdh == header + [0x05, 0x00, 0x03, refId, total, part];
    assert pdu[..p] == withUdh + [(7 + |seg|) as byte] + Pack(Septets(seg));
    PartJoin(smsc, number, refId, total, part, 7 + |seg|, Pack(Septets(seg)));
  }

  method PutUdh(pdu: array<byte>, p0: nat, refId: byte, total: byte, part: byte) returns (p: nat)
    requires p0 + 6 <= pdu.Length
    modifies pdu
    ensures p == p0 + 6 && pdu[..p] == old(pdu[..p0]) + [0x05, 0x00, 0x03, refId, total, part]
  {
    p := PutByte(pdu, p0, 0x05);
    p := PutByte(pdu, p, 0x00);
    p := PutByte(pdu, p, 0x03);
    p := PutByte(pdu, p, refId);
    p := PutByte(pdu, p, total);
    p := PutByte(pdu, p, part);
  }

  /** The part beginning at an offset, as queued. */
  function PartDesc(c: Config, smsc: Option<CString>, number: CString, text: CString, refId: byte, total: byte,
                    part: byte, offset: nat, cb: Option<Handler>): Desc
    requires |AfterPlus(number)| <= 20 && offset <= |text| && InAlphabet(Segment(text, offset))
  {
    PduDesc(c, smsc, PartOctets(smsc, number, refId, total, part, Segment(text, offset)), cb)
  }

  lemma SegmentInAlphabet(text: CString, offset: nat)
    requires InAlphabet(text) && offset <= |text|
    ensures InAlphabet(Segment(text, offset))
  {
    forall j | 0 <= j < |Segment(text, offset)| ensures CharToSeptet(Segment(text, offset)[j]).Some? {
      assert Segment(text, offset)[j] == text[offset + j];
    }
  }

  /** at_send for each descriptor from the i-th on, until one is refused. */
  function SendAll(c: Config, s: State, ds: seq<Desc>, i: nat): (State, Status)
    requires ConfigOk(c) && i <= |ds|
    decreases |ds| - i
  {
    if i == |ds| then (s, Ok)
    else
      var r := SendCheck(c, ds[i], |s.queue|);
      if r != Ok then (s, r) else SendAll(c, Enqueue(c, s, ds[i]), ds, i + 1)
  }

  /** The first i parts have been sent, unless the number is refused. */
  ghost predicate PartsSent(c: Config, s0: State, ds: seq<Desc>, refused: bool, i: nat, s: State)
    requires ConfigOk(c) && i <= |ds|
  {
    if refused then i == 0 && s == s0 else SendAll(c, s, ds, i) == SendAll(c, s0, ds, 0)
  }

  lemma OnePartMore(c: Config, s0: State, ds: seq<Desc>, refused: bool, i: nat, s: State, t: State, r: Status)
    requires ConfigOk(c) && i < |ds| && PartsSent(c, s0, ds, refused, i, s)
    requires if refused then r == ErrParam && t == s
             else r == SendCheck(c, ds[i], |s.queue|) && t == Enqueue(c, s, ds[i])
    ensures r == Ok ==> PartsSent(c, s0, ds, refused, i + 1, t)
    ensures r != Ok ==> if refused then t == s0 else (t, r) == SendAll(c, s0, ds, 0)
  {
  }

  lemma LastPartSent(c: Config, s0: State, ds: seq<Desc>, refused: bool, s: State)
    requires ConfigOk(c) && ds != [] && PartsSent(c, s0, ds, refused, |ds|, s)
    ensures !refused && (s, Ok) == SendAll(c, s0, ds, 0)
  {
  }

  /** A text holds n parts. */
  predicate HoldsParts(text: CString, n: nat) {
    InAlphabet(text) && n < 256 && (n > 0 ==> 153 * (n - 1) < |text|)
  }

  lemma PartInText(text: CString, n: nat, i: nat)
    requires HoldsParts(text, n) && i < n
    ensures 153 * i < |text| && InAlphabet(Segment(text, 153 * i))
  {
    SegmentInAlphabet(text, 153 * i);
  }

  function PartDescs(c: Config, smsc: Option<CString>, number: CString, text: CString, refId: byte, n: nat,
                     cb: Option<Handler>): (ds: seq<Desc>)
    requires |AfterPlus(number)| <= 20 && HoldsParts(text, n)
    ensures |ds| == n
  {
    seq(n, i requires 0 <= i < n =>
      PartInText(text, n, i);
      PartDesc(c, smsc, number, text, refId, n, i + 1, 153 * i, cb))
  }

  ghost predicate IsPart(d: Desc, c: Config, smsc: Option<CString>, number: CString, text: CString, refId: byte,
                         n: byte, i: nat, cb: Option<Handler>) {
    && i < n && 153 * i < |text| && InAlphabet(Segment(text, 153 * i))
    && (|AfterPlus(number)| <= 20 ==> d == PartDesc(c, smsc, number, text, refId, n, i + 1, 153 * i, cb))
  }

  lemma PartDescAt(c: Config, smsc: Option<CString>, number: CString, text: CString, refId: byte, n: nat,
                   cb: Option<Handler>, i: nat)
    requires |AfterPlus(number)| <= 20 && HoldsParts(text, n) && i < n
    ensures IsPart(PartDescs(c, smsc, number, text, refId, n, cb)[i], c, smsc, number, text, refId, n, i, cb)
  {
    PartInText(text, n, i);
  }

  method SendLong(e: Engine, smsc: Option<CString>, number: Option<CString>, text: Option<CString>, refId: byte,
                  cb: Option<Handler>)
    returns (r: Status)
    requires e.Valid()
    modifies e`qHead, e`qCount, e`commands, e`log, e.queue
    ensures e.Valid()
    ensures number.None? || text.None? || !ValidNumber(number.value) || PartCountOf(text.value) == 0 ==>
              r == ErrParam && e.Abs() == old(e.Abs())
    ensures number.Some? && text.Some? && ValidNumber(number.value) && PartCountOf(text.value) == 1 ==>
              if Buildable(number, text) then
                var d := SubmitDesc(e.c, smsc, number.value, text.value, cb);
                r == SendCheck(e.c, d, old(e.qCount)) && e.Abs() == Enqueue(e.c, old(e.Abs()), d)
              else r == ErrParam && e.Abs() == old(e.Abs())
    ensures number.Some? && text.Some? && ValidNumber(number.value) && PartCountOf(text.value) > 1 ==>
              if |AfterPlus(number.value)| > 20 then r == ErrParam && e.Abs() == old(e.Abs())
              else (e.Abs(), r) == SendAll(e.c, old(e.Abs()), PartDescs(e.c, smsc, number.value, text.value, refId, PartCountOf(text.value), cb), 0)
  {
    if number.None? || text.None? { return ErrParam; }
    var valid := ValidatePhoneNumber(number);
    if !valid { return ErrParam; }
    var n := PartCount(text);
    if n == 0 { return ErrParam; }
    if n == 1 {
      r := CmgsPdu(e, smsc, number, text, cb);
      return;
    }
    PartsCoverText(text.value);
    ghost var ds := if |AfterPlus(number.value)| <= 20 then PartDescs(e.c, smsc, number.value, text.value, refId, n, cb)
                    else seq(n, i => NO_DESC);
    forall i | 0 <= i < n ensures IsPart(ds[i], e.c, smsc, number.value, text.value, refId, n, i, cb) {
      if |AfterPlus(number.value)| <= 20 {
        PartDescAt(e.c, smsc, number.value, text.value, refId, n, cb, i);
      } else {
        PartInText(text.value, n, i);
      }
    }
    r := SendParts(e, smsc, number.value, text.value, refId, n, cb, ds);
  }

  ghost const NO_DESC := Desc(None, None, 0, false, None)

  /** The loop of at_gsm_send_long over the parts. */
  method SendParts(e: Engine, smsc: Option<CString>, number: CString, text: CString, refId: byte, n: byte,
                   cb: Option<Handler>, ghost ds: seq<Desc>)
    returns (r: Status)
    requires e.Valid() && |ds| == n > 0
    requires forall i :: 0 <= i < n ==> IsPart(ds[i], e.c, smsc, number, text, refId, n, i, cb)
    modifies e`qHead, e`qCount, e`commands, e`log, e.queue
    ensures e.Valid()
    ensures if |AfterPlus(number)| > 20 then r == ErrParam && e.Abs() == old(e.Abs())
            else (e.Abs(), r) == SendAll(e.c, old(e.Abs()), ds, 0)
  {
    var i := 0;
    ghost var start, refused := e.Abs(), |AfterPlus(number)| > 20;
    while i < n
      invariant 0 <= i <= n && e.Valid()
      invariant PartsSent(e.c, start, ds, refused, i, e.Abs())
    {
      var rc := SendNext(e, smsc, number, text, refId, n, i, cb, ds, start);
      if rc != Ok { return rc; }
      i := i + 1;
    }
    LastPartSent(e.c, start, ds, refused, e.Abs());
    return Ok;
  }

  /** One turn of that loop. */
  method SendNext(e: Engine, smsc: Option<CString>, number: CString, text: CString, refId: byte, n: byte,
                  i: byte, cb: Option<Handler>, ghost ds: seq<Desc>, ghost start: State)
    returns (r: Status)
    requires e.Valid() && i < |ds| && IsPart(ds[i], e.c, smsc, number, text, refId, n, i, cb)
    requires PartsSent(e.c, start, ds, |AfterPlus(number)| > 20, i, e.Abs())
    modifies e`qHead, e`qCount, e`commands, e`log, e.queue
    ensures e.Valid()
    ensures r == Ok ==> PartsSent(e.c, start, ds, |AfterPlus(number)| > 20, i + 1, e.Abs())
    ensures r != Ok ==> if |AfterPlus(number)| > 20 then r == ErrParam && e.Abs() == start
                        else (e.Abs(), r) == SendAll(e.c, start, ds, 0)
  {
    ghost var before := e.Abs();
    r := SendSegment(e, smsc, number, text, refId, n, i + 1, 153 * i, cb, ds[i]);
    OnePartMore(e.c, start, ds, |AfterPlus(number)| > 20, i, before, e.Abs(), r);
  }

  method SendSegment(e: Engine, smsc: Option<CString>, number: CString, text: CString, refId: byte, n: byte,
                     part: byte, offset: nat, cb: Option<Handler>, ghost d: Desc)
    returns (r: Status)
    requires e.Valid() && offset <= |text| && InAlphabet(Segment(text, offset))
    requires |AfterPlus(number)| <= 20 ==> d == PartDesc(e.c, smsc, number, text, refId, n, part, offset, cb)
    modifies e`qHead, e`qCount, e`commands, e`log, e.queue
    ensures e.Valid()
    ensures |AfterPlus(number)| > 20 ==> r == ErrParam && e.Abs() == old(e.Abs())
    ensures |AfterPlus(number)| <= 20 ==>
              r == SendCheck(e.c, d, old(e.qCount)) && e.Abs() == Enqueue(e.c, old(e.Abs()), d)
  {
    var segLen := |text| - offset;
    if segLen > 153 { segLen := 153; }
    SegmentTaken(text, offset, segLen);
    r := SendConcatPart(e, smsc, number, text[offset..], segLen, refId, n, part, cb);
  }

  lemma SegmentTaken(text: CString, offset: nat, segLen: nat)
    requires offset <= |text| && segLen == if |text| - offset > 153 then 153 else |text| - offset
    ensures Take(text[offset..][..segLen], 153) == Segment(text, offset)
  {
  }

  // ---------------------------------------------------------------- what a long text amounts to

  /** Sending parts enqueues them in order while there is room: all of them, or the first ones and
      the call reports BUSY. */
  lemma {:induction false} SendAllFillsQueue(c: Config, s: State, ds: seq<Desc>, i: nat)
    requires ConfigOk(c) && |s.queue| <= c.depth && i <= |ds| && AllSend(ds)
    ensures var (t, r) := SendAll(c, s, ds, i);
            var end := if |ds| - i <= c.depth - |s.queue| then |ds| else i + c.depth - |s.queue|;
            && r == (if end == |ds| then Ok else ErrBusy)
            && t.queue == s.queue + Entries(c, ds, i, end)
    decreases |ds| - i
  {
    if i < |ds| && |s.queue| < c.depth {
      SendAllFillsQueue(c, Enqueue(c, s, ds[i]), ds, i + 1);
      var end := if |ds| - i <= c.depth - |s.queue| then |ds| else i + c.depth - |s.queue|;
      EntriesGrow(c, s.queue, ds, i, end);
    }
  }

  /** The descriptors name a command. */
  predicate AllSend(ds: seq<Desc>) {
    forall i :: 0 <= i < |ds| ==> ds[i].cmd.Some? && ds[i].cmd.value != ""
  }

  /** The entries of the descriptors from i to below end. */
  function Entries(c: Config, ds: seq<Desc>, i: nat, end: nat): seq<Entry>
    requires ConfigOk(c) && AllSend(ds) && i <= end <= |ds|
    decreases end - i
  {
    if i == end then [] else [MakeEntry(c, ds[i])] + Entries(c, ds, i + 1, end)
  }

  lemma EntriesGrow(c: Config, q: seq<Entry>, ds: seq<Desc>, i: nat, end: nat)
    requires ConfigOk(c) && AllSend(ds) && i < end <= |ds|
    ensures (q + [MakeEntry(c, ds[i])]) + Entries(c, ds, i + 1, end) == q + Entries(c, ds, i, end)
  {
  }

  /** One part as its layout is read back: service centre, message reference, destination, PID and
      DCS, then reference, total and number of the part from its header, and the text. */
  datatype Part = Part(
    smsc: Option<Address>, reference: byte, dest: Address, pid: byte, dcs: byte,
    refId: byte, total: byte, number: byte, text: string)

  /** What follows the destination of a part: the header precedes the length octet. */
  function ReadPart(smsc: Option<Address>, reference: byte, dest: Address, tail: seq<byte>): Option<Part> {
    if |tail| < 9 || tail[2] != 0x05 || tail[3] != 0x00 || tail[4] != 0x03 || tail[8] < 7 then None
    else if |tail| - 9 != PackedLength(tail[8] - 7) then None
    else Some(Part(smsc, reference, dest, tail[0], tail[1], tail[5], tail[6], tail[7],
                   TableText(Unpack(tail[9..], tail[8] - 7))))
  }

  function ParsePartTpdu(t: seq<byte>, smsc: Option<Address>): Option<Part> {
    if |t| < 2 || t[0] != 0x41 then None
    else
      var dest := ParseDest(t[2..]);
      if dest.None? then None else ReadPart(smsc, t[1], dest.value.0, dest.value.1)
  }

  function ParsePart(pdu: seq<byte>): Option<Part> {
    var smsc := ParseSmsc(pdu);
    if smsc.None? then None else ParsePartTpdu(smsc.value.1, smsc.value.0)
  }

  /** A part as it should be received. */
  function PartOf(smsc: Option<Address>, dest: Address, refId: byte, total: byte, number: byte, text: string): Part {
    Part(smsc, 0, dest, 0, 0, refId, total, number, text)
  }

  /** The service centre as it is received: of more than twenty digits only the first. */
  function ReceivedSmsc(smsc: Option<CString>): Option<Address> {
    if smsc.None? || smsc.value == "" then None
    else Some(International(DecodeFilled(SemiOctets(Dialled(smsc.value)))))
  }

  lemma ReceivedFaithfully(smsc: Option<CString>)
    requires smsc.Some? && smsc.value != ""
    ensures ReceivedSmsc(smsc) == Some(Address(1, 1, AfterPlus(smsc.value)))
            <==> |AfterPlus(smsc.value)| <= 20 && AllFaithful(AfterPlus(smsc.value))
  {
    FilledRoundTrip(Dialled(smsc.value));
  }

  lemma ReceivedDigits(smsc: Option<CString>)
    requires smsc.Some? && smsc.value != "" && AllFaithful(AfterPlus(smsc.value))
    ensures ReceivedSmsc(smsc) == Some(Address(1, 1, Take(AfterPlus(smsc.value), 20)))
  {
    FilledRoundTrip(Dialled(smsc.value));
  }

  lemma ReadPartOf(smsc: Option<Address>, dest: Address, refId: byte, total: byte, part: byte, seg: CString)
    requires InAlphabet(seg) && |seg| <= CONCAT_MAX
    ensures ReadPart(smsc, 0, dest, PartHead(refId, total, part, 7 + |seg|) + Pack(Septets(seg)))
            == Some(PartOf(smsc, dest, refId, total, part, seg))
  {
    var front := PartHead(refId, total, part, 7 + |seg|);
    assert (front + Pack(Septets(seg)))[9..] == Pack(Septets(seg));
    DecodeEncode(seg);
  }

  lemma PartTail(number: CString, refId: byte, total: byte, part: byte, seg: CString)
    requires |AfterPlus(number)| <= 20 && InAlphabet(seg) && |seg| <= CONCAT_MAX
    ensures var t := PartTpdu(number, refId, total, part, seg);
            && |t| >= 2 && t[0] == 0x41 && t[1] == 0x00
            && t[2..] == [|AfterPlus(number)| as byte] + EncodedAddress(number)
                         + (PartHead(refId, total, part, 7 + |seg|) + Pack(Septets(seg)))
  {
    DropTwo(0x41, |AfterPlus(number)| as byte, EncodedAddress(number), PartHead(refId, total, part, 7 + |seg|), Pack(Septets(seg)));
  }

  lemma ParsePartOf(number: CString, refId: byte, total: byte, part: byte, seg: CString, smsc: Option<Address>)
    requires |AfterPlus(number)| <= 20 && InAlphabet(seg) && |seg| <= CONCAT_MAX
    ensures ParsePartTpdu(PartTpdu(number, refId, total, part, seg), smsc)
            == Some(PartOf(smsc, International(DecodeDigits(SemiOctets(AfterPlus(number)), |AfterPlus(number)|)),
                           refId, total, part, seg))
  {
    var tail := PartHead(refId, total, part, 7 + |seg|) + Pack(Septets(seg));
    PartTail(number, refId, total, part, seg);
    ParseDestField(number, tail);
    ReadPartOf(smsc, International(DecodeDigits(SemiOctets(AfterPlus(number)), |AfterPlus(number)|)), refId, total, part, seg);
  }

  /** Each part reads back as the shared reference and total, its own number and its segment, with
      international addresses; the destination exactly when it consists of digits and stars. */
  lemma PartRoundTrip(smsc: Option<CString>, number: CString, refId: byte, total: byte, part: byte, seg: CString)
    requires |AfterPlus(number)| <= 20 && InAlphabet(seg) && |seg| <= CONCAT_MAX
    ensures var r := ParsePart(PartOctets(smsc, number, refId, total, part, seg));
            && r.Some? && r.value == PartOf(ReceivedSmsc(smsc), r.value.dest, refId, total, part, seg)
            && r.value.dest.ton == r.value.dest.npi == 1
            && (r.value.dest == Address(1, 1, AfterPlus(number)) <==> AllFaithful(AfterPlus(number)))
  {
    ParseSmscField(smsc, PartTpdu(number, refId, total, part, seg));
    ParsePartOf(number, refId, total, part, seg, ReceivedSmsc(smsc));
    AddressRoundTrip(AfterPlus(number));
  }

  ghost predicate ConveysPart(c: Config, d: Desc, cb: Option<Handler>, m: Part) {
    exists octets :: Submits(c, d, cb, octets) && ParsePart(octets) == Some(m)
  }

  lemma PartOnTheWire(c: Config, smsc: Option<CString>, number: CString, refId: byte, total: byte, part: byte,
                      seg: CString, cb: Option<Handler>)
    requires |AfterPlus(number)| <= 20 && InAlphabet(seg) && |seg| <= CONCAT_MAX && AllFaithful(AfterPlus(number))
    ensures ConveysPart(c, PduDesc(c, smsc, PartOctets(smsc, number, refId, total, part, seg), cb), cb,
                        PartOf(ReceivedSmsc(smsc), International(AfterPlus(number)), refId, total, part, seg))
  {
    PduSubmits(c, smsc, PartTpdu(number, refId, total, part, seg), cb);
    PartRoundTrip(smsc, number, refId, total, part, seg);
  }

  /** The i-th descriptor conveys the i-th part of n. */
  ghost predicate IthPart(c: Config, d: Desc, cb: Option<Handler>, smsc: Option<Address>, dest: Address, refId: byte,
                          text: CString, n: byte, i: nat) {
    i < n && 153 * i < |text| && ConveysPart(c, d, cb, PartOf(smsc, dest, refId, n, i + 1, Segment(text, 153 * i)))
  }

  /** The parts of a text as descriptors: one shared reference and total, numbers from 1. */
  ghost predicate AllParts(c: Config, ds: seq<Desc>, cb: Option<Handler>, smsc: Option<Address>, dest: Address,
                           refId: byte, text: CString) {
    |ds| < 256 && forall i :: 0 <= i < |ds| ==> IthPart(c, ds[i], cb, smsc, dest, refId, text, |ds|, i)
  }

  lemma DescsAreParts(c: Config, smsc: Option<CString>, number: CString, text: CString, refId: byte, n: nat,
                      cb: Option<Handler>)
    requires |AfterPlus(number)| <= 20 && AllFaithful(AfterPlus(number)) && HoldsParts(text, n)
    ensures AllParts(c, PartDescs(c, smsc, number, text, refId, n, cb), cb, ReceivedSmsc(smsc),
                     International(AfterPlus(number)), refId, text)
  {
    var ds := PartDescs(c, smsc, number, text, refId, n, cb);
    forall i | 0 <= i < |ds|
      ensures IthPart(c, ds[i], cb, ReceivedSmsc(smsc), International(AfterPlus(number)), refId, text, |ds|, i)
    {
      DescIsPart(c, smsc, number, text, refId, n, cb, i);
    }
  }

  lemma DescIsPart(c: Config, smsc: Option<CString>, number: CString, text: CString, refId: byte, n: nat,
                   cb: Option<Handler>, i: nat)
    requires |AfterPlus(number)| <= 20 && AllFaithful(AfterPlus(number)) && HoldsParts(text, n) && i < n
    ensures IthPart(c, PartDescs(c, smsc, number, text, refId, n, cb)[i], cb, ReceivedSmsc(smsc),
                    International(AfterPlus(number)), refId, text, n, i)
  {
    PartInText(text, n, i);
    PartDescAt(c, smsc, number, text, refId, n, cb, i);
    PartOnTheWire(c, smsc, number, refId, n, i + 1, Segment(text, 153 * i), cb);
  }

  /** A text of at most 255 parts is sent as parts numbered from 1, all with the given reference and
      the same total, to the same international destination, whose texts make up the text. */
  lemma LongTextArrives(c: Config, smsc: Option<CString>, number: CString, text: CString, refId: byte,
                        cb: Option<Handler>)
    requires |AfterPlus(number)| <= 20 && AllFaithful(AfterPlus(number))
    requires InAlphabet(text) && SINGLE_MAX < |text| <= 255 * CONCAT_MAX
    ensures var n := PartCountOf(text);
            && n > 1 && HoldsParts(text, n) && Joined(text, n) == text
            && AllParts(c, PartDescs(c, smsc, number, text, refId, n, cb), cb, ReceivedSmsc(smsc),
                        International(AfterPlus(number)), refId, text)
  {
    PartsCoverText(text);
    DescsAreParts(c, smsc, number, text, refId, PartCountOf(text), cb);
  }

  lemma PartsAreCommands(c: Config, smsc: Option<CString>, number: CString, text: CString, refId: byte, n: nat,
                         cb: Option<Handler>)
    requires |AfterPlus(number)| <= 20 && HoldsParts(text, n)
    ensures AllSend(PartDescs(c, smsc, number, text, refId, n, cb))
  {
    var ds := PartDescs(c, smsc, number, text, refId, n, cb);
    forall i | 0 <= i < |ds| ensures ds[i].cmd.Some? && ds[i].cmd.value != "" {
      PartIsCommand(c, smsc, number, text, refId, n, cb, i);
    }
  }

  lemma PartIsCommand(c: Config, smsc: Option<CString>, number: CString, text: CString, refId: byte, n: nat,
                      cb: Option<Handler>, i: nat)
    requires |AfterPlus(number)| <= 20 && HoldsParts(text, n) && i < n
    ensures var d := PartDescs(c, smsc, number, text, refId, n, cb)[i]; d.cmd.Some? && d.cmd.value != ""
  {
    PartDescAt(c, smsc, number, text, refId, n, cb, i);
  }

  /** The call that sends the parts, to whatever number of at most twenty digits, reports OK exactly
      when there is room for all of them; otherwise it reports BUSY and the first ones are queued. */
  lemma PartsFillQueue(c: Config, s: State, smsc: Option<CString>, number: CString, text: CString, refId: byte, n: nat,
                       cb: Option<Handler>)
    requires ConfigOk(c) && |s.queue| <= c.depth && |AfterPlus(number)| <= 20 && HoldsParts(text, n)
    ensures var ds, room := PartDescs(c, smsc, number, text, refId, n, cb), c.depth - |s.queue|;
            && AllSend(ds)
            && SendAll(c, s, ds, 0).0.queue == s.queue + Entries(c, ds, 0, if n <= room then n else room)
            && SendAll(c, s, ds, 0).1 == if n <= room then Ok else ErrBusy
  {
    PartsAreCommands(c, smsc, number, text, refId, n, cb);
    SendAllFillsQueue(c, s, PartDescs(c, smsc, number, text, refId, n, cb), 0);
  }

  /** The queue keeps a message whole exactly when the octets, and the command, are fewer than the
      characters of the command buffer; the body has twice that room. */
  lemma EntryKeepsPdu(c: Config, smsc: Option<CString>, pdu: seq<byte>, cb: Option<Handler>)
    requires ConfigOk(c) && |SmscField(smsc)| <= |pdu|
    ensures var d := PduDesc(c, smsc, pdu, cb);
            var e := MakeEntry(c, d);
            && e.hasBody && e.sms
            && (e.cmd == d.cmd.value && e.body == d.body.value <==> |pdu| < c.txSize && |d.cmd.value| < c.txSize)
  {
  }

  lemma ShortCommand(n: nat)
    requires n < 256
    ensures |LengthCommand(n)| <= 11
  {
    ShortNumeral(n);
  }

  /** So buffers of 256 characters hold every message and every part. */
  lemma LongestPduFits(c: Config, smsc: Option<CString>, pdu: seq<byte>, cb: Option<Handler>)
    requires ConfigOk(c) && c.txSize >= 256 && |SmscField(smsc)| <= |pdu| <= 220
    ensures var d := PduDesc(c, smsc, pdu, cb);
            MakeEntry(c, d).cmd == d.cmd.value && MakeEntry(c, d).body == d.body.value
  {
    assert |PduDesc(c, smsc, pdu, cb).cmd.value| <= 11 by { ShortCommand(|pdu| - |SmscField(smsc)|); }
    EntryKeepsPdu(c, smsc, pdu, cb);
  }
}
