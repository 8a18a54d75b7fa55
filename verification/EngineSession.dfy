/** One command and its answer, as ITU-T V.250 frames them: sections 5.7.1 and 6.2.4. */
module EngineSession {
  import opened Common
  import opened EngineTypes
  import opened EngineSpec
  import opened EngineRuns
  import opened EngineTheorems
  import opened UrcTable
  import LineFsm

  /** The modem's answer to a command: perhaps the echo, then lines, then a final result line with
      its meaning. */
  datatype Exchange = Exchange(
    cmd: CString, echoed: bool, lines: seq<CString>, final: CString, status: Status, code: int)

  /** CR LF text CR LF, for each text. */
  function Frames(texts: seq<string>): string {
    if texts == [] then "" else Frames(texts[..|texts| - 1]) + Frame(texts[|texts| - 1])
  }

  function Frame(text: string): string {
    FrameBody(text) + [LF]
  }

  function FrameBody(text: string): string {
    [CR, LF] + text + [CR]
  }

  /** The framed texts, the final result last. */
  function Texts(x: Exchange): (t: seq<string>)
    ensures t != []
  {
    x.lines + [x.final]
  }

  /** The bytes that travel for the exchange: the echo is the command and its CR. */
  function Wire(x: Exchange): string {
    (if x.echoed then x.cmd + [CR] else "") + Frames(Texts(x))
  }

  predicate PlainText(text: string, max: nat) {
    0 < |text| < max && CR !in text && LF !in text && NUL !in text
  }

  /** The line the assembler makes of the echo: the first frame's CR ends up in it. */
  function EchoLine(x: Exchange, max: nat): string {
    LineFsm.Append(x.cmd, CR, max)
  }

  /** The lines dispatched for the exchange, in order. */
  function Expected(x: Exchange, max: nat): seq<string> {
    (if x.echoed then [EchoLine(x, max)] else []) + Texts(x)
  }

  ghost predicate PlainExchange(x: Exchange, max: nat) {
    && max >= 8
    && PlainText(x.cmd, max) && PlainText(x.final, max)
    && forall i :: 0 <= i < |x.lines| ==> PlainText(x.lines[i], max)
  }

  // ---------------------------------------------------------------- framing

  lemma {:induction false} RunText(text: string, max: nat)
    requires max >= 8 && PlainText(text, max)
    ensures LineFsm.Run(LineFsm.IDLE, text, max) == (LineFsm.Fsm(LineFsm.Data, text), [])
  {
    LineFsm.RunLine(text, max);
    UnescapePlain(text);
  }

  lemma {:induction false} UnescapePlain(s: string)
    requires CR !in s
    ensures LineFsm.Unescape(s) == s && !LineFsm.OpenCr(s)
  {
    if s != "" {
      assert s[0] != CR;
      UnescapePlain(s[1..]);
    }
  }

  /** One more byte. */
  lemma RunByte(f: LineFsm.Fsm, s: string, b: char, max: nat)
    ensures var (g, before) := LineFsm.Run(f, s, max);
            var (h, line) := LineFsm.Step(g, b, max);
            LineFsm.Run(f, s + [b], max) == (h, before + LineFsm.Lines(line))
  {
    assert (s + [b])[..|s|] == s;
  }

  lemma RunPair(f: LineFsm.Fsm, a: char, b: char, max: nat, g: LineFsm.Fsm, h: LineFsm.Fsm, out: seq<string>)
    requires LineFsm.Step(f, a, max) == (g, None)
    requires LineFsm.Step(g, b, max).0 == h && LineFsm.Lines(LineFsm.Step(g, b, max).1) == out
    ensures LineFsm.Run(f, [a, b], max) == (h, out)
  {
    RunByte(f, "", a, max);
    assert "" + [a] == [a] && [a] + [b] == [a, b];
    RunByte(f, [a], b, max);
    assert [] + out == out;
  }

  /** A frame up to its last LF leaves the text complete but not yet handed on. */
  lemma RunFrameBody(f: LineFsm.Fsm, first: seq<string>, text: string, max: nat)
    requires max >= 8 && PlainText(text, max)
    requires LineFsm.Run(f, [CR, LF], max) == (LineFsm.IDLE, first)
    ensures LineFsm.Run(f, FrameBody(text), max) == (LineFsm.Fsm(LineFsm.AfterCr, text), first)
  {
    RunText(text, max);
    LineFsm.RunConcat(f, [CR, LF], text, max);
    assert first + [] == first;
    RunByte(f, [CR, LF] + text, CR, max);
  }

  /** A frame after others: its text joins the lines with the last byte. */
  lemma RunOneMore(f: LineFsm.Fsm, before: string, d: seq<string>, text: string, max: nat)
    requires max >= 8 && PlainText(text, max)
    requires LineFsm.Run(f, before, max) == (LineFsm.IDLE, d)
    ensures LineFsm.Run(f, before + FrameBody(text), max) == (LineFsm.Fsm(LineFsm.AfterCr, text), d)
  {
    RunPair(LineFsm.IDLE, CR, LF, max, LineFsm.IDLE, LineFsm.IDLE, []);
    RunFrameBody(LineFsm.IDLE, [], text, max);
    LineFsm.RunConcat(f, before, FrameBody(text), max);
    assert d + [] == d;
  }

  lemma RunLastLf(f: LineFsm.Fsm, body: string, d: seq<string>, text: string, max: nat)
    requires LineFsm.Run(f, body, max) == (LineFsm.Fsm(LineFsm.AfterCr, text), d)
    ensures LineFsm.Run(f, body + [LF], max) == (LineFsm.IDLE, d + [text])
  {
    RunByte(f, body, LF, max);
  }

  lemma FramesSplit(texts: seq<string>)
    requires texts != []
    ensures Frames(texts) == AllButLf(texts) + [LF]
  {
    var before, body := Frames(texts[..|texts| - 1]), FrameBody(texts[|texts| - 1]);
    assert before + (body + [LF]) == (before + body) + [LF];
  }

  /** The wire up to the last LF of the frames: every text but the last has been dispatched. */
  lemma RunFramesInit(f: LineFsm.Fsm, first: seq<string>, texts: seq<string>, max: nat)
    requires max >= 8 && texts != [] && forall i :: 0 <= i < |texts| ==> PlainText(texts[i], max)
    requires LineFsm.Run(f, [CR, LF], max) == (LineFsm.IDLE, first)
    ensures LineFsm.Run(f, AllButLf(texts), max)
            == (LineFsm.Fsm(LineFsm.AfterCr, texts[|texts| - 1]), first + texts[..|texts| - 1])
    decreases |texts|, 0
  {
    var last := |texts| - 1;
    var before := Frames(texts[..last]);
    if last == 0 {
      assert before + FrameBody(texts[0]) == FrameBody(texts[0]);
      RunFrameBody(f, first, texts[0], max);
      assert first + texts[..0] == first;
    } else {
      RunFrames(f, first, texts[..last], max);
      RunOneMore(f, before, first + texts[..last], texts[last], max);
    }
  }

  lemma RunFrames(f: LineFsm.Fsm, first: seq<string>, texts: seq<string>, max: nat)
    requires max >= 8 && texts != [] && forall i :: 0 <= i < |texts| ==> PlainText(texts[i], max)
    requires LineFsm.Run(f, [CR, LF], max) == (LineFsm.IDLE, first)
    ensures LineFsm.Run(f, Frames(texts), max) == (LineFsm.IDLE, first + texts)
    decreases |texts|, 1
  {
    RunFramesInit(f, first, texts, max);
    CloseFrames(f, first, texts, max);
  }

  lemma CloseFrames(f: LineFsm.Fsm, first: seq<string>, texts: seq<string>, max: nat)
    requires texts != []
    requires LineFsm.Run(f, AllButLf(texts), max)
             == (LineFsm.Fsm(LineFsm.AfterCr, texts[|texts| - 1]), first + texts[..|texts| - 1])
    ensures LineFsm.Run(f, Frames(texts), max) == (LineFsm.IDLE, first + texts)
  {
    var last := |texts| - 1;
    RunLastLf(f, AllButLf(texts), first + texts[..last], texts[last], max);
    FramesSplit(texts);
    assert first + texts == (first + texts[..last]) + [texts[last]];
  }

  function AllButLf(texts: seq<string>): string
    requires texts != []
  {
    Frames(texts[..|texts| - 1]) + FrameBody(texts[|texts| - 1])
  }

  lemma RunEchoed(x: Exchange, max: nat)
    requires PlainExchange(x, max)
    ensures var head, f := x.cmd + [CR], LineFsm.Fsm(LineFsm.AfterCr, x.cmd);
            && LineFsm.Run(LineFsm.IDLE, head, max) == (f, [])
            && LineFsm.Run(f, [CR, LF], max) == (LineFsm.IDLE, [EchoLine(x, max)])
  {
    RunText(x.cmd, max);
    RunByte(LineFsm.IDLE, x.cmd, CR, max);
    var f, line := LineFsm.Fsm(LineFsm.AfterCr, x.cmd), EchoLine(x, max);
    RunPair(f, CR, LF, max, LineFsm.Fsm(LineFsm.Data, line), LineFsm.IDLE, [line]);
  }

  lemma WireSplit(x: Exchange)
    ensures Wire(x) == WireInit(x) + [LF]
  {
    FramesSplit(Texts(x));
  }

  lemma RunSilentWire(x: Exchange, max: nat)
    requires PlainExchange(x, max) && !x.echoed
    ensures LineFsm.Run(LineFsm.IDLE, WireInit(x), max).1 == ExpectedInit(x, max)
    ensures LineFsm.Run(LineFsm.IDLE, Wire(x), max) == (LineFsm.IDLE, Expected(x, max))
  {
    var texts := Texts(x);
    RunPair(LineFsm.IDLE, CR, LF, max, LineFsm.IDLE, LineFsm.IDLE, []);
    RunFramesInit(LineFsm.IDLE, [], texts, max);
    RunFrames(LineFsm.IDLE, [], texts, max);
    assert texts[..|texts| - 1] == x.lines;
    assert "" + Frames(texts) == Frames(texts) && "" + AllButLf(texts) == AllButLf(texts);
  }

  /** The whole wire: the expected lines, the last of them with the last byte. */
  lemma RunWire(x: Exchange, max: nat)
    requires PlainExchange(x, max)
    ensures Wire(x) == WireInit(x) + [LF]
    ensures LineFsm.Run(LineFsm.IDLE, WireInit(x), max).1 == ExpectedInit(x, max)
    ensures LineFsm.Run(LineFsm.IDLE, Wire(x), max) == (LineFsm.IDLE, Expected(x, max))
  {
    WireSplit(x);
    if x.echoed {
      RunEchoedWire(x, max);
    } else {
      RunSilentWire(x, max);
    }
  }

  lemma RunEchoedWire(x: Exchange, max: nat)
    requires PlainExchange(x, max) && x.echoed
    ensures LineFsm.Run(LineFsm.IDLE, WireInit(x), max).1 == ExpectedInit(x, max)
    ensures LineFsm.Run(LineFsm.IDLE, Wire(x), max) == (LineFsm.IDLE, Expected(x, max))
  {
    var texts := Texts(x);
    var head, f, echo := x.cmd + [CR], LineFsm.Fsm(LineFsm.AfterCr, x.cmd), [EchoLine(x, max)];
    RunEchoed(x, max);
    RunFramesInit(f, echo, texts, max);
    RunFrames(f, echo, texts, max);
    LineFsm.RunConcat(LineFsm.IDLE, head, Frames(texts), max);
    LineFsm.RunConcat(LineFsm.IDLE, head, AllButLf(texts), max);
    assert texts[..|texts| - 1] == x.lines;
    assert [] + (echo + x.lines) == echo + x.lines;
    assert [] + (echo + texts) == echo + texts;
  }

  function WireInit(x: Exchange): string {
    (if x.echoed then x.cmd + [CR] else "") + AllButLf(Texts(x))
  }

  function ExpectedInit(x: Exchange, max: nat): seq<string> {
    (if x.echoed then [EchoLine(x, max)] else []) + x.lines
  }

  lemma RunInitPrefix(x: Exchange, max: nat, k: nat)
    requires PlainExchange(x, max) && k <= |WireInit(x)|
    ensures LineFsm.Run(LineFsm.IDLE, WireInit(x)[..k], max).1 <= ExpectedInit(x, max)
  {
    RunWire(x, max);
    var init := WireInit(x);
    assert init == init[..k] + init[k..];
    LineFsm.RunConcat(LineFsm.IDLE, init[..k], init[k..], max);
  }

  /** After k bytes the lines dispatched are a prefix of the expected ones, all of them only when
      every byte is in. */
  lemma RunWirePrefix(x: Exchange, max: nat, k: nat)
    requires PlainExchange(x, max) && k <= |Wire(x)|
    ensures var done, e := LineFsm.Run(LineFsm.IDLE, Wire(x)[..k], max).1, Expected(x, max);
            done <= e && (done == e <==> k == |Wire(x)|)
  {
    RunWire(x, max);
    if k < |Wire(x)| {
      WireSplit(x);
      assert Wire(x)[..k] == WireInit(x)[..k];
      RunInitPrefix(x, max, k);
      assert Expected(x, max) == ExpectedInit(x, max) + [x.final];
    } else {
      assert Wire(x)[..k] == Wire(x);
    }
  }

  // ---------------------------------------------------------------- the engine during an exchange

  /** An exchange as the line assembler sees it: the bytes, and the lines they make. */
  datatype Talk = Talk(
    bytes: string, echo: seq<string>, lines: seq<CString>, final: CString, status: Status, code: int)

  function TalkLines(k: Talk): seq<string> {
    k.echo + k.lines + [k.final]
  }

  /** The lines of the talk come in order, the last one with the last byte. */
  ghost predicate Transcript(k: Talk, max: nat) {
    forall n :: 0 <= n <= |k.bytes| ==> Prefixed(k, max, n)
  }

  ghost predicate Prefixed(k: Talk, max: nat, n: nat)
    requires n <= |k.bytes|
  {
    var done := LineFsm.Run(LineFsm.IDLE, k.bytes[..n], max).1;
    done <= TalkLines(k) && (|done| == |TalkLines(k)| <==> n == |k.bytes|)
  }

  function TalkOf(x: Exchange, max: nat): Talk {
    Talk(Wire(x), if x.echoed then [EchoLine(x, max)] else [], x.lines, x.final, x.status, x.code)
  }

  lemma TalkTranscript(x: Exchange, max: nat)
    requires PlainExchange(x, max)
    ensures Transcript(TalkOf(x, max), max)
  {
    var k := TalkOf(x, max);
    assert TalkLines(k) == Expected(x, max);
    forall n | 0 <= n <= |k.bytes| ensures Prefixed(k, max, n) {
      RunWirePrefix(x, max, n);
    }
  }

  /** A response line: no final result, no prompt, and no URC. */
  predicate Ordinary(urcs: Slots, line: CString) {
    !FinalText(line) && !("> " <= line) && FindMatch(urcs, line) == |urcs|
  }

  /** The engine has just transmitted the command that the talk answers. */
  ghost predicate Listening(c: Config, s: State, k: Talk) {
    && Inv(c, s) && s.mode == Waiting
    && s.rx == "" && s.fsm == LineFsm.IDLE && s.pool == []
    && s.echoArmed == c.echoCancel
    && Transcript(k, c.lineMax)
    && Verdict(k.final, k.status, k.code)
    && (forall i :: 0 <= i < |k.lines| ==> Ordinary(s.urcs, k.lines[i]))
    && EchoRecognised(c, s, k)
  }

  /** An echo is recognised, and when there is none no line is taken for it. */
  ghost predicate EchoRecognised(c: Config, s: State, k: Talk) {
    && |k.echo| <= 1
    && (k.echo != [] ==> c.echoCancel && s.echo <= CStr(k.echo[0]))
    && (k.echo == [] && c.echoCancel ==>
          !(s.echo <= k.final) && forall i :: 0 <= i < |k.lines| ==> !(s.echo <= k.lines[i]))
  }

  function Answer(c: Config, k: Talk): Response {
    Response(k.status, k.code, Take(k.lines, c.respMax))
  }

  /** Nothing is reported from position n of the record on. */
  ghost predicate NoneCompleted(log: seq<Event>, n: nat) {
    n <= |log| && forall i :: n <= i < |log| ==> !log[i].Completed?
  }

  /** The first thing reported from position n of the record on is e. */
  ghost predicate CompletedFirst(log: seq<Event>, n: nat, e: Event) {
    exists i :: n <= i < |log| && log[i] == e && NoneCompleted(log[..i], n)
  }

  /** n bytes of the talk have been processed and given the lines `done`, f have been fed and t
      milliseconds have passed. */
  ghost predicate Midway(c: Config, s0: State, k: Talk, s: State, done: seq<string>, n: nat, f: nat, t: nat) {
    && Inv(c, s) && s.mode == Waiting
    && s0.queue != [] && s.queue[0] == s0.queue[0] && s.urcs == s0.urcs && s.echo == s0.echo
    && s.timer + t == s0.timer && s.timer > 0
    && n <= f <= |k.bytes| && n < |k.bytes| && s.rx == k.bytes[n..f]
    && NoneCompleted(s.log, |s0.log|)
    && LineFsm.Run(LineFsm.IDLE, k.bytes[..n], c.lineMax) == (s.fsm, done)
    && s.pool == Take(Body(k, done), c.respMax)
    && s.echoArmed == (c.echoCancel && (done == [] || k.echo == []))
  }

  /** The response lines among the lines dispatched so far. */
  function Body(k: Talk, done: seq<string>): seq<string> {
    if |k.echo| <= |done| then done[|k.echo|..] else []
  }

  ghost predicate Answered(c: Config, s0: State, k: Talk, s: State)
    requires s0.queue != []
  {
    Inv(c, s) && s.rx == "" && CompletedFirst(s.log, |s0.log|, Completed(s0.queue[0], Answer(c, k)))
  }

  // ---------------------------------------------------------------- one step of an exchange

  /** The next byte of the talk: the assembler moves on, and a line it ends is the next expected. */
  lemma NextByte(k: Talk, max: nat, fsm: LineFsm.Fsm, done: seq<string>, n: nat)
    requires Transcript(k, max) && n < |k.bytes| && LineFsm.Run(LineFsm.IDLE, k.bytes[..n], max) == (fsm, done)
    ensures var (g, line) := LineFsm.Step(fsm, k.bytes[n], max);
            && LineFsm.Run(LineFsm.IDLE, k.bytes[..n + 1], max) == (g, done + LineFsm.Lines(line))
            && (line.None? ==> n + 1 < |k.bytes|)
            && (line.Some? ==> |done| < |TalkLines(k)| && done <= TalkLines(k) && line.value == TalkLines(k)[|done|]
                               && (|done| + 1 == |TalkLines(k)| <==> n + 1 == |k.bytes|))
  {
    assert k.bytes[..n + 1] == k.bytes[..n] + [k.bytes[n]];
    RunByte(LineFsm.IDLE, k.bytes[..n], k.bytes[n], max);
    assert Prefixed(k, max, n) && Prefixed(k, max, n + 1);
    var line := LineFsm.Step(fsm, k.bytes[n], max).1;
    if line.Some? {
      assert (done + [line.value])[|done|] == line.value;
    }
  }

  /** Which line of the talk comes after `done`. */
  lemma LineAfter(k: Talk, done: seq<string>)
    requires |done| < |TalkLines(k)| && done <= TalkLines(k) && |k.echo| <= 1
    ensures var line := TalkLines(k)[|done|];
            if |done| < |k.echo| then line == k.echo[0] && done == []
            else
              var m := |done| - |k.echo|;
              && Body(k, done) == k.lines[..m] && m <= |k.lines|
              && line == (if m < |k.lines| then k.lines[m] else k.final)
              && (m == |k.lines| <==> |done| + 1 == |TalkLines(k)|)
  {
  }

  /** The state in which the line that the next byte ends is dispatched. */
  function AtLine(s: State): State
    requires s.rx != ""
  {
    s.(rx := s.rx[1..], log := s.log + [Received(s.rx[0])])
  }

  lemma NoneCompletedSnoc(log: seq<Event>, n: nat, e: Event)
    requires NoneCompleted(log, n) && !e.Completed?
    ensures NoneCompleted(log + [e], n)
  {
  }

  /** A byte that ends no line. */
  lemma PopSilent(c: Config, s0: State, k: Talk, s: State, done: seq<string>, n: nat, f: nat, t: nat)
    requires Midway(c, s0, k, s, done, n, f, t) && n < f && Transcript(k, c.lineMax)
    requires LineFsm.Step(s.fsm, k.bytes[n], c.lineMax).1.None?
    ensures Midway(c, s0, k, PopByte(c, s), done, n + 1, f, t)
  {
    PopKeepsInv(c, s);
    NextByte(k, c.lineMax, s.fsm, done, n);
    assert done + [] == done;
    NoneCompletedSnoc(s.log, |s0.log|, Received(s.rx[0]));
  }

  lemma EchoClassified(c: Config, s: State, line: string)
    requires s.mode == Waiting && c.echoCancel && s.echoArmed && s.echo <= CStr(line)
    ensures Classify(c, s, line) == Echo
  {
  }

  /** A byte that ends the echo. */
  lemma PopEcho(c: Config, s0: State, k: Talk, s: State, line: string, n: nat, f: nat, t: nat)
    requires Midway(c, s0, k, s, [], n, f, t) && n < f && Transcript(k, c.lineMax) && EchoRecognised(c, s0, k)
    requires LineFsm.Step(s.fsm, k.bytes[n], c.lineMax).1 == Some(line) && k.echo == [line]
    requires n + 1 < |k.bytes|
    ensures Midway(c, s0, k, PopByte(c, s), [line], n + 1, f, t)
  {
    PopKeepsInv(c, s);
    NextByte(k, c.lineMax, s.fsm, [], n);
    assert [] + [line] == [line];
    var at := AtLine(s);
    EchoClassified(c, at, line);
    assert Body(k, [line]) == [];
    NoneCompletedSnoc(s.log, |s0.log|, Received(s.rx[0]));
    NoneCompletedSnoc(at.log, |s0.log|, Line(line, Echo));
    PopOfEcho(c, s, line);
    assert k.bytes[n..f][1..] == k.bytes[n + 1..f];
  }

  /** What a byte does that ends the echo. */
  lemma PopOfEcho(c: Config, s: State, line: string)
    requires ConfigOk(c) && s.rx != "" && s.mode == Waiting && s.queue != []
    requires LineFsm.Step(s.fsm, s.rx[0], c.lineMax).1 == Some(line) && Classify(c, AtLine(s), line) == Echo
    ensures PopByte(c, s) == s.(rx := s.rx[1..], fsm := LineFsm.Step(s.fsm, s.rx[0], c.lineMax).0,
                                echoArmed := false, log := AtLine(s).log + [Line(line, Echo)])
  {
  }

  lemma KeptClassified(c: Config, s: State, line: CString)
    requires s.mode == Waiting && Ordinary(s.urcs, line)
    requires c.echoCancel && s.echoArmed ==> !(s.echo <= line)
    ensures Classify(c, s, line) == Kept
  {
    CStrWhole(line);
    ClassifiedByText(c, s, line);
  }

  /** A byte that ends a response line. */
  lemma PopKept(c: Config, s0: State, k: Talk, s: State, done: seq<string>, line: CString, n: nat, f: nat, t: nat)
    requires Midway(c, s0, k, s, done, n, f, t) && n < f && Transcript(k, c.lineMax)
    requires LineFsm.Step(s.fsm, k.bytes[n], c.lineMax).1 == Some(line)
    requires Ordinary(s.urcs, line) && (c.echoCancel && k.echo == [] ==> !(s.echo <= line))
    requires |k.echo| <= |done| && n + 1 < |k.bytes|
    ensures Midway(c, s0, k, PopByte(c, s), done + [line], n + 1, f, t)
  {
    PopKeepsInv(c, s);
    NextByte(k, c.lineMax, s.fsm, done, n);
    var at := AtLine(s);
    KeptClassified(c, at, line);
    assert Body(k, done + [line]) == Body(k, done) + [line];
    TakeAppend(Body(k, done), [line], c.respMax);
    NoneCompletedSnoc(s.log, |s0.log|, Received(s.rx[0]));
    NoneCompletedSnoc(at.log, |s0.log|, Line(line, Kept));
    PopOfKept(c, s, line);
    KeptMidway(c, s0, k, s, PopByte(c, s), done, line, n, f, t);
  }

  /** What a byte does that ends a response line. */
  lemma PopOfKept(c: Config, s: State, line: string)
    requires ConfigOk(c) && s.rx != "" && s.mode == Waiting && s.queue != [] && |s.pool| <= c.respMax
    requires LineFsm.Step(s.fsm, s.rx[0], c.lineMax).1 == Some(line) && Classify(c, AtLine(s), line) == Kept
    ensures var t := PopByte(c, s);
            t == s.(rx := s.rx[1..], fsm := LineFsm.Step(s.fsm, s.rx[0], c.lineMax).0, status := t.status,
                    pool := Take(s.pool + [line], c.respMax), log := AtLine(s).log + [Line(line, Kept)])
  {
  }

  lemma KeptMidway(c: Config, s0: State, k: Talk, s: State, u: State, done: seq<string>, line: CString, n: nat, f: nat, t: nat)
    requires Midway(c, s0, k, s, done, n, f, t) && n < f && n + 1 < |k.bytes| && |k.echo| <= |done|
    requires Inv(c, u)
    requires u == s.(rx := s.rx[1..], fsm := u.fsm, status := u.status, pool := Take(s.pool + [line], c.respMax), log := u.log)
    requires NoneCompleted(u.log, |s0.log|)
    requires LineFsm.Run(LineFsm.IDLE, k.bytes[..n + 1], c.lineMax) == (u.fsm, done + [line])
    requires Take(Take(Body(k, done), c.respMax) + [line], c.respMax) == Take(Body(k, done + [line]), c.respMax)
    ensures Midway(c, s0, k, u, done + [line], n + 1, f, t)
  {
    assert k.bytes[n..f][1..] == k.bytes[n + 1..f];
  }

  lemma FinalClassified(c: Config, s: State, line: CString, status: Status, code: int)
    requires s.mode == Waiting && Verdict(line, status, code)
    requires c.echoCancel && s.echoArmed ==> !(s.echo <= line)
    ensures Classify(c, s, line) == Final(status, code)
  {
    CStrWhole(line);
    FinalCodeExactly(line, status, code);
    ClassifiedByText(c, s, line);
  }

  /** The last byte delivers the answer. */
  lemma PopFinal(c: Config, s0: State, k: Talk, s: State, done: seq<string>, n: nat, f: nat, t: nat)
    requires Midway(c, s0, k, s, done, n, f, t) && n < f && n + 1 == |k.bytes|
    requires s0.queue != [] && Verdict(k.final, k.status, k.code)
    requires LineFsm.Step(s.fsm, k.bytes[n], c.lineMax).1 == Some(k.final)
    requires c.echoCancel && k.echo == [] ==> !(s.echo <= k.final)
    requires |k.echo| <= |done| && Body(k, done) == k.lines
    ensures Answered(c, s0, k, PopByte(c, s))
  {
    PopKeepsInv(c, s);
    PopConsumes(c, s);
    FinalClassified(c, AtLine(s), k.final, k.status, k.code);
    NoneCompletedSnoc(s.log, |s0.log|, Received(s.rx[0]));
    PopOfFinal(c, s, k.final, Answer(c, k), |s0.log|);
  }

  /** What a byte does that ends a final result line. */
  lemma PopOfFinal(c: Config, s: State, line: string, r: Response, n: nat)
    requires ConfigOk(c) && s.rx != "" && s.mode == Waiting && s.queue != [] && r.lines == s.pool
    requires LineFsm.Step(s.fsm, s.rx[0], c.lineMax).1 == Some(line)
    requires Classify(c, AtLine(s), line) == Final(r.status, r.errorCode) && NoneCompleted(AtLine(s).log, n)
    ensures CompletedFirst(PopByte(c, s).log, n, Completed(s.queue[0], r))
  {
    var at := AtLine(s);
    NoneCompletedSnoc(at.log, n, Line(line, Final(r.status, r.errorCode)));
    FinalizeFound(c, at.(log := at.log + [Line(line, Final(r.status, r.errorCode))]), r, n);
  }

  lemma FinalizeFound(c: Config, s: State, r: Response, n: nat)
    requires ConfigOk(c) && s.queue != [] && r.lines == s.pool && NoneCompleted(s.log, n)
    ensures CompletedFirst(Finalize(c, s, r.status, r.errorCode).log, n, Completed(s.queue[0], r))
  {
    var added := ReportEffect(c, s.(status := r.status), r);
    FoundAt(s.log, Completed(s.queue[0], r), Accepts(added), n);
  }

  lemma FoundAt(log: seq<Event>, e: Event, more: seq<Event>, n: nat)
    requires NoneCompleted(log, n)
    ensures CompletedFirst(log + [e] + more, n, e)
  {
    assert (log + [e] + more)[|log|] == e && (log + [e] + more)[..|log|] == log;
  }

  lemma PopStep(c: Config, s0: State, k: Talk, s: State, done: seq<string>, n: nat, f: nat, t: nat) returns (done': seq<string>)
    requires Listening(c, s0, k) && Midway(c, s0, k, s, done, n, f, t) && n < f
    ensures (Answered(c, s0, k, PopByte(c, s)) && n + 1 == |k.bytes|)
            || Midway(c, s0, k, PopByte(c, s), done', n + 1, f, t)
  {
    done' := done;
    NextByte(k, c.lineMax, s.fsm, done, n);
    var line := LineFsm.Step(s.fsm, k.bytes[n], c.lineMax).1;
    if line.None? {
      PopSilent(c, s0, k, s, done, n, f, t);
    } else {
      LineAfter(k, done);
      done' := done + [line.value];
      if |done| < |k.echo| {
        PopEcho(c, s0, k, s, line.value, n, f, t);
        assert done' == [line.value];
      } else if n + 1 < |k.bytes| {
        PopKept(c, s0, k, s, done, k.lines[|done| - |k.echo|], n, f, t);
      } else {
        assert Body(k, done) == k.lines;
        PopFinal(c, s0, k, s, done, n, f, t);
      }
    }
  }

  // ---------------------------------------------------------------- a whole exchange

  /** Steps during the exchange: bytes are fed and processed in any grouping, time passes, and
      further commands may be queued. */
  predicate Calm(step: Step) {
    step.SendStep? || step.FeedByteStep? || step.TickStep? || step.PopByteStep?
    || step.CheckTimeoutStep? || step.StartIfIdleStep?
  }

  function Fed(steps: seq<Step>): string {
    if steps == [] then ""
    else (if steps[0].FeedByteStep? then [steps[0].b] else "") + Fed(steps[1..])
  }

  function Elapsed(steps: seq<Step>): nat {
    if steps == [] then 0 else (if steps[0].TickStep? then steps[0].ms else 0) + Elapsed(steps[1..])
  }

  /** No byte meets a full ring. */
  ghost predicate Fits(c: Config, s: State, steps: seq<Step>)
    requires Inv(c, s)
    decreases |steps|
  {
    steps == [] ||
    (StepKeepsInv(c, s, steps[0]);
     (steps[0].FeedByteStep? ==> |s.rx| < c.rxSize) && Fits(c, Apply(c, s, steps[0]), steps[1..]))
  }

  lemma CalmMidway(c: Config, s0: State, k: Talk, s: State, done: seq<string>, n: nat, f: nat, t: nat, step: Step)
    requires Midway(c, s0, k, s, done, n, f, t) && Calm(step) && !step.PopByteStep?
    requires step.FeedByteStep? ==> f < |k.bytes| && step.b == k.bytes[f] && |s.rx| < c.rxSize
    requires step.TickStep? ==> step.ms < s.timer
    ensures Midway(c, s0, k, Apply(c, s, step), done, n, FedTo(f, step), TimeTo(t, step))
  {
    StepKeepsInv(c, s, step);
  }

  lemma CompletedFirstGrows(log: seq<Event>, longer: seq<Event>, n: nat, e: Event)
    requires CompletedFirst(log, n, e) && log <= longer
    ensures CompletedFirst(longer, n, e)
  {
    var i :| n <= i < |log| && log[i] == e && NoneCompleted(log[..i], n);
    assert longer[i] == e && longer[..i] == log[..i];
  }

  lemma CalmAnswered(c: Config, s0: State, k: Talk, s: State, step: Step)
    requires s0.queue != []
    requires Answered(c, s0, k, s) && Calm(step) && !step.FeedByteStep?
    ensures Answered(c, s0, k, Apply(c, s, step))
  {
    StepKeepsInv(c, s, step);
    if step.PopByteStep? {
      assert Apply(c, s, step) == s;
    } else {
      OtherStepSilent(c, s, step);
      CompletedFirstGrows(s.log, Apply(c, s, step).log, |s0.log|, Completed(s0.queue[0], Answer(c, k)));
    }
  }

  /** Midway or done. */
  ghost predicate Underway(c: Config, s0: State, k: Talk, s: State, f: nat, t: nat)
    requires s0.queue != []
  {
    (exists done, n: nat :: Midway(c, s0, k, s, done, n, f, t)) || (Answered(c, s0, k, s) && f == |k.bytes|)
  }

  lemma StepUnderway(c: Config, s0: State, k: Talk, s: State, f: nat, t: nat, step: Step)
    requires Listening(c, s0, k) && Underway(c, s0, k, s, f, t) && Calm(step)
    requires step.FeedByteStep? ==> f < |k.bytes| && step.b == k.bytes[f] && |s.rx| < c.rxSize
    requires step.TickStep? ==> t + step.ms < s0.timer
    ensures Underway(c, s0, k, Apply(c, s, step), FedTo(f, step), TimeTo(t, step))
  {
    if done, n: nat :| Midway(c, s0, k, s, done, n, f, t) {
      if step.PopByteStep? && n < f {
        var done' := PopStep(c, s0, k, s, done, n, f, t);
      } else if step.PopByteStep? {
        assert PopByte(c, s) == s;
      } else {
        CalmMidway(c, s0, k, s, done, n, f, t, step);
      }
    } else {
      CalmAnswered(c, s0, k, s, step);
    }
  }

  function FedTo(f: nat, step: Step): nat {
    if step.FeedByteStep? then f + 1 else f
  }

  function TimeTo(t: nat, step: Step): nat {
    if step.TickStep? then t + step.ms else t
  }

  /** From s on, the steps feed the rest of the bytes in order, without overflow and in time. */
  ghost predicate Plays(c: Config, bytes: string, limit: nat, s: State, f: nat, t: nat, steps: seq<Step>)
    requires Inv(c, s)
    decreases |steps|
  {
    if steps == [] then f == |bytes| && t < limit
    else
      && Calm(steps[0])
      && (steps[0].FeedByteStep? ==> f < |bytes| && steps[0].b == bytes[f] && |s.rx| < c.rxSize)
      && TimeTo(t, steps[0]) < limit
      && (StepKeepsInv(c, s, steps[0]);
          Plays(c, bytes, limit, Apply(c, s, steps[0]), FedTo(f, steps[0]), TimeTo(t, steps[0]), steps[1..]))
  }

  lemma {:induction false} StepsPlay(c: Config, bytes: string, limit: nat, s: State, f: nat, t: nat, steps: seq<Step>)
    requires Inv(c, s) && Fits(c, s, steps) && forall i :: 0 <= i < |steps| ==> Calm(steps[i])
    requires f <= |bytes| && bytes[f..] == Fed(steps) && t + Elapsed(steps) < limit
    ensures Plays(c, bytes, limit, s, f, t, steps)
    decreases |steps|
  {
    if steps != [] {
      StepKeepsInv(c, s, steps[0]);
      FedFirst(bytes, f, steps);
      assert forall i :: 0 <= i < |steps[1..]| ==> steps[1..][i] == steps[i + 1];
      StepsPlay(c, bytes, limit, Apply(c, s, steps[0]), FedTo(f, steps[0]), TimeTo(t, steps[0]), steps[1..]);
    }
  }

  lemma {:induction false} ExchangeFrom(c: Config, s0: State, k: Talk, s: State, f: nat, t: nat, steps: seq<Step>)
    returns (end: nat)
    requires Listening(c, s0, k) && Inv(c, s) && Plays(c, k.bytes, s0.timer, s, f, t, steps)
    requires Underway(c, s0, k, s, f, t)
    ensures Underway(c, s0, k, ApplyAll(c, s, steps), |k.bytes|, end)
    decreases |steps|
  {
    if steps == [] {
      end := t;
    } else {
      StepKeepsInv(c, s, steps[0]);
      StepUnderway(c, s0, k, s, f, t, steps[0]);
      end := ExchangeFrom(c, s0, k, Apply(c, s, steps[0]), FedTo(f, steps[0]), TimeTo(t, steps[0]), steps[1..]);
    }
  }

  lemma FedFirst(bytes: string, f: nat, steps: seq<Step>)
    requires steps != [] && f <= |bytes| && bytes[f..] == Fed(steps)
    ensures if steps[0].FeedByteStep? then f < |bytes| && steps[0].b == bytes[f] && bytes[f + 1..] == Fed(steps[1..])
            else bytes[f..] == Fed(steps[1..])
  {
    if steps[0].FeedByteStep? {
      assert bytes[f..][0] == steps[0].b;
      assert bytes[f + 1..] == bytes[f..][1..];
    }
  }

  /** The engine has just transmitted the exchange's command. */
  ghost predicate Begins(c: Config, s: State, x: Exchange) {
    && Inv(c, s) && s.mode == Waiting
    && s.rx == "" && s.fsm == LineFsm.IDLE && s.pool == []
    && s.queue[0].cmd == x.cmd
    && s.echoArmed == c.echoCancel && (c.echoCancel ==> s.echo == x.cmd)
    && Unambiguous(c, s.urcs, x)
  }

  /** Each line of the exchange can only be meant as what it is. */
  ghost predicate Unambiguous(c: Config, urcs: Slots, x: Exchange) {
    && PlainExchange(x, c.lineMax)
    && (x.echoed ==> c.echoCancel)
    && Verdict(x.final, x.status, x.code)
    && (forall i :: 0 <= i < |x.lines| ==> Ordinary(urcs, x.lines[i]))
    && (c.echoCancel && !x.echoed ==> Unlike(x))
  }

  /** No line of an answer without echo could be taken for the echo. */
  ghost predicate Unlike(x: Exchange) {
    !(x.cmd <= x.final) && forall i :: 0 <= i < |x.lines| ==> !(x.cmd <= x.lines[i])
  }

  /** An idle engine with nothing received begins the exchange of its next command when both writes
      succeed, with the whole timeout ahead. */
  lemma StartBegins(c: Config, s: State, x: Exchange)
    requires Inv(c, s) && s.mode == Idle && s.queue != [] && s.queue[0].cmd == x.cmd
    requires s.rx == "" && s.fsm == LineFsm.IDLE && Unambiguous(c, s.urcs, x)
    requires WriteSucceeds(s.world, 0) && WriteSucceeds(s.world, 1)
    ensures var t := StartIfIdle(c, s);
            && Begins(c, t, x) && t.queue == s.queue && t.timer == s.queue[0].timeout
            && t.log == s.log + [Started(s.queue[0]), Wrote(x.cmd, true), Wrote([CR], true), Listens]
  {
    StartKeepsInv(c, s);
  }

  /** An idle engine with nothing queued or received: at_send and then at_process begin the exchange of
      the command with the timeout it was sent with, and its entry keeps callback and prompt mode. */
  lemma SentIsStarted(c: Config, s: State, d: Desc, x: Exchange)
    requires Inv(c, s) && s.mode == Idle && s.queue == [] && s.rx == "" && s.fsm == LineFsm.IDLE
    requires d.cmd == Some(x.cmd) && |x.cmd| < c.txSize && Unambiguous(c, s.urcs, x)
    requires WriteSucceeds(s.world, 0) && WriteSucceeds(s.world, 1)
    ensures var t := Apply(c, s, SendStep(d));
            && Inv(c, t) && |t.queue| == 1 && Stores(c, t.queue[0], d) && t.log == s.log + [Accepted(t.queue[0])]
            && var u := Process(c, t);
            && Begins(c, u, x) && u.queue == t.queue
            && u.timer == (if d.timeout == 0 then c.defaultTimeout % 65536 else d.timeout)
            && u.log == t.log + [Started(t.queue[0]), Wrote(x.cmd, true), Wrote([CR], true), Listens]
  {
    var t := Apply(c, s, SendStep(d));
    StepKeepsInv(c, s, SendStep(d));
    SentIsQueued(c, s, d);
    StartBegins(c, t, x);
    ProcessStarts(c, t);
  }

  lemma SentIsQueued(c: Config, s: State, d: Desc)
    requires ConfigOk(c) && s.queue == [] && d.cmd.Some? && 0 < |d.cmd.value| < c.txSize
    ensures var t := Enqueue(c, s, d);
            && |t.queue| == 1 && Stores(c, t.queue[0], d) && t.queue[0].cmd == d.cmd.value
            && t == s.(queue := t.queue, log := s.log + [Accepted(t.queue[0])])
  {
    SendStores(c, s, d);
  }

  lemma ProcessStarts(c: Config, s: State)
    requires Inv(c, s) && s.mode == Idle && s.rx == ""
    ensures Process(c, s) == StartIfIdle(c, s)
  {
    assert Drain(c, s) == s;
  }

  lemma BeginsListening(c: Config, s: State, x: Exchange)
    requires Begins(c, s, x)
    ensures Listening(c, s, TalkOf(x, c.lineMax))
    ensures TalkOf(x, c.lineMax).bytes != ""
    ensures Midway(c, s, TalkOf(x, c.lineMax), s, [], 0, 0, 0) || s.timer == 0
  {
    var k := TalkOf(x, c.lineMax);
    TalkTranscript(x, c.lineMax);
    WireSplit(x);
    if x.echoed {
      var line := EchoLine(x, c.lineMax);
      assert NUL !in line;
      CStrWhole(line);
    }
    assert k.bytes[..0] == "" && k.bytes[0..0] == "";
  }

  /** A command and its answer, the bytes fed and processed in any grouping without overflow and in
      time: nothing completes before the last byte has been processed, and then the command
      completes with the final result and the first respMax lines, the echo removed. */
  lemma CommandGetsItsAnswer(c: Config, s0: State, x: Exchange, steps: seq<Step>)
    requires Begins(c, s0, x) && Fits(c, s0, steps)
    requires forall i :: 0 <= i < |steps| ==> Calm(steps[i])
    requires Fed(steps) == Wire(x) && Elapsed(steps) < s0.timer
    ensures var u := ApplyAll(c, s0, steps);
            if u.rx == "" then
              CompletedFirst(u.log, |s0.log|,
                Completed(s0.queue[0], Response(x.status, x.code, Take(x.lines, c.respMax))))
            else
              u.mode == Waiting && NoneCompleted(u.log, |s0.log|)
  {
    var k := TalkOf(x, c.lineMax);
    BeginsListening(c, s0, x);
    assert k.bytes[0..] == k.bytes;
    StepsPlay(c, k.bytes, s0.timer, s0, 0, 0, steps);
    var t := ExchangeFrom(c, s0, k, s0, 0, 0, steps);
    var u := ApplyAll(c, s0, steps);
    if done, n: nat :| Midway(c, s0, k, u, done, n, |k.bytes|, t) {
      assert |u.rx| == |k.bytes| - n;
    }
  }
}
