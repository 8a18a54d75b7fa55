/** The AT engine of src/at.c as a state machine on values: one function per engine function, the
    outside world supplied as a script. The class in Engine.dfy implements these functions. */
module EngineSpec {
  import opened Common
  import opened Fmt
  import opened EngineTypes
  import opened UrcTable
  import LineFsm
  import RxRing

  datatype State = State(
    rx: string,            // bytes in the receive ring
    queue: seq<Entry>,     // the first entry is the one being executed, if any
    mode: Mode,
    timer: nat,
    pool: seq<string>,     // response lines
    status: Status,        // g_at.response.status
    fsm: LineFsm.Fsm,
    urcs: Slots,
    echo: CString,
    echoArmed: bool,
    world: World,
    log: seq<Event>)

  /** What holds between any two engine steps. */
  ghost predicate Ready(c: Config, s: State) {
    && Sound(c, s)
    && (s.mode == Idle || s.mode == Waiting)
    && (s.mode == Waiting ==> s.queue != [])
  }

  /** The bounds that hold even in the middle of a step. */
  ghost predicate Sound(c: Config, s: State) {
    && ConfigOk(c)
    && |s.rx| <= c.rxSize && |s.queue| <= c.depth && |s.pool| <= c.respMax && |s.urcs| == c.urcSize
    && LineFsm.Consistent(s.fsm, c.lineMax)
    && Distinct(s.urcs)
  }

  function Init(c: Config, world: World): State {
    State("", [], Idle, 0, [], Ok, LineFsm.IDLE, seq(c.urcSize, _ => None), "", false, world, [])
  }

  // ---------------------------------------------------------------- at_send and the URC table

  function MakeEntry(c: Config, d: Desc): Entry
    requires ConfigOk(c) && d.cmd.Some?
  {
    var hasBody := d.body.Some? && d.body.value != "";
    Entry(
      Take(d.cmd.value, c.txSize - 1),
      if hasBody then Take(d.body.value, 2 * c.txSize - 1) else "",
      hasBody,
      if d.timeout != 0 then d.timeout else c.defaultTimeout % 65536,
      d.sms, d.cb)
  }

  function SendCheck(c: Config, d: Desc, queued: nat): Status {
    if d.cmd.None? || d.cmd.value == "" then ErrParam
    else if queued >= c.depth then ErrBusy
    else Ok
  }

  function Enqueue(c: Config, s: State, d: Desc): State
    requires ConfigOk(c)
  {
    if SendCheck(c, d, |s.queue|) != Ok then s
    else
      var e := MakeEntry(c, d);
      s.(queue := s.queue + [e], log := s.log + [Accepted(e)])
  }

  /** The entry keeps callback and prompt mode of the descriptor, its timeout unless that is zero, and
      command and body as far as they fit. */
  predicate Stores(c: Config, e: Entry, d: Desc)
    requires ConfigOk(c) && d.cmd.Some?
  {
    && e.cb == d.cb && e.sms == d.sms
    && e.timeout == (if d.timeout == 0 then c.defaultTimeout % 65536 else d.timeout)
    && FitsAs(e.cmd, d.cmd.value, c.txSize)
    && (e.hasBody <==> d.body.Some? && d.body.value != "")
    && (if e.hasBody then FitsAs(e.body, d.body.value, 2 * c.txSize) else e.body == "")
  }

  /** The text, or its beginning that fills the buffer beside the terminator. */
  predicate FitsAs(stored: CString, text: CString, size: nat) {
    stored <= text && |stored| < size && (stored == text || |stored| == size - 1)
  }

  /** What at_send makes of a descriptor: refused without a command, busy with a full queue, and
      otherwise stored at the end. */
  ghost predicate Sends(c: Config, s: State, d: Desc, r: Status, t: State)
    requires ConfigOk(c)
  {
    if d.cmd.None? || d.cmd.value == "" then r == ErrParam && t == s
    else if |s.queue| >= c.depth then r == ErrBusy && t == s
    else
      && r == Ok && |t.queue| == |s.queue| + 1
      && var e := t.queue[|s.queue|];
      Stores(c, e, d) && t == s.(queue := s.queue + [e], log := s.log + [Accepted(e)])
  }

  lemma SendStores(c: Config, s: State, d: Desc)
    requires ConfigOk(c)
    ensures Sends(c, s, d, SendCheck(c, d, |s.queue|), Enqueue(c, s, d))
  {
    if SendCheck(c, d, |s.queue|) == Ok {
      assert Stores(c, MakeEntry(c, d), d);
    }
  }

  function DoAct(c: Config, s: State, a: Act): State
    requires ConfigOk(c)
  {
    match a
    case Send(d) => Enqueue(c, s, d)
    case Register(p, h) => s.(urcs := Registered(s.urcs, c.lineMax, p, h).0)
    case Deregister(p) => s.(urcs := Deregistered(s.urcs, c.lineMax, p).0)
  }

  function DoActs(c: Config, s: State, acts: seq<Act>): State
    requires ConfigOk(c)
    decreases |acts|
  {
    if acts == [] then s else DoActs(c, DoAct(c, s, acts[0]), acts[1..])
  }

  lemma DoActsAt(c: Config, s: State, acts: seq<Act>, i: nat)
    requires ConfigOk(c) && i < |acts|
    ensures DoActs(c, s, acts[i..]) == DoActs(c, DoAct(c, s, acts[i]), acts[i + 1..])
  {
    assert acts[i..][0] == acts[i] && acts[i..][1..] == acts[i + 1..];
  }

  /** Calls are made in order. */
  lemma {:induction false} CallsInOrder(c: Config, s: State, first: seq<Act>, second: seq<Act>)
    requires ConfigOk(c)
    ensures DoActs(c, s, first + second) == DoActs(c, DoActs(c, s, first), second)
    ensures forall a :: DoActs(c, s, [a]) == DoAct(c, s, a)
    decreases |first|
  {
    if first == [] {
      assert first + second == second;
    } else {
      assert (first + second)[1..] == first[1..] + second;
      CallsInOrder(c, DoAct(c, s, first[0]), first[1..], second);
    }
  }

  /** A callback runs: the next one in the script. */
  function Callback(c: Config, s: State): State
    requires ConfigOk(c)
  {
    if s.world.callbacks == [] then s
    else DoActs(c, s.(world := s.world.(callbacks := s.world.callbacks[1..])), s.world.callbacks[0])
  }

  // ---------------------------------------------------------------- finishing and starting

  /** Report the first entry, then drop it; the callback runs in between. */
  function Report(c: Config, s: State, r: Response): State
    requires ConfigOk(c) && s.queue != []
  {
    var told := s.(log := s.log + [Completed(s.queue[0], r)]);
    var after := if s.queue[0].cb.Some? then Callback(c, told) else told;
    QueueGrows(c, told);
    after.(queue := after.queue[1..])
  }

  function Finalize(c: Config, s: State, status: Status, code: int): State
    requires ConfigOk(c) && s.queue != []
  {
    Report(c, s.(status := status), Response(status, code, s.pool)).(
      mode := Idle, timer := 0, echoArmed := false)
  }

  /** at_platform_write */
  function Write(s: State, bytes: string): (State, bool) {
    var ok := s.world.writes == [] || s.world.writes[0];
    var rest := if s.world.writes == [] then [] else s.world.writes[1..];
    (s.(world := s.world.(writes := rest), log := s.log + [Wrote(bytes, ok)]), ok)
  }

  /** Two writes, the second only if the first succeeded. */
  function WriteBoth(s: State, first: string, second: string): (State, bool) {
    var (s1, ok) := Write(s, first);
    if ok then Write(s1, second) else (s1, false)
  }

  /** Write both strings, then wait; give up with an I/O error if a write fails. */
  function Transmit(c: Config, s: State, first: string, second: string): State
    requires ConfigOk(c) && s.queue != []
  {
    var (s1, ok) := WriteBoth(s, first, second);
    if ok then s1.(mode := Waiting, log := s1.log + [Listens]) else Finalize(c, s1, ErrIo, 0)
  }

  function StartNext(c: Config, s: State): State
    requires ConfigOk(c) && s.queue != []
  {
    var e := s.queue[0];
    var armed := s.(
      pool := [], status := Pending, timer := e.timeout, mode := Sending,
      echo := if c.echoCancel then e.cmd else s.echo, echoArmed := c.echoCancel,
      log := s.log + [Started(e)]);
    Transmit(c, armed, e.cmd, [CR])
  }

  // ---------------------------------------------------------------- received lines

  function FinalCode(text: CString): Option<(Status, int)> {
    if text == "OK" then Some((Ok, 0))
    else if text == "ERROR" then Some((ErrGeneric, 0))
    else if text == "NO CARRIER" || text == "NO DIALTONE" || text == "BUSY" || text == "NO ANSWER"
    then Some((ErrGeneric, 0))
    else if "+CME ERROR:" <= text then Some((ErrCme, ParsedInt(text, 11)))
    else if "+CMS ERROR:" <= text then Some((ErrCms, ParsedInt(text, 11)))
    else None
  }

  /** The words that are a final result when they are the whole line. */
  const FINAL_WORDS := ["OK", "ERROR", "NO CARRIER", "NO DIALTONE", "BUSY", "NO ANSWER"]

  /** The final result lines: the final words, and the lines that begin as error reports. */
  predicate FinalText(text: string) {
    text in FINAL_WORDS || "+CME ERROR:" <= text || "+CMS ERROR:" <= text
  }

  /** What a final result line says: success, failure, or an error report with its number. */
  predicate Verdict(text: CString, status: Status, code: int) {
    || (text in FINAL_WORDS && status == (if text == "OK" then Ok else ErrGeneric) && code == 0)
    || ("+CME ERROR:" <= text && status == ErrCme && code == ParsedInt(text, 11))
    || ("+CMS ERROR:" <= text && status == ErrCms && code == ParsedInt(text, 11))
  }

  /** Exactly these lines are taken as final results, and as what they say. */
  lemma FinalCodeExactly(text: CString, status: Status, code: int)
    ensures FinalCode(text).Some? <==> FinalText(text)
    ensures FinalCode(text) == Some((status, code)) <==> Verdict(text, status, code)
  {
    if text in FINAL_WORDS {
      assert text[0] != '+';
    }
    if "+CME ERROR:" <= text {
      ErrorLineParsed(false, text);
    }
    if "+CMS ERROR:" <= text {
      ErrorLineParsed(true, text);
    }
  }

  /** The final words are final only as whole lines, and only one of them means success. */
  lemma FinalWordsAreWhole(i: nat, more: CString)
    requires i < |FINAL_WORDS|
    ensures var r := FinalCode(FINAL_WORDS[i] + more);
            r == if more != "" then None else Some((if i == 0 then Ok else ErrGeneric, 0))
  {
    var line := FINAL_WORDS[i] + more;
    assert line[0] == FINAL_WORDS[i][0] && line[1] == FINAL_WORDS[i][1] && line[|FINAL_WORDS[i]| - 1] != ' ';
    if more != "" {
      assert |line| > |FINAL_WORDS[i]|;
    }
  }

  function ErrorPrefix(cms: bool): CString {
    if cms then "+CMS ERROR:" else "+CME ERROR:"
  }

  /** The number that the modem prints in an error line, after blanks and before any remark, arrives
      as the error code exactly when it is not one of the few beyond what the parser keeps apart. */
  lemma ErrorCodeArrives(cms: bool, blanks: CString, v: int32, rest: CString)
    requires (forall i :: 0 <= i < |blanks| ==> IsBlank(blanks[i])) && (rest != "" ==> !IsDigit(rest[0]))
    ensures NUL !in Signed(v)
    ensures var r := FinalCode(ErrorPrefix(cms) + blanks + Signed(v) + rest);
            && r.Some? && r.value.0 == (if cms then ErrCms else ErrCme)
            && (r.value.1 == v <==> -2147483639 <= v <= 2147483639 || v == INT32_MAX || v == -INT32_MAX)
  {
    NoNul(v);
    ErrorNumber(cms, blanks, v, rest);
    var line := ErrorPrefix(cms) + blanks + Signed(v) + rest;
    Regroup(ErrorPrefix(cms), blanks, Signed(v), rest);
    ErrorLineParsed(cms, line);
  }

  lemma ErrorNumber(cms: bool, blanks: CString, v: int32, rest: CString)
    requires (forall i :: 0 <= i < |blanks| ==> IsBlank(blanks[i])) && (rest != "" ==> !IsDigit(rest[0]))
    ensures ParsedInt(ErrorPrefix(cms) + blanks + Signed(v) + rest, 11) == v
            <==> -2147483639 <= v <= 2147483639 || v == INT32_MAX || v == -INT32_MAX
  {
    ParsedIntInText(ErrorPrefix(cms), blanks, v, rest);
    SaturationLoses(v);
  }

  lemma Regroup(a: string, b: string, d: string, e: string)
    ensures a <= a + b + d + e
  {
  }

  lemma SaturationLoses(v: int32)
    ensures (if v < 0 then -SaturateInt(Magnitude(v)) else SaturateInt(Magnitude(v))) == v
            <==> -2147483639 <= v <= 2147483639 || v == INT32_MAX || v == -INT32_MAX
  {
  }

  lemma NoNul(v: int32)
    ensures NUL !in Signed(v)
  {
    UnsignedIsNumber(Magnitude(v));
    SignedShape(v);
  }

  lemma ErrorLineParsed(cms: bool, line: CString)
    requires ErrorPrefix(cms) <= line
    ensures FinalCode(line) == Some((if cms then ErrCms else ErrCme, ParsedInt(line, 11)))
  {
    assert line[0] == '+' && line[3] == (if cms then 'S' else 'E');
  }

  predicate IsPrompt(line: string) {
    |line| >= 2 && line[0] == '>' && line[1] == ' '
  }

  /** The one use that is made of a line. */
  function Classify(c: Config, s: State, line: string): Fate {
    var text, waiting := CStr(line), s.mode == Waiting;
    var slot := FindMatch(s.urcs, text);
    if c.echoCancel && s.echoArmed && waiting && s.echo <= text then Echo
    else if waiting && IsPrompt(line) then Prompted
    else if waiting && FinalCode(text).Some? then Final(FinalCode(text).value.0, FinalCode(text).value.1)
    else if slot < |s.urcs| then Unsolicited(s.urcs[slot].value.handler)
    else if waiting then Kept
    else Ignored
  }

  /** Prompt and final result are recognised by the text alone. */
  lemma ClassifiedByText(c: Config, s: State, line: string)
    ensures IsPrompt(line) <==> "> " <= line
    ensures FinalCode(CStr(line)).Some? <==> FinalText(CStr(line))
    ensures var fate := Classify(c, s, line);
            fate.Final? ==> Verdict(CStr(line), fate.status, fate.code) && !("> " <= line)
  {
    var fate := Classify(c, s, line);
    FinalCodeExactly(CStr(line), if fate.Final? then fate.status else Ok, if fate.Final? then fate.code else 0);
  }

  function SendBody(c: Config, s: State): State
    requires ConfigOk(c) && s.queue != []
  {
    var e := s.queue[0];
    if e.sms && e.hasBody
    then Transmit(c, s.(mode := Prompt, timer := c.promptTimeout, log := s.log + [Rearmed]), e.body, ['\U{1A}'])
    else s
  }

  function Keep(c: Config, s: State, line: string): State {
    if |s.pool| < c.respMax then s.(pool := s.pool + [line]) else s.(status := ErrOverflow)
  }

  /** The effect of using a line in one way. */
  function Use(c: Config, s: State, line: string, fate: Fate): State
    requires ConfigOk(c) && (fate.Prompted? || fate.Final? ==> s.queue != [])
  {
    match fate
    case Echo => s.(echoArmed := false)
    case Prompted => SendBody(c, s)
    case Final(status, code) => Finalize(c, s, status, code)
    case Unsolicited(_) => Callback(c, s)
    case Kept => Keep(c, s, line)
    case Ignored => s
  }

  function Dispatch(c: Config, s: State, line: string): State
    requires ConfigOk(c) && (s.mode == Waiting ==> s.queue != [])
  {
    var fate := Classify(c, s, line);
    Use(c, s.(log := s.log + [Line(line, fate)]), line, fate)
  }

  // ---------------------------------------------------------------- engine steps

  /** One iteration of the draining loop of at_process. */
  function PopByte(c: Config, s: State): State
    requires ConfigOk(c) && (s.mode == Waiting ==> s.queue != [])
  {
    if s.rx == "" then s
    else
      var (fsm, line) := LineFsm.Step(s.fsm, s.rx[0], c.lineMax);
      var s1 := s.(rx := s.rx[1..], log := s.log + [Received(s.rx[0])]);
      (if line.Some? then Dispatch(c, s1, line.value) else s1).(fsm := fsm)
  }

  function CheckTimeout(c: Config, s: State): State
    requires ConfigOk(c) && (s.mode == Waiting || s.mode == Prompt ==> s.queue != [])
  {
    if (s.mode == Waiting || s.mode == Prompt) && s.timer == 0 then Finalize(c, s, ErrTimeout, 0) else s
  }

  function StartIfIdle(c: Config, s: State): State
    requires ConfigOk(c)
  {
    if s.mode == Idle && s.queue != [] then StartNext(c, s) else s
  }

  function FeedByte(c: Config, s: State, b: char): State {
    var stored := |s.rx| < c.rxSize;
    s.(rx := if stored then s.rx + [b] else s.rx, log := s.log + [Arrived(b, stored)])
  }

  function Feed(c: Config, s: State, data: string): State
    decreases |data|
  {
    if data == "" then s else Feed(c, FeedByte(c, s, data[0]), data[1..])
  }

  function Tick(s: State, ms: nat): State {
    var s1 := s.(log := s.log + [Ticked(ms)]);
    if s.mode == Waiting || s.mode == Prompt
    then s1.(timer := if s.timer <= ms then 0 else s.timer - ms)
    else s1
  }

  function Abort(c: Config, s: State): State
    requires ConfigOk(c) && (s.mode == Waiting || s.mode == Prompt ==> s.queue != [])
  {
    var s1 := s.(log := s.log + [AbortCalled]);
    if s.mode == Waiting || s.mode == Prompt then Finalize(c, s1, ErrAborted, 0) else s1
  }

  /** The queue-draining loop of at_reset. */
  function AbortAll(c: Config, s: State): State
    requires ConfigOk(c)
    decreases |s.queue| + SendsLeft(s.world)
  {
    if s.queue == [] then s
    else
      ReportShrinks(c, s, Response(ErrAborted, 0, []));
      AbortAll(c, Report(c, s, Response(ErrAborted, 0, [])))
  }

  /** The first part of at_reset: no command is being executed any more. */
  function ResetFirst(c: Config, s: State): State
    requires ConfigOk(c)
  {
    var s0 := s.(log := s.log + [ResetCalled]);
    if s.mode != Idle && s.queue != [] then Finalize(c, s0, ErrAborted, 0) else s0
  }

  /** The rest of it: the queue is drained and reception is forgotten. */
  function ResetLast(c: Config, s: State): State
    requires ConfigOk(c)
  {
    var t := AbortAll(c, s);
    t.(rx := "", mode := Idle, fsm := LineFsm.IDLE, echoArmed := false, pool := [], log := t.log + [WasReset])
  }

  function Reset(c: Config, s: State): State
    requires ConfigOk(c)
  {
    ResetLast(c, ResetFirst(c, s))
  }

  // ---------------------------------------------------------------- what callbacks can change

  /** The entries that a list of calls adds to a queue of the given length. */
  function NewEntries(c: Config, queued: nat, acts: seq<Act>): seq<Entry>
    requires ConfigOk(c)
    decreases |acts|
  {
    if acts == [] then []
    else if acts[0].Send? && SendCheck(c, acts[0].desc, queued) == Ok
    then [MakeEntry(c, acts[0].desc)] + NewEntries(c, queued + 1, acts[1..])
    else NewEntries(c, queued, acts[1..])
  }

  function SlotsAfter(c: Config, t: Slots, acts: seq<Act>): (r: Slots)
    requires ConfigOk(c)
    ensures |r| == |t|
    decreases |acts|
  {
    if acts == [] then t
    else match acts[0]
      case Send(_) => SlotsAfter(c, t, acts[1..])
      case Register(p, h) => SlotsAfter(c, Registered(t, c.lineMax, p, h).0, acts[1..])
      case Deregister(p) => SlotsAfter(c, Deregistered(t, c.lineMax, p).0, acts[1..])
  }

  function Accepts(es: seq<Entry>): seq<Event> {
    seq(|es|, i requires 0 <= i < |es| => Accepted(es[i]))
  }

  /** A list of calls appends its new entries to queue and log and rewrites the table; nothing
      else changes. */
  lemma {:induction false} DoActsEffect(c: Config, s: State, acts: seq<Act>)
    requires ConfigOk(c)
    ensures var added := NewEntries(c, |s.queue|, acts);
            DoActs(c, s, acts) == s.(queue := s.queue + added, log := s.log + Accepts(added),
                                     urcs := SlotsAfter(c, s.urcs, acts))
    decreases |acts|
  {
    var added := NewEntries(c, |s.queue|, acts);
    if acts == [] {
      assert s.queue + added == s.queue && s.log + Accepts(added) == s.log;
    } else {
      var s1 := DoAct(c, s, acts[0]);
      DoActsEffect(c, s1, acts[1..]);
      if acts[0].Send? && SendCheck(c, acts[0].desc, |s.queue|) == Ok {
        AddFirst(s, MakeEntry(c, acts[0].desc), NewEntries(c, |s1.queue|, acts[1..]));
      }
    }
  }

  lemma AddFirst(s: State, e: Entry, rest: seq<Entry>)
    ensures (s.queue + [e]) + rest == s.queue + ([e] + rest)
    ensures (s.log + [Accepted(e)]) + Accepts(rest) == s.log + Accepts([e] + rest)
  {
    assert Accepts([e] + rest) == [Accepted(e)] + Accepts(rest);
  }

  lemma {:induction false} NewEntriesBound(c: Config, queued: nat, acts: seq<Act>)
    requires ConfigOk(c)
    ensures |NewEntries(c, queued, acts)| <= SendCount(acts)
    ensures queued <= c.depth ==> queued + |NewEntries(c, queued, acts)| <= c.depth
    decreases |acts|
  {
    if acts != [] {
      NewEntriesBound(c, queued, acts[1..]);
      NewEntriesBound(c, queued + 1, acts[1..]);
    }
  }

  lemma {:induction false} SlotsAfterDistinct(c: Config, t: Slots, acts: seq<Act>)
    requires ConfigOk(c) && Distinct(t)
    ensures Distinct(SlotsAfter(c, t, acts))
    decreases |acts|
  {
    if acts != [] {
      match acts[0]
      case Send(_) => SlotsAfterDistinct(c, t, acts[1..]);
      case Register(p, h) =>
        if p.Some? && h.Some? { RegisterRefines(t, c.lineMax, p.value, h.value); }
        SlotsAfterDistinct(c, Registered(t, c.lineMax, p, h).0, acts[1..]);
      case Deregister(p) =>
        if p.Some? { DeregisterRefines(t, c.lineMax, p.value); }
        SlotsAfterDistinct(c, Deregistered(t, c.lineMax, p).0, acts[1..]);
    }
  }

  /** How many at_send calls a script still contains. */
  function SendCount(acts: seq<Act>): nat {
    if acts == [] then 0 else (if acts[0].Send? then 1 else 0) + SendCount(acts[1..])
  }

  function ScriptSends(callbacks: seq<seq<Act>>): nat {
    if callbacks == [] then 0 else SendCount(callbacks[0]) + ScriptSends(callbacks[1..])
  }

  function SendsLeft(w: World): nat {
    ScriptSends(w.callbacks)
  }

  /** The calls the next callback makes. */
  function NextActs(w: World): seq<Act> {
    if w.callbacks == [] then [] else w.callbacks[0]
  }

  function Later(w: World): World {
    w.(callbacks := if w.callbacks == [] then [] else w.callbacks[1..])
  }

  /** The entries that the callback of the first entry, if it has one, will add. */
  function Added(c: Config, s: State): seq<Entry>
    requires ConfigOk(c)
  {
    NewEntries(c, |s.queue|, NextActs(s.world))
  }

  lemma CallbackEffect(c: Config, s: State)
    requires ConfigOk(c)
    ensures var added := Added(c, s);
            Callback(c, s) == s.(queue := s.queue + added, log := s.log + Accepts(added),
                                 urcs := SlotsAfter(c, s.urcs, NextActs(s.world)), world := Later(s.world))
    ensures |Added(c, s)| + SendsLeft(Later(s.world)) <= SendsLeft(s.world)
    ensures |s.queue| <= c.depth ==> |s.queue| + |Added(c, s)| <= c.depth
  {
    NewEntriesBound(c, |s.queue|, NextActs(s.world));
    var s1 := s.(world := Later(s.world));
    DoActsEffect(c, s1, NextActs(s.world));
  }

  /** The state after the calls that the next callback makes. */
  function AfterCalls(c: Config, s: State): State
    requires ConfigOk(c)
  {
    var script := s.world.callbacks;
    var calls := if script == [] then [] else script[0];
    var sent := NewEntries(c, |s.queue|, calls);
    s.(queue := s.queue + sent, log := s.log + Accepts(sent), urcs := SlotsAfter(c, s.urcs, calls),
       world := s.world.(callbacks := if script == [] then [] else script[1..]))
  }

  /** The state after the first entry has been reported: its callback's calls were made, if and only
      if it has one, and then it left the queue. */
  function AfterReport(c: Config, s: State, r: Response): State
    requires ConfigOk(c) && s.queue != []
  {
    var told := s.(log := s.log + [Completed(s.queue[0], r)]);
    var after := if s.queue[0].cb.Some? then AfterCalls(c, told) else told;
    after.(queue := after.queue[1..])
  }

  lemma ReportRunsCallback(c: Config, s: State, r: Response)
    requires ConfigOk(c) && s.queue != []
    ensures Report(c, s, r) == AfterReport(c, s, r)
  {
    CallbackEffect(c, s.(log := s.log + [Completed(s.queue[0], r)]));
  }

  /** The first entry was reported with r, and the engine is idle. */
  ghost predicate Finished(c: Config, s: State, r: Response, t: State)
    requires ConfigOk(c) && s.queue != []
  {
    t == AfterReport(c, s, r).(status := r.status, mode := Idle, timer := 0, echoArmed := false)
  }

  lemma FinalizeFinishes(c: Config, s: State, status: Status, code: int)
    requires ConfigOk(c) && s.queue != []
    ensures Finished(c, s, Response(status, code, s.pool), Finalize(c, s, status, code))
  {
    ReportRunsCallback(c, s.(status := status), Response(status, code, s.pool));
  }

  /** Whether the n-th write from now on succeeds, and the world after n writes. */
  predicate WriteSucceeds(w: World, n: nat) {
    n < |w.writes| ==> w.writes[n]
  }

  function AfterWrites(w: World, n: nat): World {
    w.(writes := if n <= |w.writes| then w.writes[n..] else [])
  }

  /** Both strings were written and the engine waits for lines; or a write failed, nothing was written
      after it, and the command is reported with an I/O error. */
  ghost predicate Transmitted(c: Config, s: State, first: string, second: string, t: State)
    requires ConfigOk(c) && s.queue != []
  {
    var r := Response(ErrIo, 0, s.pool);
    if !WriteSucceeds(s.world, 0) then
      Finished(c, s.(world := AfterWrites(s.world, 1), log := s.log + [Wrote(first, false)]), r, t)
    else if !WriteSucceeds(s.world, 1) then
      Finished(c, s.(world := AfterWrites(s.world, 2), log := s.log + [Wrote(first, true), Wrote(second, false)]), r, t)
    else
      t == s.(mode := Waiting, world := AfterWrites(s.world, 2),
              log := s.log + [Wrote(first, true), Wrote(second, true), Listens])
  }

  lemma TransmitWrites(c: Config, s: State, first: string, second: string)
    requires ConfigOk(c) && s.queue != []
    ensures Transmitted(c, s, first, second, Transmit(c, s, first, second))
  {
    var (s1, ok) := Write(s, first);
    if ok {
      var (s2, both) := Write(s1, second);
      assert s2.world == AfterWrites(s.world, 2);
      assert s2.log == s.log + [Wrote(first, true), Wrote(second, both)];
      if both {
        assert s2.log + [Listens] == s.log + [Wrote(first, true), Wrote(second, true), Listens];
      } else {
        FinalizeFinishes(c, s2, ErrIo, 0);
      }
    } else {
      FinalizeFinishes(c, s1, ErrIo, 0);
    }
  }

  lemma QueueGrows(c: Config, s: State)
    requires ConfigOk(c)
    ensures |Callback(c, s).queue| >= |s.queue|
  {
    CallbackEffect(c, s);
  }

  /** What reporting the first entry amounts to: the entry leaves the queue, the entries its
      callback sends join it at the end. */
  lemma ReportEffect(c: Config, s: State, r: Response) returns (added: seq<Entry>)
    requires ConfigOk(c) && s.queue != []
    ensures var t := Report(c, s, r);
            && t.queue == s.queue[1..] + added
            && t.log == s.log + [Completed(s.queue[0], r)] + Accepts(added)
            && t == s.(queue := t.queue, log := t.log, urcs := t.urcs, world := t.world)
            && |t.urcs| == |s.urcs|
            && (Distinct(s.urcs) ==> Distinct(t.urcs))
            && |added| + SendsLeft(t.world) <= SendsLeft(s.world)
            && (|s.queue| <= c.depth ==> |s.queue| + |added| <= c.depth)
            && t.world.writes == s.world.writes
  {
    var told := s.(log := s.log + [Completed(s.queue[0], r)]);
    if s.queue[0].cb.Some? {
      CallbackEffect(c, told);
      added := Added(c, told);
      if Distinct(s.urcs) { SlotsAfterDistinct(c, s.urcs, NextActs(s.world)); }
      assert (s.queue + added)[1..] == s.queue[1..] + added;
    } else {
      added := [];
      assert told.log + Accepts(added) == told.log;
      assert s.queue[1..] + added == s.queue[1..];
    }
  }

  lemma ReportShrinks(c: Config, s: State, r: Response)
    requires ConfigOk(c) && s.queue != []
    ensures |Report(c, s, r).queue| + SendsLeft(Report(c, s, r).world) < |s.queue| + SendsLeft(s.world)
  {
    var added := ReportEffect(c, s, r);
  }
}
