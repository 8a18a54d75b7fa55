/** Runs of the engine: every order of API calls, interrupts and single iterations of at_process,
    checked against an independent observer of the event record. */
module EngineRuns {
  import opened Common
  import opened EngineTypes
  import opened EngineSpec
  import opened UrcTable
  import LineFsm

  /** One step of a run. PopByte, CheckTimeout and StartIfIdle are the pieces of at_process, so
      interrupts (FeedByte, Tick) may fall between any two iterations of its loop. */
  datatype Step =
    | SendStep(desc: Desc) | FeedByteStep(b: char) | TickStep(ms: nat)
    | PopByteStep | CheckTimeoutStep | StartIfIdleStep
    | AbortStep | ResetStep
    | RegisterStep(prefix: Option<CString>, handler: Option<Handler>) | DeregisterStep(prefix: Option<CString>)

  function Apply(c: Config, s: State, step: Step): State
    requires ConfigOk(c) && (s.mode == Waiting || s.mode == Prompt ==> s.queue != [])
  {
    match step
    case SendStep(d) => Enqueue(c, s, d)
    case FeedByteStep(b) => FeedByte(c, s, b)
    case TickStep(ms) => Tick(s, ms)
    case PopByteStep => PopByte(c, s)
    case CheckTimeoutStep => CheckTimeout(c, s)
    case StartIfIdleStep => StartIfIdle(c, s)
    case AbortStep => Abort(c, s)
    case ResetStep => Reset(c, s)
    case RegisterStep(p, h) => DoAct(c, s, Register(p, h))
    case DeregisterStep(p) => DoAct(c, s, Deregister(p))
  }

  // ---------------------------------------------------------------- the observer

  /** How far a command being executed has come: what is written next, possibly after the countdown
      has been restarted; waiting for lines; a write failed; a final result was received; or the
      command is to be aborted. */
  datatype Stage =
    | Writing(texts: seq<string>) | Rearming(texts: seq<string>) | Attending
    | Failed | Judged(status: Status, code: int) | Aborting

  /** A countdown: its length, the time ticked while it ran, and whether it runs. */
  datatype Clock = Clock(limit: nat, gone: nat, running: bool)

  /** A command being executed, as an observer of the record knows it: its stage, the lines kept
      since it was started, its countdown, and whether the echo may still come. */
  datatype Active = Active(stage: Stage, kept: seq<string>, clock: Clock, echoDue: bool)

  /** Commands accepted and not yet completed, the first of them possibly being executed; and
      whether at_reset is at work. */
  datatype Observer = Observer(pending: seq<Entry>, active: Option<Active>, resetting: bool)

  const NOTHING_YET := Observer([], None, false)

  /** What is written to start a command, and what its prompt asks for. */
  function CommandTexts(e: Entry): seq<string> {
    [e.cmd, [CR]]
  }

  function BodyTexts(e: Entry): seq<string> {
    if e.sms && e.hasBody then [e.body, ['\U{1A}']] else []
  }

  function Tock(k: Clock, ms: nat): Clock {
    if k.running then k.(gone := k.gone + ms) else k
  }

  /** What a countdown leaves on the timer. */
  function Left(k: Clock): nat {
    if k.gone >= k.limit then 0 else k.limit - k.gone
  }

  /** May a command at this stage be reported with r? A final result must be reported as received, a
      failed write and a call of at_abort or at_reset as such; a command that is waiting for lines
      can only have timed out. */
  predicate Reportable(c: Config, a: Active, r: Response) {
    && r.lines == Take(a.kept, c.respMax)
    && match a.stage
       case Judged(status, code) => r.status == status && r.errorCode == code
       case Failed => r.status == ErrIo && r.errorCode == 0
       case Aborting => r.status == ErrAborted && r.errorCode == 0
       case Attending => r.status == ErrTimeout && r.errorCode == 0 && a.clock.running && a.clock.gone >= a.clock.limit
       case _ => false
  }

  /** The protocol: what may happen next, and what the observer then knows. */
  function Observe(c: Config, o: Observer, e: Event): Option<Observer> {
    match e
    case Accepted(entry) =>
      if |o.pending| < c.depth then Some(o.(pending := o.pending + [entry])) else None
    case Arrived(_, _) => Some(o)
    case Received(_) => Some(o)
    case Line(text, fate) => ObserveLine(c, o, text, fate)
    case Started(entry) =>
      if o.active.None? && !o.resetting && o.pending != [] && o.pending[0] == entry
      then Some(o.(active := Some(Active(Writing(CommandTexts(entry)), [], Clock(entry.timeout, 0, false), c.echoCancel))))
      else None
    case Ticked(ms) =>
      if o.active.None? then Some(o)
      else Some(o.(active := Some(o.active.value.(clock := Tock(o.active.value.clock, ms)))))
    case Completed(entry, r) =>
      if o.pending == [] || o.pending[0] != entry then None
      else if (if o.active.None? then o.resetting && r == Response(ErrAborted, 0, []) else Reportable(c, o.active.value, r))
      then Some(o.(pending := o.pending[1..], active := None)) else None
    case ResetCalled =>
      if o.active.None? then Some(o.(resetting := true))
      else if o.active.value.stage != Attending then None
      else Some(o.(active := Some(o.active.value.(stage := Aborting)), resetting := true))
    case WasReset =>
      if o.pending == [] && o.active.None? && o.resetting then Some(NOTHING_YET) else None
    case _ =>
      if o.active.None? then (if e.AbortCalled? then Some(o) else None)
      else
        var a := ObserveActive(c, o.active.value, e);
        if a.None? then None else Some(o.(active := a))
  }

  /** The events that take a command being executed from stage to stage. */
  function ObserveActive(c: Config, a: Active, e: Event): Option<Active> {
    match e
    case Wrote(bytes, ok) =>
      if !a.stage.Writing? || a.stage.texts == [] || a.stage.texts[0] != bytes then None
      else Some(a.(stage := if ok then Writing(a.stage.texts[1..]) else Failed))
    case Listens =>
      if a.stage != Writing([]) then None
      else Some(a.(stage := Attending, clock := a.clock.(running := true)))
    case Rearmed =>
      if !a.stage.Rearming? then None
      else Some(a.(stage := Writing(a.stage.texts), clock := Clock(c.promptTimeout, 0, true)))
    case AbortCalled => if a.stage == Attending then Some(a.(stage := Aborting)) else None
    case _ => None
  }

  function ObserveLine(c: Config, o: Observer, text: string, fate: Fate): Option<Observer> {
    if fate.Unsolicited? then Some(o)
    else if o.active.None? || o.pending == [] then (if fate.Ignored? then Some(o) else None)
    else
      var a, head := o.active.value, o.pending[0];
      var echo := a.echoDue && head.cmd <= CStr(text);
      if a.stage != Attending || echo != fate.Echo? then None
      else match fate
        case Echo => Some(o.(active := Some(a.(echoDue := false))))
        case Prompted =>
          if !IsPrompt(text) then None
          else if BodyTexts(head) == [] then Some(o)
          else Some(o.(active := Some(a.(stage := Rearming(BodyTexts(head))))))
        case Final(status, code) =>
          if IsPrompt(text) || FinalCode(CStr(text)) != Some((status, code)) then None
          else Some(o.(active := Some(a.(stage := Judged(status, code)))))
        case Kept =>
          if IsPrompt(text) || FinalCode(CStr(text)).Some? then None
          else Some(o.(active := Some(a.(kept := a.kept + [text]))))
        case _ => None
  }

  /** The observer after a whole record, if the record follows the protocol. */
  function ObserveAll(c: Config, log: seq<Event>): Option<Observer> {
    if log == [] then Some(NOTHING_YET)
    else
      var before := ObserveAll(c, log[..|log| - 1]);
      if before.None? then None else Observe(c, before.value, log[|log| - 1])
  }

  lemma ObserveSnoc(c: Config, log: seq<Event>, e: Event)
    ensures ObserveAll(c, log + [e])
            == if ObserveAll(c, log).None? then None else Observe(c, ObserveAll(c, log).value, e)
  {
    assert (log + [e])[..|log|] == log;
  }

  lemma {:induction false} ObserveAccepts(c: Config, log: seq<Event>, es: seq<Entry>)
    requires ObserveAll(c, log).Some? && |ObserveAll(c, log).value.pending| + |es| <= c.depth
    ensures var o := ObserveAll(c, log).value;
            ObserveAll(c, log + Accepts(es)) == Some(o.(pending := o.pending + es))
  {
    var o := ObserveAll(c, log).value;
    if es == [] {
      assert log + Accepts(es) == log && o.pending + es == o.pending;
    } else {
      var last := |es| - 1;
      ObserveAccepts(c, log, es[..last]);
      assert log + Accepts(es) == (log + Accepts(es[..last])) + [Accepted(es[last])];
      ObserveSnoc(c, log + Accepts(es[..last]), Accepted(es[last]));
      assert o.pending + es == (o.pending + es[..last]) + [es[last]];
    }
  }

  // ---------------------------------------------------------------- the invariant

  /** The observer knows the engine: its queue, and for a command being executed its response
      lines, its timer and its echo. */
  ghost predicate Knows(c: Config, o: Observer, s: State) {
    && o.pending == s.queue
    && (o.active.Some? ==>
          && s.queue != []
          && s.pool == Take(o.active.value.kept, c.respMax)
          && s.timer == Left(o.active.value.clock)
          && (o.active.value.clock.running <==> s.mode == Waiting || s.mode == Prompt)
          && s.echoArmed == o.active.value.echoDue && (s.echoArmed ==> c.echoCancel && s.echo == s.queue[0].cmd))
  }

  /** The record so far follows the protocol and leaves the observer knowing s, with the command
      being executed, if there is one, at the given stage. */
  ghost predicate Tracked(c: Config, s: State, stage: Option<Stage>, resetting: bool) {
    && Sound(c, s)
    && ObserveAll(c, s.log).Some?
    && var o := ObserveAll(c, s.log).value;
    && Knows(c, o, s)
    && o.resetting == resetting
    && (if stage.Some? then o.active.Some? && o.active.value.stage == stage.value else o.active.None?)
  }

  /** Where a command is between two engine steps. */
  function StageOf(m: Mode): Option<Stage> {
    if m == Waiting then Some(Attending) else None
  }

  /** The invariant of every run. */
  ghost predicate Inv(c: Config, s: State) {
    Ready(c, s) && Tracked(c, s, StageOf(s.mode), false)
  }

  /** How a command at some stage is finished. */
  predicate Outcome(s: State, stage: Stage, status: Status, code: int) {
    match stage
    case Judged(a, b) => status == a && code == b
    case Failed => status == ErrIo && code == 0
    case Aborting => status == ErrAborted && code == 0
    case Attending => status == ErrTimeout && code == 0 && s.mode == Waiting && s.timer == 0
    case _ => false
  }

  lemma ReportTracked(c: Config, s: State, r: Response, stage: Option<Stage>, resetting: bool)
    requires Tracked(c, s, stage, resetting) && s.queue != []
    requires if stage.Some? then Reportable(c, ObserveAll(c, s.log).value.active.value, r)
             else resetting && r == Response(ErrAborted, 0, [])
    ensures Tracked(c, Report(c, s, r), None, resetting)
  {
    var added := ReportEffect(c, s, r);
    var t := Report(c, s, r);
    ObserveSnoc(c, s.log, Completed(s.queue[0], r));
    ObserveAccepts(c, s.log + [Completed(s.queue[0], r)], added);
  }

  lemma FinalizeTracked(c: Config, s: State, status: Status, code: int, stage: Stage, resetting: bool)
    requires Tracked(c, s, Some(stage), resetting) && Outcome(s, stage, status, code)
    ensures var t := Finalize(c, s, status, code);
            Tracked(c, t, None, resetting) && t.mode == Idle && (!resetting ==> Inv(c, t))
  {
    ReportTracked(c, s.(status := status), Response(status, code, s.pool), Some(stage), resetting);
  }

  lemma WriteTracked(c: Config, s: State, bytes: string, rest: seq<string>)
    requires Tracked(c, s, Some(Writing([bytes] + rest)), false)
    ensures var (t, ok) := Write(s, bytes);
            t.queue == s.queue && t.mode == s.mode && Tracked(c, t, Some(if ok then Writing(rest) else Failed), false)
  {
    ObserveSnoc(c, s.log, Wrote(bytes, Write(s, bytes).1));
  }

  lemma ListensTracked(c: Config, s: State)
    requires Tracked(c, s, Some(Writing([])), false)
    ensures Inv(c, s.(mode := Waiting, log := s.log + [Listens]))
  {
    ObserveSnoc(c, s.log, Listens);
  }

  lemma TransmitTracked(c: Config, s: State, first: string, second: string)
    requires Tracked(c, s, Some(Writing([first, second])), false)
    ensures Inv(c, Transmit(c, s, first, second))
  {
    assert [first] + [second] == [first, second] && [second] + [] == [second];
    WriteTracked(c, s, first, [second]);
    var (s1, ok) := Write(s, first);
    if ok {
      WriteTracked(c, s1, second, []);
    }
    var (s2, both) := WriteBoth(s, first, second);
    if both {
      ListensTracked(c, s2);
    } else {
      FinalizeTracked(c, s2, ErrIo, 0, Failed, false);
    }
  }

  lemma StartKeepsInv(c: Config, s: State)
    requires Inv(c, s) && s.mode == Idle && s.queue != []
    ensures Inv(c, StartNext(c, s))
  {
    var e := s.queue[0];
    ObserveSnoc(c, s.log, Started(e));
    var armed := s.(
      pool := [], status := Pending, timer := e.timeout, mode := Sending,
      echo := if c.echoCancel then e.cmd else s.echo, echoArmed := c.echoCancel,
      log := s.log + [Started(e)]);
    TransmitTracked(c, armed, e.cmd, [CR]);
  }

  lemma CallbackKeepsInv(c: Config, s: State)
    requires Inv(c, s)
    ensures Inv(c, Callback(c, s))
  {
    CallbackEffect(c, s);
    SlotsAfterDistinct(c, s.urcs, NextActs(s.world));
    ObserveAccepts(c, s.log, Added(c, s));
    assert Callback(c, s).queue == s.queue + Added(c, s);
  }

  lemma KeepTracked(c: Config, s: State, line: string)
    requires Inv(c, s) && Classify(c, s, line).Kept?
    ensures Inv(c, Keep(c, s.(log := s.log + [Line(line, Kept)]), line))
  {
    ObserveSnoc(c, s.log, Line(line, Kept));
  }

  lemma PromptKeepsInv(c: Config, s: State, line: string)
    requires Inv(c, s) && Classify(c, s, line).Prompted?
    ensures Inv(c, SendBody(c, s.(log := s.log + [Line(line, Prompted)])))
  {
    var e, s1 := s.queue[0], s.(log := s.log + [Line(line, Prompted)]);
    ObserveSnoc(c, s.log, Line(line, Prompted));
    if e.sms && e.hasBody {
      ObserveSnoc(c, s1.log, Rearmed);
      TransmitTracked(c, s1.(mode := Prompt, timer := c.promptTimeout, log := s1.log + [Rearmed]), e.body, ['\U{1A}']);
    }
  }

  lemma DispatchKeepsInv(c: Config, s: State, line: string)
    requires Inv(c, s)
    ensures Inv(c, Dispatch(c, s, line))
  {
    match Classify(c, s, line)
    case Prompted => PromptKeepsInv(c, s, line);
    case Final(_, _) => FinalKeepsInv(c, s, line);
    case Kept => KeepTracked(c, s, line);
    case Unsolicited(_) =>
      QuietLineKeepsInv(c, s, line);
      CallbackKeepsInv(c, s.(log := s.log + [Line(line, Classify(c, s, line))]));
    case Echo => EchoKeepsInv(c, s, line);
    case Ignored => QuietLineKeepsInv(c, s, line);
  }

  lemma FinalIsJudged(c: Config, s: State, line: string)
    requires Inv(c, s) && Classify(c, s, line).Final?
    ensures var fate := Classify(c, s, line);
            Tracked(c, s.(log := s.log + [Line(line, fate)]), Some(Judged(fate.status, fate.code)), false)
  {
    ObserveSnoc(c, s.log, Line(line, Classify(c, s, line)));
  }

  lemma FinalKeepsInv(c: Config, s: State, line: string)
    requires Inv(c, s) && Classify(c, s, line).Final?
    ensures Inv(c, Dispatch(c, s, line))
  {
    var fate := Classify(c, s, line);
    FinalIsJudged(c, s, line);
    FinalizeTracked(c, s.(log := s.log + [Line(line, fate)]), fate.status, fate.code, Judged(fate.status, fate.code), false);
  }

  lemma EchoKeepsInv(c: Config, s: State, line: string)
    requires Inv(c, s) && Classify(c, s, line).Echo?
    ensures Inv(c, Dispatch(c, s, line))
  {
    ObserveSnoc(c, s.log, Line(line, Echo));
  }

  /** A line for a handler or for nobody says nothing about the command. */
  lemma QuietLineKeepsInv(c: Config, s: State, line: string)
    requires Inv(c, s)
    requires var fate := Classify(c, s, line); fate.Ignored? || fate.Unsolicited?
    ensures Inv(c, s.(log := s.log + [Line(line, Classify(c, s, line))]))
  {
    ObserveSnoc(c, s.log, Line(line, Classify(c, s, line)));
  }

  lemma PopKeepsInv(c: Config, s: State)
    requires Inv(c, s)
    ensures Inv(c, PopByte(c, s))
  {
    if s.rx != "" {
      LineFsm.StepConsistent(s.fsm, s.rx[0], c.lineMax);
      ObserveSnoc(c, s.log, Received(s.rx[0]));
      var (fsm, line) := LineFsm.Step(s.fsm, s.rx[0], c.lineMax);
      var s1 := s.(rx := s.rx[1..], log := s.log + [Received(s.rx[0])]);
      if line.Some? {
        DispatchKeepsInv(c, s1, line.value);
      }
    }
  }

  lemma LeftAfter(k: Clock, ms: nat)
    ensures Left(Tock(k, ms)) == if !k.running then Left(k) else if Left(k) <= ms then 0 else Left(k) - ms
  {
  }

  lemma StageTicks(c: Config, s: State, ms: nat)
    requires Sound(c, s) && ObserveAll(c, s.log).Some? && Knows(c, ObserveAll(c, s.log).value, s)
    ensures var t, o := Tick(s, ms), ObserveAll(c, s.log).value;
            && Sound(c, t) && ObserveAll(c, t.log).Some? && Knows(c, ObserveAll(c, t.log).value, t)
            && var p := ObserveAll(c, t.log).value;
            && p.resetting == o.resetting && (o.active.None? <==> p.active.None?)
            && (o.active.Some? ==> p.active.value.stage == o.active.value.stage)
  {
    ObserveSnoc(c, s.log, Ticked(ms));
    KnowsTick(c, ObserveAll(c, s.log).value, s, ms);
  }

  /** A tick at whatever stage moves the observer's clock and the timer alike. */
  lemma TickTracked(c: Config, s: State, ms: nat, stage: Option<Stage>, resetting: bool)
    requires Tracked(c, s, stage, resetting)
    ensures Tracked(c, Tick(s, ms), stage, resetting)
  {
    StageTicks(c, s, ms);
  }

  lemma KnowsTick(c: Config, o: Observer, s: State, ms: nat)
    requires Knows(c, o, s)
    ensures var p := Observe(c, o, Ticked(ms));
            && p.Some? && Knows(c, p.value, Tick(s, ms)) && p.value.resetting == o.resetting
            && (o.active.None? <==> p.value.active.None?)
            && (o.active.Some? ==> p.value.active.value.stage == o.active.value.stage)
  {
    if o.active.Some? {
      LeftAfter(o.active.value.clock, ms);
    }
  }

  lemma TickKeepsInv(c: Config, s: State, ms: nat)
    requires Inv(c, s)
    ensures Inv(c, Tick(s, ms))
  {
    TickTracked(c, s, ms, StageOf(s.mode), false);
  }

  lemma {:induction false} AbortAllTracked(c: Config, s: State)
    requires Tracked(c, s, None, true)
    ensures var t := AbortAll(c, s); Tracked(c, t, None, true) && t.queue == []
    decreases |s.queue| + SendsLeft(s.world)
  {
    if s.queue != [] {
      var r := Response(ErrAborted, 0, []);
      ReportShrinks(c, s, r);
      ReportTracked(c, s, r, None, true);
      AbortAllTracked(c, Report(c, s, r));
    }
  }

  lemma AbortCallTracked(c: Config, s: State)
    requires Inv(c, s)
    ensures Tracked(c, s.(log := s.log + [AbortCalled]), if s.mode == Waiting then Some(Aborting) else None, false)
  {
    ObserveSnoc(c, s.log, AbortCalled);
  }

  /** at_abort while a command is being executed. */
  lemma AbortKeepsInv(c: Config, s: State)
    requires Inv(c, s)
    ensures Inv(c, Abort(c, s))
  {
    AbortCallTracked(c, s);
    if s.mode == Waiting {
      FinalizeTracked(c, s.(log := s.log + [AbortCalled]), ErrAborted, 0, Aborting, false);
    }
  }

  lemma ResetFirstTracked(c: Config, s: State)
    requires Inv(c, s)
    ensures Tracked(c, ResetFirst(c, s), None, true) && ResetFirst(c, s).mode == Idle
  {
    ResetCallTracked(c, s);
    if s.mode != Idle {
      FinalizeTracked(c, s.(log := s.log + [ResetCalled]), ErrAborted, 0, Aborting, true);
    }
  }

  lemma ResetCallTracked(c: Config, s: State)
    requires Inv(c, s)
    ensures Tracked(c, s.(log := s.log + [ResetCalled]), if s.mode == Waiting then Some(Aborting) else None, true)
  {
    ObserveSnoc(c, s.log, ResetCalled);
  }

  lemma ResetKeepsInv(c: Config, s: State)
    requires Inv(c, s)
    ensures Inv(c, Reset(c, s))
  {
    ResetFirstTracked(c, s);
    ResetLastKeepsInv(c, ResetFirst(c, s));
  }

  lemma ResetLastKeepsInv(c: Config, s: State)
    requires s.mode == Idle && Tracked(c, s, None, true)
    ensures Inv(c, ResetLast(c, s))
  {
    AbortAllTracked(c, s);
    ObserveSnoc(c, AbortAll(c, s).log, WasReset);
  }

  lemma ActKeepsInv(c: Config, s: State, a: Act)
    requires Inv(c, s)
    ensures Inv(c, DoAct(c, s, a))
  {
    match a
    case Send(d) =>
      if SendCheck(c, d, |s.queue|) == Ok {
        ObserveSnoc(c, s.log, Accepted(MakeEntry(c, d)));
      }
    case Register(p, h) =>
      if p.Some? && h.Some? { RegisterRefines(s.urcs, c.lineMax, p.value, h.value); }
    case Deregister(p) =>
      if p.Some? { DeregisterRefines(s.urcs, c.lineMax, p.value); }
  }

  lemma ArrivalKeepsInv(c: Config, s: State, b: char)
    requires Inv(c, s)
    ensures Inv(c, FeedByte(c, s, b))
  {
    ObserveSnoc(c, s.log, Arrived(b, |s.rx| < c.rxSize));
  }

  lemma TimeoutKeepsInv(c: Config, s: State)
    requires Inv(c, s)
    ensures Inv(c, CheckTimeout(c, s))
  {
    if s.mode == Waiting && s.timer == 0 {
      FinalizeTracked(c, s, ErrTimeout, 0, Attending, false);
    }
  }

  lemma StartIfIdleKeepsInv(c: Config, s: State)
    requires Inv(c, s)
    ensures Inv(c, StartIfIdle(c, s))
  {
    if s.mode == Idle && s.queue != [] {
      StartKeepsInv(c, s);
    }
  }

  lemma StepKeepsInv(c: Config, s: State, step: Step)
    requires Inv(c, s)
    ensures Inv(c, Apply(c, s, step))
  {
    match step
    case SendStep(d) => ActKeepsInv(c, s, Send(d));
    case FeedByteStep(b) => ArrivalKeepsInv(c, s, b);
    case TickStep(ms) => TickKeepsInv(c, s, ms);
    case PopByteStep => PopKeepsInv(c, s);
    case CheckTimeoutStep => TimeoutKeepsInv(c, s);
    case StartIfIdleStep => StartIfIdleKeepsInv(c, s);
    case AbortStep => AbortKeepsInv(c, s);
    case ResetStep => ResetKeepsInv(c, s);
    case RegisterStep(p, h) => ActKeepsInv(c, s, Register(p, h));
    case DeregisterStep(p) => ActKeepsInv(c, s, Deregister(p));
  }

  /** A run from power-up in a world. */
  function Run(c: Config, world: World, steps: seq<Step>): (s: State)
    requires ConfigOk(c)
    ensures Inv(c, s)
  {
    if steps == [] then
      Init(c, world)
    else
      StepKeepsInv(c, Run(c, world, steps[..|steps| - 1]), steps[|steps| - 1]);
      Apply(c, Run(c, world, steps[..|steps| - 1]), steps[|steps| - 1])
  }

  // ---------------------------------------------------------------- what a step leaves alone

  /** Events that concern neither bytes nor lines nor resets. */
  predicate Quiet(e: Event) {
    !e.Arrived? && !e.Received? && !e.Line? && !e.WasReset?
  }

  ghost predicate AllQuiet(es: seq<Event>) {
    forall i :: 0 <= i < |es| ==> Quiet(es[i])
  }

  /** From s to t nothing was received, and only quiet events were recorded. */
  ghost predicate Silent(s: State, t: State) {
    && t.rx == s.rx && t.fsm == s.fsm
    && |s.log| <= |t.log| && t.log[..|s.log|] == s.log && AllQuiet(t.log[|s.log|..])
  }

  lemma SilentAppend(s: State, t: State, es: seq<Event>)
    requires t.rx == s.rx && t.fsm == s.fsm && t.log == s.log + es && AllQuiet(es)
    ensures Silent(s, t)
  {
    assert t.log[|s.log|..] == es;
  }

  lemma SilentChain(s: State, t: State, u: State)
    requires Silent(s, t) && Silent(t, u)
    ensures Silent(s, u)
  {
    assert u.log == s.log + (t.log[|s.log|..] + u.log[|t.log|..]);
    SilentAppend(s, u, t.log[|s.log|..] + u.log[|t.log|..]);
  }

  lemma ReportSilent(c: Config, s: State, r: Response)
    requires ConfigOk(c) && s.queue != []
    ensures Silent(s, Report(c, s, r))
  {
    var added := ReportEffect(c, s, r);
    assert s.log + [Completed(s.queue[0], r)] + Accepts(added) == s.log + ([Completed(s.queue[0], r)] + Accepts(added));
    SilentAppend(s, Report(c, s, r), [Completed(s.queue[0], r)] + Accepts(added));
  }

  lemma FinalizeSilent(c: Config, s: State, status: Status, code: int)
    requires ConfigOk(c) && s.queue != []
    ensures Silent(s, Finalize(c, s, status, code))
  {
    var s1 := s.(status := status);
    ReportSilent(c, s1, Response(status, code, s.pool));
    assert Silent(s, Finalize(c, s, status, code)) by {
      assert Finalize(c, s, status, code).log == Report(c, s1, Response(status, code, s.pool)).log;
    }
  }

  lemma TransmitSilent(c: Config, s: State, first: string, second: string)
    requires ConfigOk(c) && s.queue != []
    ensures Silent(s, Transmit(c, s, first, second))
  {
    var (s1, ok) := WriteBoth(s, first, second);
    var es := s1.log[|s.log|..];
    assert s1.log == s.log + es && AllQuiet(es);
    SilentAppend(s, s1, es);
    if !ok {
      FinalizeSilent(c, s1, ErrIo, 0);
      SilentChain(s, s1, Finalize(c, s1, ErrIo, 0));
    }
  }

  lemma StartSilent(c: Config, s: State)
    requires ConfigOk(c) && s.queue != []
    ensures Silent(s, StartNext(c, s))
  {
    var e := s.queue[0];
    var armed := s.(
      pool := [], status := Pending, timer := e.timeout, mode := Sending,
      echo := if c.echoCancel then e.cmd else s.echo, echoArmed := c.echoCancel,
      log := s.log + [Started(e)]);
    SilentAppend(s, armed, [Started(e)]);
    TransmitSilent(c, armed, e.cmd, [CR]);
    SilentChain(s, armed, StartNext(c, s));
  }

  lemma CallbackSilent(c: Config, s: State)
    requires ConfigOk(c)
    ensures Silent(s, Callback(c, s))
  {
    CallbackEffect(c, s);
    SilentAppend(s, Callback(c, s), Accepts(Added(c, s)));
  }

  /** Dispatching a line records it, then does quiet things only. */
  lemma DispatchSilent(c: Config, s: State, line: string)
    requires ConfigOk(c) && (s.mode == Waiting ==> s.queue != [])
    ensures Silent(s.(log := s.log + [Line(line, Classify(c, s, line))]), Dispatch(c, s, line))
  {
    var fate := Classify(c, s, line);
    var s1 := s.(log := s.log + [Line(line, fate)]);
    SilentAppend(s1, s1, []);
    match fate
    case Prompted =>
      if s.queue[0].sms && s.queue[0].hasBody {
        var p := s1.(mode := Prompt, timer := c.promptTimeout, log := s1.log + [Rearmed]);
        SilentAppend(s1, p, [Rearmed]);
        TransmitSilent(c, p, s.queue[0].body, ['\U{1A}']);
        SilentChain(s1, p, Transmit(c, p, s.queue[0].body, ['\U{1A}']));
      }
    case Final(status, code) => FinalizeSilent(c, s1, status, code);
    case Unsolicited(_) => CallbackSilent(c, s1);
    case _ =>
  }

  lemma {:induction false} AbortAllSilent(c: Config, s: State)
    requires ConfigOk(c)
    ensures Silent(s, AbortAll(c, s))
    decreases |s.queue| + SendsLeft(s.world)
  {
    if s.queue == [] {
      SilentAppend(s, s, []);
    } else {
      var r := Response(ErrAborted, 0, []);
      ReportShrinks(c, s, r);
      ReportSilent(c, s, r);
      AbortAllSilent(c, Report(c, s, r));
      SilentChain(s, Report(c, s, r), AbortAll(c, s));
    }
  }

  // ---------------------------------------------------------------- at_feed as a whole

  /** The record of bytes that arrive when n are in a ring of the given size. */
  function Arrivals(data: string, n: nat, size: nat): seq<Event> {
    seq(|data|, i requires 0 <= i < |data| => Arrived(data[i], n + i < size))
  }

  lemma FirstArrival(data: string, n: nat, size: nat)
    requires data != "" && n <= size
    ensures Arrivals(data, n, size)
            == [Arrived(data[0], n < size)] + Arrivals(data[1..], if n < size then n + 1 else n, size)
  {
  }

  /** Of the bytes fed those that find room join the ring in order, and the others are dropped. */
  lemma {:induction false} FeedFills(c: Config, s: State, data: string)
    requires |s.rx| <= c.rxSize
    ensures Feed(c, s, data)
            == s.(rx := Take(s.rx + data, c.rxSize), log := s.log + Arrivals(data, |s.rx|, c.rxSize))
    decreases |data|
  {
    if data == "" {
      assert s.rx + data == s.rx && s.log + Arrivals(data, |s.rx|, c.rxSize) == s.log;
    } else {
      var u := FeedByte(c, s, data[0]);
      FeedFills(c, u, data[1..]);
      FirstArrival(data, |s.rx|, c.rxSize);
      TakeAppend(s.rx + [data[0]], data[1..], c.rxSize);
      assert [data[0]] + data[1..] == data;
      Rebracket(s.rx, [data[0]], data[1..]);
      Rebracket(s.log, [Arrived(data[0], |s.rx| < c.rxSize)], Arrivals(data[1..], |u.rx|, c.rxSize));
    }
  }

  lemma Rebracket<T>(a: seq<T>, b: seq<T>, d: seq<T>)
    ensures (a + b) + d == a + (b + d)
  {
  }

  // ---------------------------------------------------------------- at_process as a whole

  lemma PopConsumes(c: Config, s: State)
    requires ConfigOk(c) && (s.mode == Waiting ==> s.queue != []) && s.rx != ""
    ensures PopByte(c, s).rx == s.rx[1..]
  {
    var (fsm, line) := LineFsm.Step(s.fsm, s.rx[0], c.lineMax);
    var s1 := s.(rx := s.rx[1..], log := s.log + [Received(s.rx[0])]);
    if line.Some? {
      DispatchSilent(c, s1, line.value);
    }
  }

  /** The draining loop. */
  function Drain(c: Config, s: State): (t: State)
    requires Inv(c, s)
    ensures Inv(c, t) && t.rx == ""
    decreases |s.rx|
  {
    if s.rx == "" then s
    else
      PopKeepsInv(c, s);
      PopConsumes(c, s);
      Drain(c, PopByte(c, s))
  }

  function Process(c: Config, s: State): (t: State)
    requires Inv(c, s)
    ensures Inv(c, t)
  {
    var drained := Drain(c, s);
    StepKeepsInv(c, drained, CheckTimeoutStep);
    var checked := Apply(c, drained, CheckTimeoutStep);
    StepKeepsInv(c, checked, StartIfIdleStep);
    Apply(c, checked, StartIfIdleStep)
  }

  function ApplyAll(c: Config, s: State, steps: seq<Step>): (t: State)
    requires Inv(c, s)
    ensures Inv(c, t)
    decreases |steps|
  {
    if steps == [] then s
    else
      StepKeepsInv(c, s, steps[0]);
      ApplyAll(c, Apply(c, s, steps[0]), steps[1..])
  }

  /** at_process is one particular sequence of steps, so whatever holds of all runs holds of runs
      made of whole calls. */
  lemma ProcessIsSteps(c: Config, s: State)
    requires Inv(c, s)
    ensures Process(c, s) == ApplyAll(c, s, seq(|s.rx|, _ => PopByteStep) + [CheckTimeoutStep, StartIfIdleStep])
  {
    DrainIsSteps(c, s, [CheckTimeoutStep, StartIfIdleStep]);
    ApplyTwo(c, Drain(c, s), CheckTimeoutStep, StartIfIdleStep);
  }

  lemma ApplyTwo(c: Config, s: State, a: Step, b: Step)
    requires Inv(c, s)
    ensures Inv(c, Apply(c, s, a))
    ensures ApplyAll(c, s, [a, b]) == Apply(c, Apply(c, s, a), b)
  {
    StepKeepsInv(c, s, a);
    StepKeepsInv(c, Apply(c, s, a), b);
    var s1 := Apply(c, s, a);
    assert [a, b][1..] == [b] && [b][1..] == [];
    assert ApplyAll(c, s, [a, b]) == ApplyAll(c, s1, [b]);
    assert ApplyAll(c, s1, [b]) == ApplyAll(c, Apply(c, s1, b), []);
  }

  lemma ApplyFirst(c: Config, s: State, step: Step, rest: seq<Step>)
    requires Inv(c, s)
    ensures Inv(c, Apply(c, s, step))
    ensures ApplyAll(c, s, [step] + rest) == ApplyAll(c, Apply(c, s, step), rest)
  {
    StepKeepsInv(c, s, step);
    assert ([step] + rest)[1..] == rest;
  }

  lemma FirstPop(n: nat, rest: seq<Step>)
    requires n > 0
    ensures seq(n, _ => PopByteStep) + rest == [PopByteStep] + (seq(n - 1, _ => PopByteStep) + rest)
  {
  }

  lemma {:induction false} DrainIsSteps(c: Config, s: State, rest: seq<Step>)
    requires Inv(c, s)
    ensures ApplyAll(c, s, seq(|s.rx|, _ => PopByteStep) + rest) == ApplyAll(c, Drain(c, s), rest)
    decreases |s.rx|
  {
    var pops := seq(|s.rx|, _ => PopByteStep);
    if s.rx == "" {
      assert pops + rest == rest;
    } else {
      PopKeepsInv(c, s);
      PopConsumes(c, s);
      DrainIsSteps(c, PopByte(c, s), rest);
      FirstPop(|s.rx|, rest);
      ApplyFirst(c, s, PopByteStep, seq(|s.rx| - 1, _ => PopByteStep) + rest);
    }
  }
}
