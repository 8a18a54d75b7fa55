/** The engine one access to shared memory at a time. The interrupts share the ring, the state and the
    timer with the task; here they may strike between any two of the task's accesses to these, and
    before, between and after the platform writes. */
module EngineInterrupts {
  import opened Common
  import opened EngineTypes
  import opened EngineSpec
  import opened EngineRuns
  import opened UrcTable
  import LineFsm

  /** What the task does next. The flag `reset` says that at_reset is at work. */
  datatype Pc =
    | Top                                             // between engine functions
    | EnterSending                                    // engine_start_next has set the timer
    | EnterPrompt                                     // a prompt line was recognised
    | SetPromptTimer                                  // the state is PROMPT
    | WriteFirst(first: string, second: string)
    | WriteSecond(second: string)
    | EnterWaiting                                    // everything is written
    | Finish(status: Status, code: int, reset: bool)  // engine_finalize is called
    | InCallback(acts: seq<Act>, reset: bool)         // the engine calls that its callback still makes
    | EnterIdle(reset: bool)                          // the command has been dequeued
    | ClearTimer(reset: bool)                         // the state is IDLE
    | ResetRest                                       // at_reset has no active command any more
    | InHandler(acts: seq<Act>)                       // the engine calls that a URC handler still makes

  datatype Machine = Machine(s: State, pc: Pc)

  /** Either something happens that the steps of a run name, or the task goes on. */
  datatype Move = Call(step: Step) | Continue

  /** A step of the interrupts. */
  predicate Interrupt(step: Step) {
    step.FeedByteStep? || step.TickStep?
  }

  /** The head of the queue is there when it is needed. */
  predicate HasHead(m: Machine) {
    match m.pc
    case Top => m.s.mode == Waiting || m.s.mode == Prompt ==> m.s.queue != []
    case InHandler(_) => m.s.mode == Waiting || m.s.mode == Prompt ==> m.s.queue != []
    case EnterIdle(_) => true
    case ClearTimer(_) => m.s.mode == Idle
    case ResetRest => true
    case _ => m.s.queue != []
  }

  // ---------------------------------------------------------------- moves

  function Next(c: Config, m: Machine, move: Move): Machine
    requires ConfigOk(c) && HasHead(m)
  {
    match move
    case Call(step) =>
      if Interrupt(step) then m.(s := if step.FeedByteStep? then FeedByte(c, m.s, step.b) else Tick(m.s, step.ms))
      else if m.pc != Top then m
      else Begin(c, m.s, step)
    case Continue => Proceed(c, m)
  }

  /** The task enters an engine function, up to its first access to what the interrupts share. */
  function Begin(c: Config, s: State, step: Step): Machine
    requires ConfigOk(c) && (s.mode == Waiting || s.mode == Prompt ==> s.queue != [])
  {
    match step
    case PopByteStep => if s.rx == "" then Machine(s, Top) else BeginPop(c, s)
    case CheckTimeoutStep =>
      Machine(s, if (s.mode == Waiting || s.mode == Prompt) && s.timer == 0 then Finish(ErrTimeout, 0, false) else Top)
    case StartIfIdleStep => if s.mode == Idle && s.queue != [] then BeginStart(c, s) else Machine(s, Top)
    case AbortStep =>
      Machine(s.(log := s.log + [AbortCalled]),
              if s.mode == Waiting || s.mode == Prompt then Finish(ErrAborted, 0, false) else Top)
    case ResetStep =>
      Machine(s.(log := s.log + [ResetCalled]),
              if s.mode != Idle && s.queue != [] then Finish(ErrAborted, 0, true) else ResetRest)
    case _ => Machine(Apply(c, s, step), Top)
  }

  function BeginStart(c: Config, s: State): Machine
    requires s.queue != []
  {
    var e := s.queue[0];
    Machine(s.(pool := [], status := Pending, timer := e.timeout,
               echo := if c.echoCancel then e.cmd else s.echo, echoArmed := c.echoCancel,
               log := s.log + [Started(e)]),
            EnterSending)
  }

  /** A byte is taken and, if it ends a line, the line is classified. */
  function BeginPop(c: Config, s: State): Machine
    requires ConfigOk(c) && (s.mode == Waiting || s.mode == Prompt ==> s.queue != []) && s.rx != ""
  {
    var (fsm, line) := LineFsm.Step(s.fsm, s.rx[0], c.lineMax);
    var s1 := s.(rx := s.rx[1..], fsm := fsm, log := s.log + [Received(s.rx[0])]);
    if line.None? then Machine(s1, Top) else BeginLine(c, s1, line.value)
  }

  function BeginLine(c: Config, s: State, line: string): Machine
    requires ConfigOk(c) && (s.mode == Waiting || s.mode == Prompt ==> s.queue != [])
  {
    var fate := Classify(c, s, line);
    var s1 := s.(log := s.log + [Line(line, fate)]);
    match fate
    case Prompted => Machine(s1, if BodyTexts(s.queue[0]) != [] then EnterPrompt else Top)
    case Final(status, code) => Machine(s1, Finish(status, code, false))
    case Unsolicited(_) => Machine(s1.(world := Later(s.world)), InHandler(NextActs(s.world)))
    case _ => Machine(Use(c, s1, line, fate), Top)
  }

  /** One access, write or engine call in the middle of an engine function. */
  function Proceed(c: Config, m: Machine): Machine
    requires ConfigOk(c) && HasHead(m)
  {
    var s := m.s;
    match m.pc
    case Top => m
    case EnterSending => Machine(s.(mode := Sending), WriteFirst(s.queue[0].cmd, [CR]))
    case EnterPrompt => Machine(s.(mode := Prompt), SetPromptTimer)
    case SetPromptTimer =>
      Machine(s.(timer := c.promptTimeout, log := s.log + [Rearmed]), WriteFirst(s.queue[0].body, ['\U{1A}']))
    case WriteFirst(first, second) =>
      var (t, ok) := Write(s, first);
      Machine(t, if ok then WriteSecond(second) else Finish(ErrIo, 0, false))
    case WriteSecond(second) =>
      var (t, ok) := Write(s, second);
      Machine(t, if ok then EnterWaiting else Finish(ErrIo, 0, false))
    case EnterWaiting => Machine(s.(mode := Waiting, log := s.log + [Listens]), Top)
    case Finish(status, code, reset) => CallBack(s, status, code, reset)
    case InCallback(acts, reset) =>
      if acts == [] then Machine(s.(queue := s.queue[1..]), EnterIdle(reset))
      else Machine(DoAct(c, s, acts[0]), InCallback(acts[1..], reset))
    case EnterIdle(reset) => Machine(s.(mode := Idle), ClearTimer(reset))
    case ClearTimer(reset) => Machine(s.(timer := 0, echoArmed := false), if reset then ResetRest else Top)
    case ResetRest => Machine(ResetLast(c, s), Top)
    case InHandler(acts) =>
      if acts == [] then Machine(s, Top) else Machine(DoAct(c, s, acts[0]), InHandler(acts[1..]))
  }

  /** The response is complete and the callback is entered, if there is one. */
  function CallBack(s: State, status: Status, code: int, reset: bool): Machine
    requires s.queue != []
  {
    var told := s.(status := status, log := s.log + [Completed(s.queue[0], Response(status, code, s.pool))]);
    if s.queue[0].cb.None? then Machine(told, InCallback([], reset))
    else Machine(told.(world := Later(s.world)), InCallback(NextActs(s.world), reset))
  }

  // ---------------------------------------------------------------- the invariant

  /** The command is about to be reported as its stage demands. */
  ghost predicate Finishing(c: Config, s: State, status: Status, code: int, reset: bool) {
    && Sound(c, s) && ObserveAll(c, s.log).Some?
    && var o := ObserveAll(c, s.log).value;
    && Knows(c, o, s) && o.resetting == reset
    && o.active.Some? && Outcome(s, o.active.value.stage, status, code)
  }

  /** The head of the queue has been reported and is still there. */
  ghost predicate Told(c: Config, s: State, reset: bool) {
    && Sound(c, s) && s.queue != []
    && ObserveAll(c, s.log) == Some(Observer(s.queue[1..], None, reset))
  }

  predicate Transmits(m: Mode) {
    m == Sending || m == Prompt
  }

  /** What holds between any two accesses. */
  ghost predicate Always(c: Config, m: Machine) {
    HasHead(m) && match m.pc
    case Top => Inv(c, m.s)
    case InHandler(_) => Inv(c, m.s)
    case EnterSending => m.s.mode == Idle && Tracked(c, m.s, Some(Writing(CommandTexts(m.s.queue[0]))), false)
    case EnterPrompt =>
      m.s.mode == Waiting && m.s.queue[0].sms && m.s.queue[0].hasBody
      && Tracked(c, m.s, Some(Rearming(BodyTexts(m.s.queue[0]))), false)
    case SetPromptTimer =>
      m.s.mode == Prompt && m.s.queue[0].sms && m.s.queue[0].hasBody
      && Tracked(c, m.s, Some(Rearming(BodyTexts(m.s.queue[0]))), false)
    case WriteFirst(first, second) => Transmits(m.s.mode) && Tracked(c, m.s, Some(Writing([first, second])), false)
    case WriteSecond(second) => Transmits(m.s.mode) && Tracked(c, m.s, Some(Writing([second])), false)
    case EnterWaiting => Transmits(m.s.mode) && Tracked(c, m.s, Some(Writing([])), false)
    case Finish(status, code, reset) => Finishing(c, m.s, status, code, reset)
    case InCallback(_, reset) => Told(c, m.s, reset)
    case EnterIdle(reset) => Tracked(c, m.s, None, reset)
    case ClearTimer(reset) => m.s.mode == Idle && Tracked(c, m.s, None, reset)
    case ResetRest => m.s.mode == Idle && Tracked(c, m.s, None, true)
  }

  /** A tick of the timer interrupt, wherever the task stands. */
  lemma TickAlways(c: Config, m: Machine, ms: nat)
    requires Always(c, m)
    ensures Always(c, m.(s := Tick(m.s, ms)))
  {
    if m.pc.InCallback? {
      ObserveSnoc(c, m.s.log, Ticked(ms));
    } else {
      StageTicks(c, m.s, ms);
    }
  }

  /** A byte from the receive interrupt, wherever the task stands. */
  lemma ArrivalAlways(c: Config, m: Machine, b: char)
    requires Always(c, m)
    ensures Always(c, m.(s := FeedByte(c, m.s, b)))
  {
    var s, t := m.s, FeedByte(c, m.s, b);
    ArrivalUnseen(c, s, b);
    match m.pc
    case Top => ArrivalKeepsInv(c, s, b);
    case InHandler(_) => ArrivalKeepsInv(c, s, b);
    case Finish(status, code, reset) => assert Finishing(c, t, status, code, reset);
    case InCallback(_, reset) => assert Told(c, t, reset);
    case _ =>
  }

  lemma ArrivalUnseen(c: Config, s: State, b: char)
    requires Sound(c, s) && ObserveAll(c, s.log).Some?
    ensures var t := FeedByte(c, s, b);
            && Sound(c, t) && ObserveAll(c, t.log) == ObserveAll(c, s.log)
            && (Knows(c, ObserveAll(c, s.log).value, t) <==> Knows(c, ObserveAll(c, s.log).value, s))
  {
    ObserveSnoc(c, s.log, Arrived(b, |s.rx| < c.rxSize));
  }

  lemma BeginLineAlways(c: Config, s: State, line: string)
    requires Inv(c, s)
    ensures Always(c, BeginLine(c, s, line))
  {
    var fate := Classify(c, s, line);
    match fate
    case Prompted => PromptAlways(c, s, line);
    case Final(_, _) => FinalAlways(c, s, line);
    case Echo => EchoKeepsInv(c, s, line);
    case Ignored => QuietLineKeepsInv(c, s, line);
    case Unsolicited(_) => HandlerAlways(c, s, line);
    case Kept => KeepTracked(c, s, line);
  }

  lemma HandlerAlways(c: Config, s: State, line: string)
    requires Inv(c, s) && Classify(c, s, line).Unsolicited?
    ensures Always(c, BeginLine(c, s, line))
  {
    QuietLineKeepsInv(c, s, line);
  }

  lemma PromptAlways(c: Config, s: State, line: string)
    requires Inv(c, s) && Classify(c, s, line).Prompted?
    ensures Always(c, BeginLine(c, s, line))
  {
    ObserveSnoc(c, s.log, Line(line, Prompted));
  }

  lemma FinalAlways(c: Config, s: State, line: string)
    requires Inv(c, s) && Classify(c, s, line).Final?
    ensures Always(c, BeginLine(c, s, line))
  {
    FinalIsJudged(c, s, line);
  }

  lemma BeginPopAlways(c: Config, s: State)
    requires Inv(c, s) && s.rx != ""
    ensures Always(c, BeginPop(c, s))
  {
    LineFsm.StepConsistent(s.fsm, s.rx[0], c.lineMax);
    ObserveSnoc(c, s.log, Received(s.rx[0]));
    var (fsm, line) := LineFsm.Step(s.fsm, s.rx[0], c.lineMax);
    var s1 := s.(rx := s.rx[1..], fsm := fsm, log := s.log + [Received(s.rx[0])]);
    if line.Some? {
      BeginLineAlways(c, s1, line.value);
    }
  }

  lemma BeginStartAlways(c: Config, s: State)
    requires Inv(c, s) && s.mode == Idle && s.queue != []
    ensures Always(c, BeginStart(c, s))
  {
    ObserveSnoc(c, s.log, Started(s.queue[0]));
  }

  lemma BeginAlways(c: Config, s: State, step: Step)
    requires Inv(c, s) && !Interrupt(step)
    ensures Always(c, Begin(c, s, step))
  {
    match step
    case PopByteStep => if s.rx != "" { BeginPopAlways(c, s); }
    case CheckTimeoutStep =>
    case StartIfIdleStep => if s.mode == Idle && s.queue != [] { BeginStartAlways(c, s); }
    case AbortStep => AbortCallAlways(c, s);
    case ResetStep => ResetCallAlways(c, s);
    case _ => StepKeepsInv(c, s, step);
  }

  lemma AbortCallAlways(c: Config, s: State)
    requires Inv(c, s)
    ensures Always(c, Begin(c, s, AbortStep))
  {
    AbortCallTracked(c, s);
  }

  lemma ResetCallAlways(c: Config, s: State)
    requires Inv(c, s)
    ensures Always(c, Begin(c, s, ResetStep))
  {
    ResetCallTracked(c, s);
  }

  lemma CallBackAlways(c: Config, s: State, status: Status, code: int, reset: bool)
    requires Finishing(c, s, status, code, reset) && s.queue != []
    ensures Always(c, CallBack(s, status, code, reset))
  {
    ReportedIsTold(c, s.(status := status), Response(status, code, s.pool), reset);
  }

  lemma ReportedIsTold(c: Config, s: State, r: Response, reset: bool)
    requires Finishing(c, s, r.status, r.errorCode, reset) && s.queue != [] && r.lines == s.pool
    ensures Told(c, s.(log := s.log + [Completed(s.queue[0], r)]), reset)
  {
    ObserveSnoc(c, s.log, Completed(s.queue[0], r));
  }

  lemma CallAlways(c: Config, s: State, a: Act, reset: bool)
    requires Told(c, s, reset)
    ensures Told(c, DoAct(c, s, a), reset)
  {
    match a
    case Send(d) =>
      if SendCheck(c, d, |s.queue|) == Ok {
        ObserveSnoc(c, s.log, Accepted(MakeEntry(c, d)));
        assert (s.queue + [MakeEntry(c, d)])[1..] == s.queue[1..] + [MakeEntry(c, d)];
      }
    case Register(p, h) =>
      if p.Some? && h.Some? { RegisterRefines(s.urcs, c.lineMax, p.value, h.value); }
    case Deregister(p) =>
      if p.Some? { DeregisterRefines(s.urcs, c.lineMax, p.value); }
  }

  lemma WriteAlways(c: Config, m: Machine)
    requires Always(c, m) && (m.pc.WriteFirst? || m.pc.WriteSecond?)
    ensures Always(c, Proceed(c, m))
  {
    match m.pc
    case WriteFirst(first, second) =>
      assert [first] + [second] == [first, second];
      WriteTracked(c, m.s, first, [second]);
    case WriteSecond(second) =>
      assert [second] + [] == [second];
      WriteTracked(c, m.s, second, []);
  }

  lemma RearmAlways(c: Config, m: Machine)
    requires Always(c, m) && m.pc.SetPromptTimer?
    ensures Always(c, Proceed(c, m))
  {
    ObserveSnoc(c, m.s.log, Rearmed);
  }

  lemma FinishAlways(c: Config, m: Machine)
    requires Always(c, m) && (m.pc.Finish? || m.pc.InCallback? || m.pc.EnterIdle? || m.pc.ClearTimer?)
    ensures Always(c, Proceed(c, m))
  {
    match m.pc
    case Finish(status, code, reset) => CallBackAlways(c, m.s, status, code, reset);
    case InCallback(acts, reset) => if acts != [] { CallAlways(c, m.s, acts[0], reset); }
    case _ =>
  }

  lemma ProceedAlways(c: Config, m: Machine)
    requires Always(c, m)
    ensures Always(c, Proceed(c, m))
  {
    match m.pc
    case SetPromptTimer => RearmAlways(c, m);
    case WriteFirst(_, _) => WriteAlways(c, m);
    case WriteSecond(_) => WriteAlways(c, m);
    case EnterWaiting => ListensTracked(c, m.s);
    case Finish(_, _, _) => FinishAlways(c, m);
    case InCallback(_, _) => FinishAlways(c, m);
    case EnterIdle(_) => FinishAlways(c, m);
    case ClearTimer(_) => FinishAlways(c, m);
    case ResetRest => ResetLastKeepsInv(c, m.s);
    case InHandler(acts) => if acts != [] { ActKeepsInv(c, m.s, acts[0]); }
    case _ =>
  }

  /** Every access of the task and every interrupt between them keep the observer's protocol. */
  lemma NextAlways(c: Config, m: Machine, move: Move)
    requires Always(c, m)
    ensures Always(c, Next(c, m, move))
  {
    match move
    case Call(step) =>
      match step {
        case FeedByteStep(b) => ArrivalAlways(c, m, b);
        case TickStep(ms) => TickAlways(c, m, ms);
        case _ => if m.pc == Top { BeginAlways(c, m.s, step); }
      }
    case Continue => ProceedAlways(c, m);
  }

  /** An execution from power-up in a world. */
  function Execute(c: Config, world: World, moves: seq<Move>): (m: Machine)
    requires ConfigOk(c)
    ensures Always(c, m)
  {
    if moves == [] then Machine(Init(c, world), Top)
    else
      NextAlways(c, Execute(c, world, moves[..|moves| - 1]), moves[|moves| - 1]);
      Next(c, Execute(c, world, moves[..|moves| - 1]), moves[|moves| - 1])
  }

  /** What some execution leads to, in some world. */
  ghost predicate Reachable(c: Config, m: Machine) {
    ConfigOk(c) && exists world, moves :: m == Execute(c, world, moves)
  }

  lemma ReachableAlways(c: Config, m: Machine)
    requires Reachable(c, m)
    ensures Always(c, m)
  {
    var world, moves :| m == Execute(c, world, moves);
  }

  // ---------------------------------------------------------------- without interrupts

  /** How many kinds of moves are still ahead, and how many engine calls of the present kind. */
  function Ahead(pc: Pc): nat {
    match pc
    case Top => 0
    case InHandler(_) => 1
    case ResetRest => 1
    case ClearTimer(_) => 2
    case EnterIdle(_) => 3
    case InCallback(_, _) => 4
    case Finish(_, _, _) => 5
    case EnterWaiting => 6
    case WriteSecond(_) => 7
    case WriteFirst(_, _) => 8
    case EnterSending => 9
    case SetPromptTimer => 9
    case EnterPrompt => 10
  }

  function CallsAhead(pc: Pc): nat {
    match pc
    case InHandler(acts) => |acts|
    case InCallback(acts, _) => |acts|
    case _ => 0
  }

  /** The state once the task has gone on undisturbed to the end of the engine function. */
  function Settle(c: Config, m: Machine): State
    requires ConfigOk(c) && HasHead(m)
    decreases Ahead(m.pc), CallsAhead(m.pc)
  {
    if m.pc == Top then m.s else Settle(c, Proceed(c, m))
  }

  lemma {:induction false} SettleCallback(c: Config, s: State, acts: seq<Act>, reset: bool)
    requires ConfigOk(c) && s.queue != []
    ensures var t := DoActs(c, s, acts);
            && t.queue != []
            && Settle(c, Machine(s, InCallback(acts, reset)))
               == Settle(c, Machine(t.(queue := t.queue[1..]), EnterIdle(reset)))
    decreases |acts|
  {
    if acts != [] {
      SettleCallback(c, DoAct(c, s, acts[0]), acts[1..], reset);
    }
  }

  lemma {:induction false} SettleHandler(c: Config, s: State, acts: seq<Act>)
    requires ConfigOk(c) && (s.mode == Waiting || s.mode == Prompt ==> s.queue != [])
    ensures Settle(c, Machine(s, InHandler(acts))) == DoActs(c, s, acts)
    decreases |acts|
  {
    if acts != [] {
      SettleHandler(c, DoAct(c, s, acts[0]), acts[1..]);
    }
  }

  lemma CallbackIsScript(c: Config, s: State)
    requires ConfigOk(c)
    ensures Callback(c, s) == DoActs(c, s.(world := Later(s.world)), NextActs(s.world))
  {
    if s.world.callbacks == [] {
      assert s.(world := Later(s.world)) == s;
    }
  }

  lemma SettleIdle(c: Config, s: State, reset: bool)
    requires ConfigOk(c)
    ensures var t := s.(mode := Idle, timer := 0, echoArmed := false);
            Settle(c, Machine(s, EnterIdle(reset))) == if reset then ResetLast(c, t) else t
  {
    var t := s.(mode := Idle, timer := 0, echoArmed := false);
    assert Settle(c, Machine(s, EnterIdle(reset))) == Settle(c, Machine(s.(mode := Idle), ClearTimer(reset)));
    assert Settle(c, Machine(s.(mode := Idle), ClearTimer(reset))) == Settle(c, Machine(t, if reset then ResetRest else Top));
    if reset {
      assert Settle(c, Machine(t, ResetRest)) == Settle(c, Machine(ResetLast(c, t), Top));
    }
  }

  lemma SettleFinish(c: Config, s: State, status: Status, code: int, reset: bool)
    requires ConfigOk(c) && s.queue != []
    ensures var t := Finalize(c, s, status, code);
            Settle(c, Machine(s, Finish(status, code, reset))) == if reset then ResetLast(c, t) else t
  {
    var called := CallBack(s, status, code, reset);
    var told := s.(status := status, log := s.log + [Completed(s.queue[0], Response(status, code, s.pool))]);
    CallbackIsScript(c, told);
    SettleCallback(c, called.s, called.pc.acts, reset);
    var t := DoActs(c, called.s, called.pc.acts);
    SettleIdle(c, t.(queue := t.queue[1..]), reset);
  }

  lemma SettleWrites(c: Config, s: State, first: string, second: string)
    requires ConfigOk(c) && s.queue != []
    ensures Settle(c, Machine(s, WriteFirst(first, second))) == Transmit(c, s, first, second)
  {
    var (s1, ok) := Write(s, first);
    if ok {
      SettleSecond(c, s1, second);
    } else {
      SettleFinish(c, s1, ErrIo, 0, false);
    }
  }

  lemma SettleSecond(c: Config, s: State, second: string)
    requires ConfigOk(c) && s.queue != []
    ensures var (t, ok) := Write(s, second);
            Settle(c, Machine(s, WriteSecond(second)))
            == if ok then t.(mode := Waiting, log := t.log + [Listens]) else Finalize(c, t, ErrIo, 0)
  {
    var (t, ok) := Write(s, second);
    if ok {
      assert Settle(c, Machine(t, EnterWaiting)) == Settle(c, Machine(t.(mode := Waiting, log := t.log + [Listens]), Top));
    } else {
      SettleFinish(c, t, ErrIo, 0, false);
    }
  }

  lemma SettleStart(c: Config, s: State)
    requires ConfigOk(c) && s.queue != []
    ensures Settle(c, BeginStart(c, s)) == StartNext(c, s)
  {
    var t := BeginStart(c, s).s;
    SettleWrites(c, t.(mode := Sending), t.queue[0].cmd, [CR]);
  }

  lemma SettleLine(c: Config, s: State, line: string)
    requires ConfigOk(c) && (s.mode == Waiting || s.mode == Prompt ==> s.queue != []) && s.mode != Prompt
    ensures Settle(c, BeginLine(c, s, line)) == Dispatch(c, s, line)
  {
    var fate := Classify(c, s, line);
    var s1 := s.(log := s.log + [Line(line, fate)]);
    match fate
    case Prompted => if BodyTexts(s.queue[0]) != [] { SettlePrompt(c, s1); }
    case Final(status, code) => SettleFinish(c, s1, status, code, false);
    case Unsolicited(_) =>
      CallbackIsScript(c, s1);
      SettleHandler(c, s1.(world := Later(s.world)), NextActs(s.world));
    case _ =>
  }

  lemma SettlePrompt(c: Config, s: State)
    requires ConfigOk(c) && s.queue != [] && BodyTexts(s.queue[0]) != []
    ensures Settle(c, Machine(s, EnterPrompt)) == SendBody(c, s)
  {
    var p := s.(mode := Prompt, timer := c.promptTimeout, log := s.log + [Rearmed]);
    assert Settle(c, Machine(s, EnterPrompt)) == Settle(c, Machine(s.(mode := Prompt), SetPromptTimer));
    assert Settle(c, Machine(s.(mode := Prompt), SetPromptTimer)) == Settle(c, Machine(p, WriteFirst(s.queue[0].body, ['\U{1A}'])));
    SettleWrites(c, p, s.queue[0].body, ['\U{1A}']);
  }

  /** The assembler may be moved on before the line is handed on, as nothing in between looks at it. */
  lemma CallbackIgnoresFsm(c: Config, s: State, fsm: LineFsm.Fsm)
    requires ConfigOk(c)
    ensures Callback(c, s.(fsm := fsm)) == Callback(c, s).(fsm := fsm)
  {
    CallbackEffect(c, s);
    CallbackEffect(c, s.(fsm := fsm));
  }

  lemma FinalizeIgnoresFsm(c: Config, s: State, fsm: LineFsm.Fsm, status: Status, code: int)
    requires ConfigOk(c) && s.queue != []
    ensures Finalize(c, s.(fsm := fsm), status, code) == Finalize(c, s, status, code).(fsm := fsm)
  {
    CallbackIgnoresFsm(c, s.(status := status, log := s.log + [Completed(s.queue[0], Response(status, code, s.pool))]), fsm);
  }

  lemma SendBodyIgnoresFsm(c: Config, s: State, fsm: LineFsm.Fsm)
    requires ConfigOk(c) && s.queue != []
    ensures SendBody(c, s.(fsm := fsm)) == SendBody(c, s).(fsm := fsm)
  {
    var p := s.(mode := Prompt, timer := c.promptTimeout, log := s.log + [Rearmed]);
    var (t, ok) := WriteBoth(p, s.queue[0].body, ['\U{1A}']);
    if s.queue[0].sms && s.queue[0].hasBody && !ok {
      FinalizeIgnoresFsm(c, t, fsm, ErrIo, 0);
    }
  }

  lemma DispatchIgnoresFsm(c: Config, s: State, fsm: LineFsm.Fsm, line: string)
    requires ConfigOk(c) && (s.mode == Waiting ==> s.queue != [])
    ensures Dispatch(c, s.(fsm := fsm), line) == Dispatch(c, s, line).(fsm := fsm)
  {
    var fate := Classify(c, s, line);
    var s1 := s.(log := s.log + [Line(line, fate)]);
    match fate
    case Prompted => SendBodyIgnoresFsm(c, s1, fsm);
    case Final(status, code) => FinalizeIgnoresFsm(c, s1, fsm, status, code);
    case Unsolicited(_) => CallbackIgnoresFsm(c, s1, fsm);
    case _ =>
  }

  /** Undisturbed, the accesses of an engine function add up to the step of the state machine. */
  lemma UndisturbedIsStep(c: Config, s: State, step: Step)
    requires Inv(c, s) && !Interrupt(step)
    ensures Settle(c, Begin(c, s, step)) == Apply(c, s, step)
  {
    match step
    case PopByteStep => if s.rx != "" { SettlePop(c, s); }
    case CheckTimeoutStep => if s.mode == Waiting && s.timer == 0 { SettleFinish(c, s, ErrTimeout, 0, false); }
    case StartIfIdleStep => if s.mode == Idle && s.queue != [] { SettleStart(c, s); }
    case AbortStep => if s.mode == Waiting { SettleFinish(c, s.(log := s.log + [AbortCalled]), ErrAborted, 0, false); }
    case ResetStep =>
      var s0 := s.(log := s.log + [ResetCalled]);
      if s.mode != Idle {
        SettleFinish(c, s0, ErrAborted, 0, true);
      } else {
        assert Settle(c, Machine(s0, ResetRest)) == Settle(c, Machine(ResetLast(c, s0), Top));
      }
    case _ =>
  }

  lemma SettlePop(c: Config, s: State)
    requires Inv(c, s) && s.rx != ""
    ensures Settle(c, BeginPop(c, s)) == PopByte(c, s)
  {
    var (fsm, line) := LineFsm.Step(s.fsm, s.rx[0], c.lineMax);
    var s0 := s.(rx := s.rx[1..], log := s.log + [Received(s.rx[0])]);
    if line.Some? {
      SettleLine(c, s0.(fsm := fsm), line.value);
      DispatchIgnoresFsm(c, s0, fsm, line.value);
    }
  }

  /** Going on to the end of the engine function is a matter of further moves. */
  lemma {:induction false} SettleByMoves(c: Config, world: World, moves: seq<Move>) returns (more: seq<Move>)
    requires ConfigOk(c)
    ensures Execute(c, world, more) == Machine(Settle(c, Execute(c, world, moves)), Top)
    decreases Ahead(Execute(c, world, moves).pc), CallsAhead(Execute(c, world, moves).pc)
  {
    if Execute(c, world, moves).pc == Top {
      more := moves;
    } else {
      OneMore(c, world, moves, Continue);
      SettleOnce(c, Execute(c, world, moves));
      more := SettleByMoves(c, world, moves + [Continue]);
    }
  }

  lemma SettleOnce(c: Config, m: Machine)
    requires ConfigOk(c) && HasHead(m) && m.pc != Top
    ensures var t := Next(c, m, Continue);
            && HasHead(t) && Settle(c, t) == Settle(c, m)
            && (Ahead(t.pc) < Ahead(m.pc) || (Ahead(t.pc) == Ahead(m.pc) && CallsAhead(t.pc) < CallsAhead(m.pc)))
  {
  }

  lemma OneMore(c: Config, world: World, moves: seq<Move>, move: Move)
    requires ConfigOk(c)
    ensures Execute(c, world, moves + [move]) == Next(c, Execute(c, world, moves), move)
  {
    assert (moves + [move])[..|moves|] == moves;
  }

  /** Every run of whole steps is an execution, so what holds of all executions holds of all runs. */
  lemma {:induction false} RunsAreExecutions(c: Config, world: World, steps: seq<Step>) returns (moves: seq<Move>)
    requires ConfigOk(c)
    ensures Execute(c, world, moves) == Machine(EngineRuns.Run(c, world, steps), Top)
  {
    if steps == [] {
      moves := [];
    } else {
      var before, step := steps[..|steps| - 1], steps[|steps| - 1];
      moves := RunsAreExecutions(c, world, before);
      OneMore(c, world, moves, Call(step));
      moves := moves + [Call(step)];
      if !Interrupt(step) {
        UndisturbedIsStep(c, EngineRuns.Run(c, world, before), step);
        moves := SettleByMoves(c, world, moves);
      }
    }
  }
}
