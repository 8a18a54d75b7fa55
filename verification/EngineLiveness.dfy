/** Every queue drains: a bound on the rounds of at_tick(1) and at_process that find work to do. */
module EngineLiveness {
  import opened Common
  import opened EngineTypes
  import opened EngineSpec
  import opened EngineRuns
  import opened EngineInterrupts
  import opened EngineTheorems
  import LineFsm

  /** Any bytes arrive, a millisecond passes, and at_process runs. */
  function Round(c: Config, s: State, data: string): (t: State)
    requires Inv(c, s)
    ensures Inv(c, t)
  {
    FeedKeepsInv(c, s, data);
    TickKeepsInv(c, Feed(c, s, data), 1);
    Process(c, Tick(Feed(c, s, data), 1))
  }

  function Rounds(c: Config, s: State, feeds: seq<string>): (t: State)
    requires Inv(c, s)
    ensures Inv(c, t)
    decreases |feeds|
  {
    if feeds == [] then s else Rounds(c, Round(c, s, feeds[0]), feeds[1..])
  }

  lemma {:induction false} FeedKeepsInv(c: Config, s: State, data: string)
    requires Inv(c, s)
    ensures Inv(c, Feed(c, s, data))
    ensures var t := Feed(c, s, data); t == s.(rx := t.rx, log := t.log)
    decreases |data|
  {
    if data != "" {
      StepKeepsInv(c, s, FeedByteStep(data[0]));
      FeedKeepsInv(c, FeedByte(c, s, data[0]), data[1..]);
    }
  }

  // ---------------------------------------------------------------- the measure

  /** The rounds a command may occupy. */
  function Cost(e: Entry): nat {
    if e.timeout == 0 then 1 else e.timeout
  }

  function QueueCost(q: seq<Entry>): nat {
    if q == [] then 0 else Cost(q[0]) + QueueCost(q[1..])
  }

  /** What the commands still to be sent by callbacks may cost, with one round each to be started. */
  function ActsCost(c: Config, acts: seq<Act>): nat
    requires ConfigOk(c)
  {
    if acts == [] then 0
    else (if acts[0].Send? && acts[0].desc.cmd.Some? then 1 + Cost(MakeEntry(c, acts[0].desc)) else 0)
         + ActsCost(c, acts[1..])
  }

  function ScriptCost(c: Config, callbacks: seq<seq<Act>>): nat
    requires ConfigOk(c)
  {
    if callbacks == [] then 0 else ActsCost(c, callbacks[0]) + ScriptCost(c, callbacks[1..])
  }

  /** The rounds that a queue may occupy, its first command being executed in mode Waiting. */
  function QueueWork(q: seq<Entry>, m: Mode, timer: nat): nat {
    if q == [] then 0
    else if m == Waiting then (if timer == 0 then 1 else timer) + QueueCost(q[1..])
    else 1 + QueueCost(q)
  }

  /** Rounds of work ahead. */
  function Work(c: Config, s: State): nat
    requires ConfigOk(c)
  {
    QueueWork(s.queue, s.mode, s.timer) + ScriptCost(c, s.world.callbacks)
  }

  // ---------------------------------------------------------------- commands without prompt

  ghost predicate PlainActs(acts: seq<Act>) {
    forall i :: 0 <= i < |acts| && acts[i].Send? ==>
      !(acts[i].desc.sms && acts[i].desc.body.Some? && acts[i].desc.body.value != "")
  }

  ghost predicate PlainScript(callbacks: seq<seq<Act>>) {
    forall i :: 0 <= i < |callbacks| ==> PlainActs(callbacks[i])
  }

  ghost predicate PlainQueue(q: seq<Entry>) {
    forall i :: 0 <= i < |q| ==> !PromptMode(q[i])
  }

  /** No command of s, queued or still to be sent by a callback, uses the prompt. */
  ghost predicate Plain(s: State) {
    PlainQueue(s.queue) && PlainScript(s.world.callbacks)
  }

  /** No prompt can keep a command waiting. */
  ghost predicate Bounded(c: Config, s: State) {
    c.promptTimeout == 0 || Plain(s)
  }

  /** Work, and the part of it that callbacks may still add, does not grow from s to t. */
  ghost predicate NoMoreWork(c: Config, s: State, t: State)
    requires ConfigOk(c)
  {
    Bounded(c, t) && Work(c, t) <= Work(c, s)
    && ScriptCost(c, t.world.callbacks) <= ScriptCost(c, s.world.callbacks)
  }

  // ---------------------------------------------------------------- effects on the measure

  lemma {:induction false} QueueCostConcat(a: seq<Entry>, b: seq<Entry>)
    ensures QueueCost(a + b) == QueueCost(a) + QueueCost(b)
  {
    if a == [] {
      assert a + b == b;
    } else {
      QueueCostConcat(a[1..], b);
      assert (a + b)[1..] == a[1..] + b;
    }
  }

  lemma {:induction false} NewEntriesCost(c: Config, queued: nat, acts: seq<Act>)
    requires ConfigOk(c)
    ensures var es := NewEntries(c, queued, acts);
            && QueueCost(es) + |es| <= ActsCost(c, acts)
            && (PlainActs(acts) ==> PlainQueue(es))
    decreases |acts|
  {
    if acts != [] {
      NewEntriesCost(c, queued, acts[1..]);
      NewEntriesCost(c, queued + 1, acts[1..]);
    }
  }

  /** Entries that callbacks add are paid for by the script. */
  lemma CallbackCost(c: Config, s: State)
    requires ConfigOk(c)
    ensures var added := Added(c, s);
            && QueueCost(added) + |added| + ScriptCost(c, Later(s.world).callbacks) <= ScriptCost(c, s.world.callbacks)
            && (Plain(s) ==> PlainQueue(added) && PlainScript(Later(s.world).callbacks))
  {
    NewEntriesCost(c, |s.queue|, NextActs(s.world));
  }

  lemma CallbackWork(c: Config, s: State)
    requires Inv(c, s) && Bounded(c, s)
    ensures var t := Callback(c, s);
            && NoMoreWork(c, s, t) && |t.queue| >= |s.queue|
            && t.mode == s.mode && t.timer == s.timer
  {
    CallbackEffect(c, s);
    CallbackCost(c, s);
    AddedWork(s.queue, s.mode, s.timer, Added(c, s));
  }

  lemma AddedWork(q: seq<Entry>, m: Mode, timer: nat, added: seq<Entry>)
    requires m == Waiting ==> q != []
    ensures QueueWork(q + added, m, timer) <= QueueWork(q, m, timer) + QueueCost(added) + |added|
  {
    QueueCostConcat(q, added);
    if m == Waiting {
      RestCost(q, added);
    } else if q == [] {
      assert q + added == added;
    }
  }

  lemma RestCost(q: seq<Entry>, added: seq<Entry>)
    requires q != []
    ensures QueueCost((q + added)[1..]) == QueueCost(q[1..]) + QueueCost(added)
  {
    QueueCostConcat(q[1..], added);
    assert (q + added)[1..] == q[1..] + added;
  }

  /** Finishing the command being executed leaves at most one round to start the next one. */
  lemma FinalizeWork(c: Config, s: State, status: Status, code: int)
    requires ConfigOk(c) && s.queue != [] && Bounded(c, s)
    ensures var t := Finalize(c, s, status, code);
            && Bounded(c, t) && t.mode == Idle
            && ScriptCost(c, t.world.callbacks) <= ScriptCost(c, s.world.callbacks)
            && Work(c, t) <= 1 + QueueCost(s.queue[1..]) + ScriptCost(c, s.world.callbacks)
            && (t.queue == [] ==> Work(c, t) <= ScriptCost(c, s.world.callbacks))
  {
    var told := s.(status := status, log := s.log + [Completed(s.queue[0], Response(status, code, s.pool))]);
    var rest := s.queue[1..];
    if s.queue[0].cb.Some? {
      CallbackEffect(c, told);
      CallbackCost(c, told);
      var added := Added(c, told);
      QueueCostConcat(rest, added);
      assert (s.queue + added)[1..] == rest + added;
    }
  }

  lemma StartWork(c: Config, s: State)
    requires Inv(c, s) && Bounded(c, s) && s.mode == Idle && s.queue != []
    ensures var t := StartNext(c, s); NoMoreWork(c, s, t) && Work(c, t) < Work(c, s)
  {
    var e := s.queue[0];
    var armed := s.(
      pool := [], status := Pending, timer := e.timeout, mode := Sending,
      echo := if c.echoCancel then e.cmd else s.echo, echoArmed := c.echoCancel,
      log := s.log + [Started(e)]);
    var (s1, ok) := WriteBoth(armed, e.cmd, [CR]);
    if !ok {
      FinalizeWork(c, s1, ErrIo, 0);
    }
  }

  /** A received byte never adds work, and an idle engine stays idle. */
  lemma PopWork(c: Config, s: State)
    requires Inv(c, s) && Bounded(c, s)
    ensures var t := PopByte(c, s);
            && NoMoreWork(c, s, t)
            && (s.mode == Idle ==> t.mode == Idle && |t.queue| >= |s.queue|)
            && (s.mode == Waiting ==> t.mode == Idle || (t.mode == Waiting && t.timer <= s.timer))
            && (s.mode == Waiting && t.mode == Idle && t.queue == [] ==> Work(c, t) < Work(c, s))
  {
    if s.rx != "" {
      var (fsm, line) := LineFsm.Step(s.fsm, s.rx[0], c.lineMax);
      var s1 := s.(rx := s.rx[1..], log := s.log + [Received(s.rx[0])]);
      if line.Some? {
        ObserveSnoc(c, s.log, Received(s.rx[0]));
        DispatchWork(c, s1, line.value);
      }
    }
  }

  lemma DispatchWork(c: Config, s: State, line: string)
    requires Inv(c, s) && Bounded(c, s)
    ensures var t := Dispatch(c, s, line);
            && NoMoreWork(c, s, t)
            && (s.mode == Idle ==> t.mode == Idle && |t.queue| >= |s.queue|)
            && (s.mode == Waiting ==> t.mode == Idle || (t.mode == Waiting && t.timer <= s.timer))
            && (s.mode == Waiting && t.mode == Idle && t.queue == [] ==> Work(c, t) < Work(c, s))
  {
    var fate := Classify(c, s, line);
    var s1 := s.(log := s.log + [Line(line, fate)]);
    match fate
    case Final(status, code) => FinalizeWork(c, s1, status, code);
    case Unsolicited(_) => UnsolicitedWork(c, s, line);
    case Prompted => if PromptMode(s.queue[0]) { BodyWork(c, s1); }
    case _ =>
  }

  /** With a prompt timeout of zero a prompt line uses up the command's time. */
  lemma BodyWork(c: Config, s: State)
    requires ConfigOk(c) && s.mode == Waiting && s.queue != [] && PromptMode(s.queue[0])
    requires Bounded(c, s) && c.promptTimeout == 0
    ensures var t := SendBody(c, s);
            && NoMoreWork(c, s, t)
            && (t.mode == Idle || (t.mode == Waiting && t.timer == 0))
            && (t.mode == Idle && t.queue == [] ==> Work(c, t) < Work(c, s))
  {
    var p := s.(mode := Prompt, timer := c.promptTimeout, log := s.log + [Rearmed]);
    var (t, ok) := WriteBoth(p, s.queue[0].body, ['\U{1A}']);
    if !ok {
      FinalizeWork(c, t, ErrIo, 0);
    }
  }

  lemma UnsolicitedWork(c: Config, s: State, line: string)
    requires Inv(c, s) && Bounded(c, s) && Classify(c, s, line).Unsolicited?
    ensures var s1 := s.(log := s.log + [Line(line, Classify(c, s, line))]);
            var t := Callback(c, s1);
            && NoMoreWork(c, s1, t) && |t.queue| >= |s.queue| && t.mode == s.mode && t.timer == s.timer
  {
    QuietLineKeepsInv(c, s, line);
    CallbackWork(c, s.(log := s.log + [Line(line, Classify(c, s, line))]));
  }

  lemma {:induction false} DrainWork(c: Config, s: State)
    requires Inv(c, s) && Bounded(c, s)
    ensures var t := Drain(c, s);
            && NoMoreWork(c, s, t)
            && (s.mode == Idle ==> t.mode == Idle && |t.queue| >= |s.queue|)
            && (s.mode == Waiting ==> t.mode == Idle || (t.mode == Waiting && t.timer <= s.timer))
            && (s.mode == Waiting && t.mode == Idle && t.queue == [] ==> Work(c, t) < Work(c, s))
    decreases |s.rx|
  {
    if s.rx != "" {
      PopKeepsInv(c, s);
      PopConsumes(c, s);
      PopWork(c, s);
      DrainWork(c, PopByte(c, s));
    }
  }

  lemma ProcessWork(c: Config, s: State)
    requires Inv(c, s) && Bounded(c, s)
    ensures var t := Process(c, s);
            && NoMoreWork(c, s, t)
            && (s.queue != [] && (s.mode == Idle || s.timer == 0) ==> Work(c, t) < Work(c, s))
  {
    DrainWork(c, s);
    var d := Drain(c, s);
    TimeoutWork(c, d);
    StartIfIdleWork(c, Apply(c, d, CheckTimeoutStep));
  }

  lemma TimeoutWork(c: Config, d: State)
    requires Inv(c, d) && Bounded(c, d)
    ensures var u := Apply(c, d, CheckTimeoutStep);
            && Inv(c, u) && NoMoreWork(c, d, u)
            && (if d.mode == Waiting && d.timer == 0 then u.mode == Idle && (u.queue == [] ==> Work(c, u) < Work(c, d))
                else u == d)
  {
    TimeoutKeepsInv(c, d);
    if d.mode == Waiting && d.timer == 0 {
      FinalizeWork(c, d, ErrTimeout, 0);
    }
  }

  lemma StartIfIdleWork(c: Config, u: State)
    requires Inv(c, u) && Bounded(c, u)
    ensures var t := Apply(c, u, StartIfIdleStep);
            NoMoreWork(c, u, t) && (u.mode == Idle && u.queue != [] ==> Work(c, t) < Work(c, u))
  {
    if u.mode == Idle && u.queue != [] {
      StartWork(c, u);
    }
  }

  lemma TickWork(c: Config, s: State)
    requires ConfigOk(c) && (s.mode == Waiting ==> s.queue != [])
    ensures var t := Tick(s, 1);
            && Work(c, t) <= Work(c, s) && t.queue == s.queue && t.mode == s.mode && t.world == s.world
            && (s.mode == Waiting ==> t.timer == 0 || Work(c, t) < Work(c, s))
  {
  }

  /** A round that finds work leaves less of it. */
  lemma RoundWork(c: Config, s: State, data: string)
    requires Inv(c, s) && Bounded(c, s)
    ensures var t := Round(c, s, data);
            NoMoreWork(c, s, t) && (s.queue != [] ==> Work(c, t) < Work(c, s))
  {
    FeedKeepsInv(c, s, data);
    var fed := Feed(c, s, data);
    TickKeepsInv(c, fed, 1);
    TickWork(c, fed);
    ProcessWork(c, Tick(fed, 1));
  }

  /** The rounds that begin with a command in the queue. */
  function BusyRounds(c: Config, s: State, feeds: seq<string>): nat
    requires Inv(c, s)
    decreases |feeds|
  {
    if feeds == [] then 0
    else (if s.queue != [] then 1 else 0) + BusyRounds(c, Round(c, s, feeds[0]), feeds[1..])
  }

  /** Whatever bytes arrive, whichever writes fail and whatever commands the callbacks add, the
      number of rounds that find work is bounded by the work there was. */
  lemma {:induction false} BusyRoundsBounded(c: Config, s: State, feeds: seq<string>)
    requires Inv(c, s) && Bounded(c, s)
    ensures BusyRounds(c, s, feeds) + Work(c, Rounds(c, s, feeds)) <= Work(c, s)
    decreases |feeds|
  {
    if feeds != [] {
      RoundWork(c, s, feeds[0]);
      BusyRoundsBounded(c, Round(c, s, feeds[0]), feeds[1..]);
    }
  }

  lemma {:induction false} BusyUntilDone(c: Config, s: State, feeds: seq<string>)
    requires Inv(c, s) && Bounded(c, s) && ScriptCost(c, s.world.callbacks) == 0
    ensures Rounds(c, s, feeds).queue != [] ==> BusyRounds(c, s, feeds) == |feeds|
    decreases |feeds|
  {
    if feeds != [] {
      RoundWork(c, s, feeds[0]);
      var t := Round(c, s, feeds[0]);
      BusyUntilDone(c, t, feeds[1..]);
      if s.queue == [] {
        IdleStays(c, t, feeds[1..]);
      }
    }
  }

  lemma {:induction false} IdleStays(c: Config, s: State, feeds: seq<string>)
    requires Inv(c, s) && Bounded(c, s) && Work(c, s) == 0
    ensures Rounds(c, s, feeds).queue == []
    decreases |feeds|
  {
    if feeds != [] {
      RoundWork(c, s, feeds[0]);
      IdleStays(c, Round(c, s, feeds[0]), feeds[1..]);
    }
  }

  /** When callbacks send nothing, all commands have completed after one round more than the sum
      of their timeouts. */
  lemma QueueDrains(c: Config, s: State, feeds: seq<string>)
    requires Inv(c, s) && Bounded(c, s) && ScriptCost(c, s.world.callbacks) == 0
    requires |feeds| >= Work(c, s)
    ensures var t := Rounds(c, s, feeds);
            t.queue == [] && CompletedIn(t.log) == AcceptedIn(t.log)
  {
    BusyRoundsBounded(c, s, feeds);
    BusyUntilDone(c, s, feeds);
    AllCompleted(c, Rounds(c, s, feeds));
  }

  // ---------------------------------------------------------------- with the prompt

  const PROMPT_LINE := "> \n"

  /** Two prompt lines, in case a command is such that the first is taken for its echo. */
  const PROMPTS := "> \n> \n"

  /** Between commands, lines and bytes; the callbacks make no calls and all writes succeed. */
  ghost predicate Settled(c: Config, s: State) {
    && Inv(c, s) && s.rx == "" && s.fsm == LineFsm.IDLE && s.world == World([], [])
    && c.rxSize >= 8
  }

  lemma {:induction false} FeedFits(c: Config, s: State, data: string)
    requires ConfigOk(c) && |s.rx| + |data| <= c.rxSize
    ensures Feed(c, s, data).rx == s.rx + data
    decreases |data|
  {
    if data == "" {
      assert s.rx + data == s.rx;
    } else {
      FeedFits(c, FeedByte(c, s, data[0]), data[1..]);
      assert (s.rx + [data[0]]) + data[1..] == s.rx + data;
    }
  }

  /** A byte that ends no line only moves the assembler. */
  lemma PopSilently(c: Config, s: State, fsm: LineFsm.Fsm)
    requires Inv(c, s) && s.rx != "" && LineFsm.Step(s.fsm, s.rx[0], c.lineMax) == (fsm, None)
    ensures PopByte(c, s) == s.(rx := s.rx[1..], fsm := fsm, log := s.log + [Received(s.rx[0])])
    ensures Inv(c, PopByte(c, s)) && Drain(c, s) == Drain(c, PopByte(c, s))
  {
    PopKeepsInv(c, s);
  }

  /** What a prompt line does when no callback makes a call and all writes succeed. */
  lemma PromptDispatched(c: Config, s: State)
    requires Inv(c, s) && s.world == World([], [])
    ensures var t := Dispatch(c, s, "> ");
            && t == s.(timer := t.timer, echoArmed := t.echoArmed, log := t.log)
            && (t.echoArmed ==> s.echoArmed)
            && (if s.mode == Waiting && PromptMode(s.queue[0]) && !ComesAsEcho(c, s, "> ")
                then t.timer == c.promptTimeout else t.timer == s.timer)
            && (s.mode == Waiting && ComesAsEcho(c, s, "> ") ==> !t.echoArmed)
  {
    CStrWhole("> ");
    CallbackEffect(c, s.(log := s.log + [Line("> ", Classify(c, s, "> "))]));
  }

  /** The three bytes of a prompt line at the front of the ring are one prompt line. */
  lemma PromptTaken(c: Config, s: State, rest: string) returns (t: State)
    requires Inv(c, s) && s.fsm == LineFsm.IDLE && s.rx == PROMPT_LINE + rest
    ensures t == s.(rx := ['\n'] + rest, fsm := LineFsm.Fsm(LineFsm.Data, "> "), log := t.log)
    ensures Inv(c, t) && Drain(c, s) == Drain(c, t)
  {
    assert PROMPT_LINE + rest == ['>'] + ([' '] + (['\n'] + rest));
    assert ">" + [' '] == "> ";
    t := CharTaken(c, s, '>', [' '] + (['\n'] + rest), ">");
    t := CharTaken(c, t, ' ', ['\n'] + rest, "> ");
  }

  lemma CharTaken(c: Config, s: State, b: char, rest: string, line: string) returns (t: State)
    requires Inv(c, s) && s.rx == [b] + rest
    requires LineFsm.Step(s.fsm, b, c.lineMax) == (LineFsm.Fsm(LineFsm.Data, line), None)
    ensures t == s.(rx := rest, fsm := LineFsm.Fsm(LineFsm.Data, line), log := t.log)
    ensures Inv(c, t) && Drain(c, s) == Drain(c, t)
  {
    PopSilently(c, s, LineFsm.Fsm(LineFsm.Data, line));
    t := PopByte(c, s);
    assert s.rx[1..] == rest;
  }

  lemma PromptDrained(c: Config, s: State, rest: string) returns (t: State)
    requires Inv(c, s) && s.world == World([], []) && s.fsm == LineFsm.IDLE && s.rx == PROMPT_LINE + rest
    ensures Inv(c, t) && Drain(c, s) == Drain(c, t)
    ensures t == s.(rx := rest, timer := t.timer, echoArmed := t.echoArmed, log := t.log)
    ensures t.echoArmed ==> s.echoArmed
    ensures if s.mode == Waiting && PromptMode(s.queue[0]) && !ComesAsEcho(c, s, "> ")
            then t.timer == c.promptTimeout else t.timer == s.timer
    ensures s.mode == Waiting && ComesAsEcho(c, s, "> ") ==> !t.echoArmed
  {
    var u := PromptTaken(c, s, rest);
    PopKeepsInv(c, u);
    PopConsumes(c, u);
    t := PopByte(c, u);
    assert u.rx[1..] == rest;
    EndOfPrompt(c, u, rest);
  }

  lemma EndOfPrompt(c: Config, u: State, rest: string)
    requires Inv(c, u) && u.world == World([], []) && u.fsm == LineFsm.Fsm(LineFsm.Data, "> ")
    requires u.rx == ['\n'] + rest
    ensures var t := PopByte(c, u);
            && t == u.(rx := rest, fsm := LineFsm.IDLE, timer := t.timer, echoArmed := t.echoArmed, log := t.log)
            && (t.echoArmed ==> u.echoArmed)
            && (if u.mode == Waiting && PromptMode(u.queue[0]) && !ComesAsEcho(c, u, "> ")
                then t.timer == c.promptTimeout else t.timer == u.timer)
            && (u.mode == Waiting && ComesAsEcho(c, u, "> ") ==> !t.echoArmed)
  {
    var s1 := u.(rx := rest, log := u.log + [Received('\n')]);
    ObserveSnoc(c, u.log, Received('\n'));
    assert u.rx[1..] == rest;
    PromptDispatched(c, s1);
  }

  /** Both prompt lines: a command waiting for its prompt has its countdown restarted, all else
      stays as it is. */
  lemma PromptsDrained(c: Config, s: State)
    requires Inv(c, s) && s.world == World([], []) && s.fsm == LineFsm.IDLE && s.rx == PROMPTS
    ensures var t := Drain(c, s);
            && t == s.(rx := "", timer := t.timer, echoArmed := t.echoArmed, log := t.log)
            && t.timer == if s.mode == Waiting && PromptMode(s.queue[0]) then c.promptTimeout else s.timer
  {
    assert PROMPTS == PROMPT_LINE + PROMPT_LINE && PROMPT_LINE == PROMPT_LINE + "";
    var u := PromptDrained(c, s, PROMPT_LINE);
    var t := PromptDrained(c, u, "");
    assert Drain(c, t) == t;
  }

  /** Is some command in the queue to be sent with a prompt? */
  ghost predicate AsksForPrompt(q: seq<Entry>) {
    exists i :: 0 <= i < |q| && PromptMode(q[i])
  }

  /** A round in which two prompt lines arrive finishes at most the first command, and that only if
      it is one without prompt. */
  lemma PromptsRound(c: Config, s: State)
    requires Settled(c, s) && c.promptTimeout > 0
    ensures var t := Round(c, s, PROMPTS);
            Settled(c, t) && (t.queue == s.queue || (s.queue != [] && !PromptMode(s.queue[0]) && t.queue == s.queue[1..]))
  {
    PromptsArrive(c, s);
    PromptsProcessed(c, Tick(Feed(c, s, PROMPTS), 1));
  }

  lemma PromptsArrive(c: Config, s: State)
    requires Settled(c, s)
    ensures var u := Tick(Feed(c, s, PROMPTS), 1);
            Inv(c, u) && u.rx == PROMPTS && u.fsm == s.fsm && u.world == s.world && u.queue == s.queue
  {
    FeedKeepsInv(c, s, PROMPTS);
    PromptsFed(c, s);
    TickKeepsInv(c, Feed(c, s, PROMPTS), 1);
  }

  lemma PromptsFed(c: Config, s: State)
    requires ConfigOk(c) && s.rx == "" && c.rxSize >= 8
    ensures Feed(c, s, PROMPTS).rx == PROMPTS
  {
    FeedFits(c, s, PROMPTS);
    assert "" + PROMPTS == PROMPTS;
  }

  lemma PromptsProcessed(c: Config, s: State)
    requires Inv(c, s) && s.world == World([], []) && s.fsm == LineFsm.IDLE && s.rx == PROMPTS
    requires c.rxSize >= 8 && c.promptTimeout > 0
    ensures var t := Process(c, s);
            Settled(c, t) && (t.queue == s.queue || (s.queue != [] && !PromptMode(s.queue[0]) && t.queue == s.queue[1..]))
  {
    PromptsDrained(c, s);
    AfterDrain(c, Drain(c, s));
  }

  lemma AfterDrain(c: Config, d: State)
    requires Settled(c, d) && (d.mode == Waiting && PromptMode(d.queue[0]) ==> d.timer > 0)
    ensures var t := StartIfIdle(c, CheckTimeout(c, d));
            Settled(c, t) && (t.queue == d.queue || (d.queue != [] && !PromptMode(d.queue[0]) && t.queue == d.queue[1..]))
  {
    StepKeepsInv(c, d, CheckTimeoutStep);
    var u := CheckTimeout(c, d);
    StepKeepsInv(c, u, StartIfIdleStep);
    if d.mode == Waiting && d.timer == 0 {
      TimedOut(c, d);
    }
  }

  lemma TimedOut(c: Config, d: State)
    requires ConfigOk(c) && d.queue != [] && d.world == World([], [])
    ensures var u := Finalize(c, d, ErrTimeout, 0);
            u.queue == d.queue[1..] && u.rx == d.rx && u.fsm == d.fsm && u.world == d.world
  {
  }

  lemma StillAsks(q: seq<Entry>, r: seq<Entry>)
    requires AsksForPrompt(q) && (r == q || (q != [] && !PromptMode(q[0]) && r == q[1..]))
    ensures AsksForPrompt(r)
  {
    if r != q {
      var i :| 0 <= i < |q| && PromptMode(q[i]);
      assert r[i - 1] == q[i];
    }
  }

  function Repeated(data: string, n: nat): (feeds: seq<string>)
    ensures |feeds| == n
  {
    if n == 0 then [] else [data] + Repeated(data, n - 1)
  }

  /** Without that restriction there is no bound: as long as the modem repeats its prompt, the first
      command that asks for one is never finished, wherever it stands in the queue. */
  lemma {:induction false} PromptCanStarve(c: Config, s: State, n: nat)
    requires Settled(c, s) && AsksForPrompt(s.queue) && c.promptTimeout > 0
    ensures AsksForPrompt(Rounds(c, s, Repeated(PROMPTS, n)).queue)
    ensures BusyRounds(c, s, Repeated(PROMPTS, n)) == n
    decreases n
  {
    if n > 0 {
      AskingRound(c, s);
      PromptCanStarve(c, Round(c, s, PROMPTS), n - 1);
      RoundsFirst(c, s, PROMPTS, Repeated(PROMPTS, n - 1));
    }
  }

  lemma AskingRound(c: Config, s: State)
    requires Settled(c, s) && AsksForPrompt(s.queue) && c.promptTimeout > 0
    ensures var t := Round(c, s, PROMPTS);
            s.queue != [] && Settled(c, t) && AsksForPrompt(t.queue)
  {
    PromptsRound(c, s);
    StillAsks(s.queue, Round(c, s, PROMPTS).queue);
  }

  lemma RoundsFirst(c: Config, s: State, data: string, rest: seq<string>)
    requires Inv(c, s)
    ensures Rounds(c, s, [data] + rest) == Rounds(c, Round(c, s, data), rest)
    ensures BusyRounds(c, s, [data] + rest)
            == (if s.queue != [] then 1 else 0) + BusyRounds(c, Round(c, s, data), rest)
  {
    assert ([data] + rest)[1..] == rest;
  }

  /** However the modem behaves, the queue is empty after n rounds at the latest. */
  ghost predicate EmptyWithin(c: Config, s: State, n: nat)
    requires Inv(c, s)
  {
    forall feeds :: |feeds| >= n ==> Rounds(c, s, feeds).queue == []
  }

  /** Between commands, with succeeding writes and callbacks that send nothing: there is a bound
      exactly when no command in the queue asks for a prompt, or the prompt gives it no time. */
  lemma QueueDrainsExactly(c: Config, s: State)
    requires Settled(c, s)
    ensures (exists n: nat :: EmptyWithin(c, s, n)) <==> !AsksForPrompt(s.queue) || c.promptTimeout == 0
  {
    if AsksForPrompt(s.queue) && c.promptTimeout > 0 {
      forall n: nat ensures !EmptyWithin(c, s, n) {
        PromptCanStarve(c, s, n);
        var feeds := Repeated(PROMPTS, n);
        assert Rounds(c, s, feeds).queue != [];
      }
    } else {
      forall feeds | |feeds| >= Work(c, s) ensures Rounds(c, s, feeds).queue == [] {
        QueueDrains(c, s, feeds);
      }
      assert EmptyWithin(c, s, Work(c, s));
    }
  }

  lemma FirstSend(c: Config, world: World, d: Desc)
    requires ConfigOk(c) && d.cmd.Some? && d.cmd.value != ""
    ensures var s := Init(c, world);
            && Next(c, Machine(s, Top), Call(SendStep(d)))
               == Machine(s.(queue := [MakeEntry(c, d)], log := [Accepted(MakeEntry(c, d))]), Top)
  {
  }

  /** Such a state with a command that asks for a prompt is one call of at_send away from power-up. */
  lemma PromptIsReachable(c: Config) returns (m: Machine)
    requires ConfigOk(c) && c.rxSize >= 8
    ensures Reachable(c, m) && m.pc == Top && Settled(c, m.s) && AsksForPrompt(m.s.queue)
  {
    var d := Desc(Some("AT"), Some("x"), 0, true, None);
    var world, moves := World([], []), [Call(SendStep(d))];
    OneMore(c, world, [], Call(SendStep(d)));
    assert [] + moves == moves;
    m := Execute(c, world, moves);
    assert Execute(c, world, []) == Machine(Init(c, world), Top);
    FirstSend(c, world, d);
    assert PromptMode(m.s.queue[0]);
  }
}
