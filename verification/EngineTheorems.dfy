/** What the observer's protocol means for the commands, responses, timeouts and lines of a run. */
module EngineTheorems {
  import opened Common
  import opened EngineTypes
  import opened EngineSpec
  import opened EngineRuns
  import opened EngineInterrupts
  import opened UrcTable
  import LineFsm

  // ---------------------------------------------------------------- commands

  function AcceptedIn(log: seq<Event>): seq<Entry> {
    if log == [] then []
    else
      var last := log[|log| - 1];
      AcceptedIn(log[..|log| - 1]) + if last.Accepted? then [last.entry] else []
  }

  function CompletedIn(log: seq<Event>): seq<Entry> {
    if log == [] then []
    else
      var last := log[|log| - 1];
      CompletedIn(log[..|log| - 1]) + if last.Completed? then [last.entry] else []
  }

  lemma {:induction false} Conservation(c: Config, log: seq<Event>)
    requires ObserveAll(c, log).Some?
    ensures AcceptedIn(log) == CompletedIn(log) + ObserveAll(c, log).value.pending
  {
    if log != [] {
      Conservation(c, log[..|log| - 1]);
    }
  }

  lemma Conserved(c: Config, s: State)
    requires Inv(c, s)
    ensures AcceptedIn(s.log) == CompletedIn(s.log) + s.queue
  {
    Conservation(c, s.log);
  }

  /** In every execution the accepted commands are the completed ones followed by the queue: each
      command completes at most once, in the order in which at_send took them, and none is lost,
      whoever sent it. While its callback runs the reported command is still in the queue. */
  lemma CommandsCompleteInOrder(c: Config, m: Machine)
    requires Reachable(c, m)
    ensures m.pc.InCallback? ==> m.s.queue != []
    ensures AcceptedIn(m.s.log) == CompletedIn(m.s.log) + (if m.pc.InCallback? then m.s.queue[1..] else m.s.queue)
    ensures |m.s.queue| <= c.depth
  {
    ReachableAlways(c, m);
    Conservation(c, m.s.log);
  }

  // ---------------------------------------------------------------- responses

  /** The texts of the lines that fell through echo, prompt, final and URC handling. */
  function KeptTexts(es: seq<Event>): seq<string> {
    if es == [] then []
    else
      var last := es[|es| - 1];
      KeptTexts(es[..|es| - 1]) + if last.Line? && last.fate.Kept? then [last.text] else []
  }

  function TicksIn(es: seq<Event>): nat {
    if es == [] then 0
    else
      var last := es[|es| - 1];
      TicksIn(es[..|es| - 1]) + if last.Ticked? then last.ms else 0
  }

  /** No command starts or ends. */
  ghost predicate Undisturbed(es: seq<Event>) {
    forall i :: 0 <= i < |es| ==> !es[i].Started? && !es[i].Completed? && !es[i].WasReset?
  }

  /** A line with this verdict was received. */
  ghost predicate HasVerdict(es: seq<Event>, status: Status, code: int) {
    exists i :: 0 <= i < |es| && IsVerdict(es[i], status, code)
  }

  predicate IsVerdict(e: Event, status: Status, code: int) {
    e.Line? && e.fate == Final(status, code) && Verdict(CStr(e.text), status, code)
  }

  predicate PromptMode(e: Entry) {
    e.sms && e.hasBody
  }

  /** What was handed to the platform, in order. */
  function Written(es: seq<Event>): seq<string> {
    if es == [] then []
    else
      var last := es[|es| - 1];
      Written(es[..|es| - 1]) + if last.Wrote? then [last.bytes] else []
  }

  predicate WriteFailed(es: seq<Event>) {
    es != [] && ((es[|es| - 1].Wrote? && !es[|es| - 1].ok) || WriteFailed(es[..|es| - 1]))
  }

  /** at_abort or at_reset was called. */
  predicate AbortedIn(es: seq<Event>) {
    es != [] && (es[|es| - 1].AbortCalled? || es[|es| - 1].ResetCalled? || AbortedIn(es[..|es| - 1]))
  }

  /** What a command needs written: itself and CR, then for each prompt line its body and SUB. */
  function Due(e: Entry, es: seq<Event>): seq<string> {
    if es == [] then CommandTexts(e)
    else
      var last := es[|es| - 1];
      Due(e, es[..|es| - 1]) + if last.Line? && last.fate.Prompted? then BodyTexts(e) else []
  }

  function EchoesIn(es: seq<Event>): nat {
    if es == [] then 0
    else
      var last := es[|es| - 1];
      EchoesIn(es[..|es| - 1]) + if last.Line? && last.fate.Echo? then 1 else 0
  }

  /** The countdown of a command: it runs from the moment the state is WAITING, and once more from
      each restart for the prompt. */
  function Countdown(c: Config, e: Entry, es: seq<Event>): Clock {
    if es == [] then Clock(e.timeout, 0, false)
    else
      var before := Countdown(c, e, es[..|es| - 1]);
      match es[|es| - 1]
      case Listens => before.(running := true)
      case Rearmed => Clock(c.promptTimeout, 0, true)
      case Ticked(ms) => Tock(before, ms)
      case _ => before
  }

  /** What has happened since its start to a command at a stage. */
  ghost predicate StageReached(e: Entry, stage: Stage, since: seq<Event>) {
    && (WriteFailed(since) <==> stage.Failed?)
    && (AbortedIn(since) <==> stage.Aborting?)
    && match stage
       case Writing(texts) => Due(e, since) == Written(since) + texts
       case Rearming(texts) => Due(e, since) == Written(since) + texts
       case Failed => Written(since) <= Due(e, since)
       case Judged(status, code) => Written(since) == Due(e, since) && HasVerdict(since, status, code)
       case _ => Written(since) == Due(e, since)
  }

  /** What the record since its start says about a command being executed. */
  ghost predicate Accounted(c: Config, e: Entry, a: Active, since: seq<Event>) {
    && Undisturbed(since)
    && a.kept == KeptTexts(since)
    && a.clock == Countdown(c, e, since)
    && StageReached(e, a.stage, since)
    && EchoesIn(since) <= (if a.echoDue then 0 else 1)
  }

  lemma {:induction false} ActiveAccounted(c: Config, log: seq<Event>) returns (j: nat)
    requires ObserveAll(c, log).Some? && ObserveAll(c, log).value.active.Some?
    ensures var o := ObserveAll(c, log).value;
            && j < |log| && o.pending != [] && log[j] == Started(o.pending[0])
            && Accounted(c, o.pending[0], o.active.value, log[j + 1..])
  {
    var init, last := log[..|log| - 1], log[|log| - 1];
    if last.Started? {
      j := |log| - 1;
      assert log[j + 1..] == [];
      JustStarted(c, last.entry);
    } else {
      j := ActiveAccounted(c, init);
      var o := ObserveAll(c, init).value;
      ObservedMove(c, o, last);
      AccountedStep(c, o.pending[0], o.active.value, last, ObserveAll(c, log).value.active.value, init[j + 1..]);
      SinceGrows(log, j);
    }
  }

  lemma SinceGrows(log: seq<Event>, j: nat)
    requires j < |log| - 1
    ensures log[j + 1..] == log[..|log| - 1][j + 1..] + [log[|log| - 1]] && log[j] == log[..|log| - 1][j]
  {
  }

  lemma JustStarted(c: Config, e: Entry)
    ensures Accounted(c, e, Active(Writing(CommandTexts(e)), [], Clock(e.timeout, 0, false), c.echoCancel), [])
  {
  }

  /** How an event takes the command `head` from one stage to the next. */
  predicate StageMoves(head: Entry, s: Stage, e: Event, t: Stage) {
    match e
    case Wrote(bytes, ok) =>
      s.Writing? && s.texts != [] && s.texts[0] == bytes && t == if ok then Writing(s.texts[1..]) else Failed
    case Listens => s == Writing([]) && t == Attending
    case Rearmed => s.Rearming? && t == Writing(s.texts)
    case AbortCalled => s == Attending && t == Aborting
    case ResetCalled => s == Attending && t == Aborting
    case Line(_, Prompted) => s == Attending && t == if BodyTexts(head) == [] then s else Rearming(BodyTexts(head))
    case Line(_, Final(status, code)) => s == Attending && t == Judged(status, code) && IsVerdict(e, status, code)
    case _ => t == s
  }

  /** How an event changes what is known of a command being executed. */
  predicate Moves(c: Config, head: Entry, a: Active, e: Event, b: Active) {
    && !e.Started? && !e.Completed? && !e.WasReset?
    && StageMoves(head, a.stage, e, b.stage)
    && b.kept == a.kept + (if e.Line? && e.fate.Kept? then [e.text] else [])
    && (e.Line? && e.fate.Echo? ==> a.echoDue) && b.echoDue == (a.echoDue && !(e.Line? && e.fate.Echo?))
    && b.clock == match e
                  case Listens => a.clock.(running := true)
                  case Rearmed => Clock(c.promptTimeout, 0, true)
                  case Ticked(ms) => Tock(a.clock, ms)
                  case _ => a.clock
  }

  lemma ObservedMove(c: Config, o: Observer, e: Event)
    requires o.active.Some? && o.pending != []
    requires Observe(c, o, e).Some? && Observe(c, o, e).value.active.Some?
    ensures var p := Observe(c, o, e).value;
            p.pending != [] && p.pending[0] == o.pending[0] && Moves(c, o.pending[0], o.active.value, e, p.active.value)
  {
    var kept := o.active.value.kept;
    assert kept + [] == kept;
    if e.Line? && e.fate.Final? {
      FinalCodeExactly(CStr(e.text), e.fate.status, e.fate.code);
    }
  }

  lemma AccountedStep(c: Config, head: Entry, a: Active, e: Event, b: Active, since: seq<Event>)
    requires Accounted(c, head, a, since) && Moves(c, head, a, e, b)
    ensures Accounted(c, head, b, since + [e])
  {
    assert (since + [e])[..|since|] == since;
    StageStep(head, a.stage, e, b.stage, since);
  }

  lemma StageStep(head: Entry, s: Stage, e: Event, t: Stage, since: seq<Event>)
    requires StageReached(head, s, since) && StageMoves(head, s, e, t) && !e.Started? && !e.Completed? && !e.WasReset?
    ensures StageReached(head, t, since + [e])
  {
    assert (since + [e])[..|since|] == since;
    var due, written := Due(head, since), Written(since);
    assert written + [] == written && due + [] == due;
    if e.Wrote? {
      OwedStep(written, s.texts);
    } else if t.Judged? {
      VerdictStep(s, e, since, t);
    }
  }

  lemma OwedStep(written: seq<string>, owed: seq<string>)
    requires owed != []
    ensures written + owed == (written + [owed[0]]) + owed[1..]
  {
  }

  lemma VerdictStep(before: Stage, e: Event, since: seq<Event>, after: Stage)
    requires after.Judged? && (before == after || IsVerdict(e, after.status, after.code))
    requires before.Judged? ==> HasVerdict(since, before.status, before.code)
    ensures HasVerdict(since + [e], after.status, after.code)
  {
    if IsVerdict(e, after.status, after.code) {
      assert IsVerdict((since + [e])[|since|], after.status, after.code);
    } else {
      var i :| 0 <= i < |since| && IsVerdict(since[i], after.status, after.code);
      assert IsVerdict((since + [e])[i], after.status, after.code);
    }
  }

  lemma {:induction false} ObservedPrefix(c: Config, log: seq<Event>, i: nat)
    requires ObserveAll(c, log).Some? && i <= |log|
    ensures ObserveAll(c, log[..i]).Some?
  {
    if i < |log| {
      ObservedPrefix(c, log[..|log| - 1], i);
      assert log[..|log| - 1][..i] == log[..i];
    } else {
      assert log[..i] == log;
    }
  }

  /** The completion at i belongs to the start at j: nothing else starts or ends in between, and the
      lines delivered are the first ones kept in between. A modem verdict was received in between; a
      timeout means that the countdown has run out; an abort, that at_abort or at_reset was called;
      an I/O error, that a write failed. What was written in between is exactly the command, and its
      body after each prompt, unless a write failed; at most one line was taken for the echo. */
  ghost predicate Owned(c: Config, log: seq<Event>, j: nat, i: nat)
    requires j < i < |log| && log[i].Completed?
  {
    var e, r, since := log[i].entry, log[i].response, log[j + 1..i];
    && log[j] == Started(e)
    && Undisturbed(since)
    && r.lines == Take(KeptTexts(since), c.respMax)
    && (r.status in {Ok, ErrCme, ErrCms, ErrGeneric, ErrTimeout, ErrAborted, ErrIo})
    && (r.status in {Ok, ErrCme, ErrCms, ErrGeneric} ==> HasVerdict(since, r.status, r.errorCode))
    && (r.status == ErrTimeout ==> var k := Countdown(c, e, since); k.running && k.gone >= k.limit)
    && (r.status == ErrAborted <==> AbortedIn(since))
    && (r.status == ErrIo <==> WriteFailed(since))
    && (if r.status == ErrIo then Written(since) <= Due(e, since) else Written(since) == Due(e, since))
    && EchoesIn(since) <= 1
  }

  /** Whatever was started has been completed. */
  ghost predicate NoneOpen(log: seq<Event>) {
    forall k :: 0 <= k < |log| && log[k].Started? ==> exists l :: k < l < |log| && log[l].Completed?
  }

  /** at_reset has been called and has not returned. */
  predicate InReset(log: seq<Event>) {
    log != [] && (log[|log| - 1].ResetCalled? || (!log[|log| - 1].WasReset? && InReset(log[..|log| - 1])))
  }

  lemma {:induction false} InactiveMeansNoneOpen(c: Config, log: seq<Event>)
    requires ObserveAll(c, log).Some?
    ensures ObserveAll(c, log).value.resetting <==> InReset(log)
    ensures ObserveAll(c, log).value.active.None? ==> NoneOpen(log)
  {
    if log != [] {
      var last := |log| - 1;
      InactiveMeansNoneOpen(c, log[..last]);
      if ObserveAll(c, log).value.active.None? {
        NoneOpenStep(c, log);
      }
    }
  }

  lemma NoneOpenStep(c: Config, log: seq<Event>)
    requires log != [] && ObserveAll(c, log).Some? && ObserveAll(c, log).value.active.None?
    requires log[|log| - 1].Completed? || NoneOpen(log[..|log| - 1])
    ensures NoneOpen(log)
  {
    var last := |log| - 1;
    forall k | 0 <= k < |log| && log[k].Started? ensures exists l :: k < l < |log| && log[l].Completed? {
      if !log[last].Completed? {
        assert log[..last][k].Started?;
        var l :| k < l < last && log[..last][l].Completed?;
        assert log[l].Completed?;
      }
    }
  }

  /** at_reset reports a command that was never started. */
  ghost predicate NeverStarted(log: seq<Event>, i: nat)
    requires i < |log| && log[i].Completed?
  {
    log[i].response == Response(ErrAborted, 0, []) && NoneOpen(log[..i]) && InReset(log[..i])
  }

  lemma CompletionsAreOwned(c: Config, log: seq<Event>, i: nat)
    requires ObserveAll(c, log).Some? && i < |log| && log[i].Completed?
    ensures NeverStarted(log, i) || exists j :: 0 <= j < i && Owned(c, log, j, i)
  {
    var before := log[..i];
    ObservedPrefix(c, log, i);
    ObservedPrefix(c, log, i + 1);
    assert log[..i + 1] == before + [log[i]];
    ObserveSnoc(c, before, log[i]);
    var o := ObserveAll(c, before).value;
    if o.active.Some? {
      var j := ActiveAccounted(c, before);
      assert before[j + 1..] == log[j + 1..i];
      CompletionOwned(c, log, j, i, o.active.value);
    } else {
      InactiveMeansNoneOpen(c, before);
    }
  }

  lemma CompletionOwned(c: Config, log: seq<Event>, j: nat, i: nat, a: Active)
    requires j < i < |log| && log[i].Completed? && log[j] == Started(log[i].entry)
    requires Accounted(c, log[i].entry, a, log[j + 1..i]) && Reportable(c, a, log[i].response)
    ensures Owned(c, log, j, i)
  {
    VerdictStatus(a.stage, log[j + 1..i]);
  }

  lemma VerdictStatus(stage: Stage, since: seq<Event>)
    requires stage.Judged? ==> HasVerdict(since, stage.status, stage.code)
    ensures stage.Judged? ==> stage.status in {Ok, ErrCme, ErrCms, ErrGeneric}
  {
    if stage.Judged? {
      var i :| 0 <= i < |since| && IsVerdict(since[i], stage.status, stage.code);
    }
  }

  lemma Observed(c: Config, m: Machine)
    requires Reachable(c, m)
    ensures ObserveAll(c, m.s.log).Some?
  {
    ReachableAlways(c, m);
  }

  /** In every execution each response consists of lines received while its own command was being
      executed, or at_reset reports a command that was never started. */
  lemma ResponsesAreIsolated(c: Config, m: Machine, i: nat)
    requires Reachable(c, m) && i < |m.s.log| && m.s.log[i].Completed?
    ensures NeverStarted(m.s.log, i) || exists j :: 0 <= j < i && Owned(c, m.s.log, j, i)
  {
    Observed(c, m);
    CompletionsAreOwned(c, m.s.log, i);
  }

  /** No completion ever carries AT_ERR_OVERFLOW, although the engine records it internally. */
  lemma OverflowNeverReported(c: Config, m: Machine, i: nat)
    requires Reachable(c, m) && i < |m.s.log| && m.s.log[i].Completed?
    ensures m.s.log[i].response.status != ErrOverflow
  {
    ResponsesAreIsolated(c, m, i);
  }

  /** While a command is waiting for lines, exactly the command and then, for each prompt line, its
      body have been written since it started, and all of it with success. */
  lemma TransmissionsAreExact(c: Config, m: Machine) returns (j: nat)
    requires Reachable(c, m) && m.s.mode == Waiting && (m.pc.Top? || m.pc.InHandler?)
    ensures var s := m.s;
            && s.queue != [] && j < |s.log| && s.log[j] == Started(s.queue[0]) && Undisturbed(s.log[j + 1..])
            && Written(s.log[j + 1..]) == Due(s.queue[0], s.log[j + 1..]) && !WriteFailed(s.log[j + 1..])
  {
    ReachableAlways(c, m);
    j := ActiveAccounted(c, m.s.log);
  }

  /** The line is taken for the echo of the command being executed. */
  predicate ComesAsEcho(c: Config, s: State, line: string) {
    c.echoCancel && s.echoArmed && s.echo <= CStr(line)
  }

  /** No use before that of a handler applies. */
  predicate PassesProtocol(c: Config, s: State, line: string) {
    s.mode == Waiting ==> !ComesAsEcho(c, s, line) && !("> " <= line) && !FinalText(CStr(line))
  }

  predicate StartsWithPrefix(urcs: Slots, k: nat, text: string) {
    k < |urcs| && urcs[k].Some? && urcs[k].value.prefix <= text
  }

  ghost predicate NoPrefix(urcs: Slots, text: string) {
    forall k: nat :: k < |urcs| ==> !StartsWithPrefix(urcs, k, text)
  }

  /** The countdown was restarted, then the body and SUB were written. */
  ghost predicate BodyWritten(c: Config, s: State, line: string, t: State)
    requires ConfigOk(c) && s.queue != []
  {
    Transmitted(c, s.(mode := Prompt, timer := c.promptTimeout, log := s.log + [Line(line, Prompted), Rearmed]),
                s.queue[0].body, ['\U{1A}'], t)
  }

  /** What becomes of the engine when a line is used in one way, and when it may be. */
  ghost predicate UsedAs(c: Config, s: State, line: string, fate: Fate, t: State)
    requires ConfigOk(c)
  {
    var text, log := CStr(line), s.log + [Line(line, fate)];
    match fate
    case Echo => s.mode == Waiting && ComesAsEcho(c, s, line) && t == s.(echoArmed := false, log := log)
    case Prompted =>
      && s.mode == Waiting && !ComesAsEcho(c, s, line) && "> " <= line && s.queue != []
      && if PromptMode(s.queue[0]) then BodyWritten(c, s, line, t) else t == s.(log := log)
    case Final(status, code) =>
      && s.mode == Waiting && !ComesAsEcho(c, s, line) && !("> " <= line)
      && Verdict(text, status, code) && s.queue != []
      && Finished(c, s.(log := log), Response(status, code, s.pool), t)
    case Unsolicited(h) =>
      && PassesProtocol(c, s, line)
      && (exists k: nat :: StartsWithPrefix(s.urcs, k, text) && s.urcs[k].value.handler == h
                           && forall j: nat :: j < k ==> !StartsWithPrefix(s.urcs, j, text))
      && t == AfterCalls(c, s.(log := log))
    case Kept =>
      && s.mode == Waiting && PassesProtocol(c, s, line) && NoPrefix(s.urcs, text)
      && t == s.(pool := Take(s.pool + [line], c.respMax),
                 status := if |s.pool| < c.respMax then s.status else ErrOverflow, log := log)
    case Ignored => s.mode == Idle && NoPrefix(s.urcs, text) && t == s.(log := log)
  }

  /** Every line is put to exactly one use, and only that use's effect takes place. Outside the
      execution of a command only URC handlers see lines. */
  lemma LineIsUsedOnce(c: Config, s: State, line: string)
    requires Inv(c, s)
    ensures var t, fate := Dispatch(c, s, line), Classify(c, s, line);
            s.log + [Line(line, fate)] <= t.log && UsedAs(c, s, line, fate, t)
  {
    var fate := Classify(c, s, line);
    ClassifiedByText(c, s, line);
    match fate
    case Prompted => PromptUse(c, s, line);
    case Final(_, _) => FinalUse(c, s, line);
    case Unsolicited(_) => HandlerUse(c, s, line);
    case Kept => assert NoPrefix(s.urcs, CStr(line));
    case Ignored => assert NoPrefix(s.urcs, CStr(line));
    case Echo =>
  }

  lemma PromptUse(c: Config, s: State, line: string)
    requires Inv(c, s) && Classify(c, s, line).Prompted?
    ensures s.log + [Line(line, Prompted)] <= Dispatch(c, s, line).log
    ensures UsedAs(c, s, line, Prompted, Dispatch(c, s, line))
  {
    ClassifiedByText(c, s, line);
    if PromptMode(s.queue[0]) {
      DispatchSilent(c, s, line);
      BodyUse(c, s, line);
    }
  }

  lemma BodyUse(c: Config, s: State, line: string)
    requires Inv(c, s) && s.mode == Waiting && PromptMode(s.queue[0])
    ensures BodyWritten(c, s, line, SendBody(c, s.(log := s.log + [Line(line, Prompted)])))
  {
    var armed := s.log + [Line(line, Prompted), Rearmed];
    assert s.log + [Line(line, Prompted)] + [Rearmed] == armed;
    TransmitWrites(c, s.(mode := Prompt, timer := c.promptTimeout, log := armed), s.queue[0].body, ['\U{1A}']);
  }

  lemma FinalUse(c: Config, s: State, line: string)
    requires Inv(c, s) && Classify(c, s, line).Final?
    ensures s.log + [Line(line, Classify(c, s, line))] <= Dispatch(c, s, line).log
    ensures UsedAs(c, s, line, Classify(c, s, line), Dispatch(c, s, line))
  {
    var fate := Classify(c, s, line);
    ClassifiedByText(c, s, line);
    FinalizeFinishes(c, s.(log := s.log + [Line(line, fate)]), fate.status, fate.code);
  }

  lemma HandlerUse(c: Config, s: State, line: string)
    requires Inv(c, s) && Classify(c, s, line).Unsolicited?
    ensures s.log + [Line(line, Classify(c, s, line))] <= Dispatch(c, s, line).log
    ensures UsedAs(c, s, line, Classify(c, s, line), Dispatch(c, s, line))
  {
    var fate, k := Classify(c, s, line), FindMatch(s.urcs, CStr(line));
    ClassifiedByText(c, s, line);
    CallbackEffect(c, s.(log := s.log + [Line(line, fate)]));
    assert StartsWithPrefix(s.urcs, k, CStr(line)) && s.urcs[k].value.handler == fate.handler;
  }

  // ---------------------------------------------------------------- starting and aborting

  /** The engine idle, a command is begun: the response is cleared, echo and timer are armed, and the
      command and CR are written. */
  lemma StartTransmits(c: Config, s: State)
    requires Inv(c, s) && s.mode == Idle && s.queue != []
    ensures var e := s.queue[0];
            Transmitted(c, s.(pool := [], status := Pending, timer := e.timeout, mode := Sending,
                              echo := if c.echoCancel then e.cmd else s.echo, echoArmed := c.echoCancel,
                              log := s.log + [Started(e)]),
                        e.cmd, [CR], StartIfIdle(c, s))
  {
    var e := s.queue[0];
    TransmitWrites(c, s.(pool := [], status := Pending, timer := e.timeout, mode := Sending,
                         echo := if c.echoCancel then e.cmd else s.echo, echoArmed := c.echoCancel,
                         log := s.log + [Started(e)]),
                   e.cmd, [CR]);
  }

  /** at_abort reports the command being executed as aborted, with the lines collected so far; when
      none is being executed it changes nothing. */
  lemma AbortReports(c: Config, s: State)
    requires Inv(c, s)
    ensures var called := s.(log := s.log + [AbortCalled]);
            if s.mode == Waiting then Finished(c, called, Response(ErrAborted, 0, s.pool), Abort(c, s))
            else Abort(c, s) == called
  {
    if s.mode == Waiting {
      FinalizeFinishes(c, s.(log := s.log + [AbortCalled]), ErrAborted, 0);
    }
  }

  /** The moves of the interrupts. */
  ghost predicate Interrupts(moves: seq<Move>) {
    forall i :: 0 <= i < |moves| ==> moves[i].Call? && Interrupt(moves[i].step)
  }

  function Follow(c: Config, m: Machine, moves: seq<Move>): (t: Machine)
    requires Always(c, m)
    ensures Always(c, t)
  {
    if moves == [] then m
    else
      NextAlways(c, Follow(c, m, moves[..|moves| - 1]), moves[|moves| - 1]);
      Next(c, Follow(c, m, moves[..|moves| - 1]), moves[|moves| - 1])
  }

  /** Interrupts leave the task where it is; they only feed the ring, count the timer down and are
      recorded. */
  lemma {:induction false} InterruptsKeep(c: Config, m: Machine, moves: seq<Move>)
    requires Always(c, m) && Interrupts(moves)
    ensures var t := Follow(c, m, moves);
            t.pc == m.pc && m.s.log <= t.s.log && t.s == m.s.(rx := t.s.rx, timer := t.s.timer, log := t.s.log)
  {
    if moves != [] {
      InterruptsKeep(c, m, moves[..|moves| - 1]);
      assert moves[|moves| - 1].Call?;
    }
  }

  /** In every execution, a call of at_abort while a command is waiting for lines leads to its report,
      whatever interrupts strike in between; its callback, if it has one, begins to make its calls. */
  lemma AbortIsCarriedOut(c: Config, m: Machine, moves: seq<Move>)
    requires Reachable(c, m) && m.pc.Top? && m.s.mode == Waiting && Interrupts(moves)
    ensures Always(c, m) && m.s.queue != [] && Always(c, Next(c, m, Call(AbortStep)))
    ensures var e, u := m.s.queue[0], Follow(c, Next(c, m, Call(AbortStep)), moves);
            var t := Next(c, u, Continue);
            && m.s.log + [AbortCalled] <= u.s.log
            && t.s.log == u.s.log + [Completed(e, Response(ErrAborted, 0, m.s.pool))]
            && t.pc == InCallback(if e.cb.Some? then NextActs(m.s.world) else [], false)
  {
    ReachableAlways(c, m);
    NextAlways(c, m, Call(AbortStep));
    InterruptsKeep(c, Next(c, m, Call(AbortStep)), moves);
  }

  // ---------------------------------------------------------------- timeouts

  /** The event at k starts a countdown of the given length, and none has been started since: the
      state became WAITING for the first time, or the timer was set for the prompt. */
  ghost predicate StartsCountdown(c: Config, e: Entry, es: seq<Event>, k: nat, limit: nat) {
    && k < |es|
    && (forall i :: k < i < |es| ==> !es[i].Rearmed?)
    && (if es[k].Rearmed? then limit == c.promptTimeout
        else es[k].Listens? && limit == e.timeout && forall i :: 0 <= i < k ==> !es[i].Rearmed? && !es[i].Listens?)
  }

  lemma {:induction false} CountdownNotRunning(c: Config, e: Entry, es: seq<Event>)
    requires !Countdown(c, e, es).running
    ensures Countdown(c, e, es) == Clock(e.timeout, 0, false)
    ensures forall i :: 0 <= i < |es| ==> !es[i].Rearmed? && !es[i].Listens?
  {
    if es != [] {
      CountdownNotRunning(c, e, es[..|es| - 1]);
      assert forall i :: 0 <= i < |es| - 1 ==> es[i] == es[..|es| - 1][i];
    }
  }

  /** A running countdown has exactly counted the ticks since the event that started it. */
  lemma {:induction false} CountdownCounts(c: Config, e: Entry, es: seq<Event>) returns (k: nat)
    requires Countdown(c, e, es).running
    ensures var n := Countdown(c, e, es);
            StartsCountdown(c, e, es, k, n.limit) && n.gone == TicksIn(es[k + 1..])
  {
    var init, last := es[..|es| - 1], es[|es| - 1];
    var before := Countdown(c, e, init);
    if last.Rearmed? || !before.running {
      k := |es| - 1;
      if !before.running {
        CountdownNotRunning(c, e, init);
      }
      assert es[k + 1..] == [];
      assert forall i :: 0 <= i < k ==> es[i] == init[i];
    } else {
      k := CountdownCounts(c, e, init);
      CountdownGrows(c, e, es, k, before.limit);
    }
  }

  lemma CountdownGrows(c: Config, e: Entry, es: seq<Event>, k: nat, limit: nat)
    requires es != [] && !es[|es| - 1].Rearmed? && StartsCountdown(c, e, es[..|es| - 1], k, limit)
    ensures StartsCountdown(c, e, es, k, limit)
    ensures TicksIn(es[k + 1..]) == TicksIn(es[..|es| - 1][k + 1..])
                                    + if es[|es| - 1].Ticked? then es[|es| - 1].ms else 0
  {
    var init, tail := es[..|es| - 1], es[k + 1..];
    assert forall i :: 0 <= i < |init| ==> es[i] == init[i];
    assert tail[|tail| - 1] == es[|es| - 1] && tail[..|tail| - 1] == init[k + 1..];
  }

  /** A command has been started and not yet reported. */
  predicate Executing(m: Machine) {
    (m.s.mode == Waiting || m.s.mode == Prompt) && !m.pc.InCallback? && !m.pc.EnterIdle?
  }

  /** Wherever the interrupts strike: from the moment its state is WAITING the timer of a command is
      its timeout less the time ticked since then, and after a prompt line the prompt timeout less
      the time ticked since that was set, never below zero. Ticks before that moment do not count,
      and no tick after it is lost. */
  lemma TimerIsExact(c: Config, m: Machine) returns (j: nat, k: nat, limit: nat)
    requires Reachable(c, m) && Executing(m)
    ensures var s := m.s;
            && s.queue != [] && j < |s.log| && s.log[j] == Started(s.queue[0]) && Undisturbed(s.log[j + 1..])
            && StartsCountdown(c, s.queue[0], s.log[j + 1..], k, limit)
            && var gone := TicksIn(s.log[j + 1..][k + 1..]);
            s.timer == if gone >= limit then 0 else limit - gone
  {
    var e, clock;
    j, e, clock := ExecutingClock(c, m);
    limit := clock.limit;
    k := CountdownCounts(c, e, m.s.log[j + 1..]);
  }

  lemma ExecutingClock(c: Config, m: Machine) returns (j: nat, e: Entry, clock: Clock)
    requires Reachable(c, m) && Executing(m)
    ensures var s := m.s;
            && s.queue != [] && e == s.queue[0] && j < |s.log| && s.log[j] == Started(e) && Undisturbed(s.log[j + 1..])
            && clock == Countdown(c, e, s.log[j + 1..]) && clock.running && s.timer == Left(clock)
  {
    ReachableAlways(c, m);
    j := ActiveAccounted(c, m.s.log);
    e, clock := m.s.queue[0], ObserveAll(c, m.s.log).value.active.value.clock;
  }

  /** AT_ERR_TIMEOUT is reported only when the ticks since that moment add up to the limit. */
  lemma TimeoutMeansElapsed(c: Config, m: Machine, i: nat) returns (j: nat, k: nat, limit: nat)
    requires Reachable(c, m) && i < |m.s.log| && m.s.log[i].Completed? && m.s.log[i].response.status == ErrTimeout
    ensures var log := m.s.log;
            && j < i && log[j] == Started(log[i].entry) && Undisturbed(log[j + 1..i])
            && StartsCountdown(c, log[i].entry, log[j + 1..i], k, limit)
            && TicksIn(log[j + 1..i][k + 1..]) >= limit
  {
    ResponsesAreIsolated(c, m, i);
    j :| 0 <= j < i && Owned(c, m.s.log, j, i);
    limit := Countdown(c, m.s.log[i].entry, m.s.log[j + 1..i]).limit;
    k := CountdownCounts(c, m.s.log[i].entry, m.s.log[j + 1..i]);
  }

  /** A command whose time is up is reported as timed out, prompt or not; any other is left alone. */
  lemma ExpiryReports(c: Config, s: State)
    requires Inv(c, s)
    ensures if s.mode == Waiting && s.timer == 0 then Finished(c, s, Response(ErrTimeout, 0, s.pool), CheckTimeout(c, s))
            else CheckTimeout(c, s) == s
  {
    if s.mode == Waiting && s.timer == 0 {
      FinalizeFinishes(c, s, ErrTimeout, 0);
    }
  }

  /** A tick is recorded in full, and changes nothing but the timer. */
  lemma TickIsRecorded(s: State, ms: nat)
    ensures var t := Tick(s, ms);
            && TicksIn(t.log) == TicksIn(s.log) + ms
            && t == s.(timer := t.timer, log := s.log + [Ticked(ms)])
  {
    assert (s.log + [Ticked(ms)])[..|s.log|] == s.log;
  }

  /** The task never writes back a timer value it has read: it leaves the timer alone unless it sets
      it for a new command or for the prompt, or clears it. So no tick between two of its accesses
      is overwritten. */
  lemma TaskKeepsTimer(c: Config, m: Machine, move: Move)
    requires Always(c, m) && !(move.Call? && move.step.TickStep?)
    ensures var t := Next(c, m, move);
            || t.s.timer == m.s.timer
            || (m.pc.Top? && t.pc.EnterSending? && m.s.mode == Idle && t.s.queue != []
                && t.s.timer == t.s.queue[0].timeout)
            || (m.pc.SetPromptTimer? && t.s.timer == c.promptTimeout)
            || (m.pc.ClearTimer? && m.s.mode == Idle && t.s.timer == 0)
  {
    match move
    case Call(step) => if m.pc.Top? && !Interrupt(step) { BeginKeepsTimer(c, m.s, step); }
    case Continue => ProceedKeepsTimer(c, m);
  }

  lemma BeginKeepsTimer(c: Config, s: State, step: Step)
    requires Inv(c, s) && !Interrupt(step)
    ensures var t := Begin(c, s, step);
            || t.s.timer == s.timer
            || (t.pc.EnterSending? && s.mode == Idle && t.s.queue != [] && t.s.timer == t.s.queue[0].timeout)
  {
  }

  lemma ProceedKeepsTimer(c: Config, m: Machine)
    requires Always(c, m)
    ensures var t := Proceed(c, m);
            || t.s.timer == m.s.timer
            || (m.pc.SetPromptTimer? && t.s.timer == c.promptTimeout)
            || (m.pc.ClearTimer? && m.s.mode == Idle && t.s.timer == 0)
  {
    if m.pc.ResetRest? {
      AbortAllKeepsTimer(c, m.s);
    }
  }

  lemma {:induction false} AbortAllKeepsTimer(c: Config, s: State)
    requires ConfigOk(c)
    ensures AbortAll(c, s).timer == s.timer
    decreases |s.queue| + SendsLeft(s.world)
  {
    if s.queue != [] {
      var r := Response(ErrAborted, 0, []);
      ReportShrinks(c, s, r);
      var added := ReportEffect(c, s, r);
      AbortAllKeepsTimer(c, Report(c, s, r));
    }
  }

  /** At k a final result line is recorded, and right after it the completion of e with that result. */
  predicate ResultAt(log: seq<Event>, k: nat, e: Entry) {
    && k + 1 < |log| && log[k].Line? && log[k].fate.Final? && log[k + 1].Completed? && log[k + 1].entry == e
    && log[k + 1].response.status == log[k].fate.status && log[k + 1].response.errorCode == log[k].fate.code
  }

  /** Since the record was n events long, a final result line has completed e. */
  ghost predicate CompletedByResult(log: seq<Event>, n: nat, e: Entry) {
    exists k: nat :: n <= k && ResultAt(log, k, e)
  }

  lemma CompletedByResultGrows(log: seq<Event>, longer: seq<Event>, n: nat, e: Entry)
    requires CompletedByResult(log, n, e) && log <= longer
    ensures CompletedByResult(longer, n, e)
  {
    var k: nat :| n <= k && ResultAt(log, k, e);
    assert longer[k] == log[k] && longer[k + 1] == log[k + 1];
    assert ResultAt(longer, k, e);
  }

  lemma PopGrows(c: Config, s: State)
    requires Inv(c, s)
    ensures s.log <= PopByte(c, s).log
  {
    if s.rx != "" {
      var (fsm, line) := LineFsm.Step(s.fsm, s.rx[0], c.lineMax);
      var s1 := s.(rx := s.rx[1..], log := s.log + [Received(s.rx[0])]);
      if line.Some? {
        DispatchSilent(c, s1, line.value);
        var longer := s1.log + [Line(line.value, Classify(c, s1, line.value))];
        assert longer == Dispatch(c, s1, line.value).log[..|longer|];
      }
    }
  }

  /** While draining, the timer of a command without prompt does not move, unless a final result
      completes the command. */
  lemma PopKeepsTimer(c: Config, s: State)
    requires Inv(c, s) && s.mode == Waiting && !PromptMode(s.queue[0])
    ensures var t := PopByte(c, s);
            || (t.mode == Waiting && t.timer == s.timer && t.queue != [] && t.queue[0] == s.queue[0])
            || (t.mode == Idle && CompletedByResult(t.log, |s.log|, s.queue[0]))
  {
    if s.rx != "" {
      var (fsm, line) := LineFsm.Step(s.fsm, s.rx[0], c.lineMax);
      if line.Some? {
        LineKeepsTimer(c, s, line.value);
      }
    }
  }

  lemma LineKeepsTimer(c: Config, s: State, line: string)
    requires Inv(c, s) && s.mode == Waiting && !PromptMode(s.queue[0]) && s.rx != ""
    ensures var t := Dispatch(c, s.(rx := s.rx[1..], log := s.log + [Received(s.rx[0])]), line);
            || (t.mode == Waiting && t.timer == s.timer && t.queue != [] && t.queue[0] == s.queue[0])
            || (t.mode == Idle && CompletedByResult(t.log, |s.log|, s.queue[0]))
  {
    var s1 := s.(rx := s.rx[1..], log := s.log + [Received(s.rx[0])]);
    ObserveSnoc(c, s.log, Received(s.rx[0]));
    LineIsUsedOnce(c, s1, line);
    var t, fate := Dispatch(c, s1, line), Classify(c, s1, line);
    if fate.Final? {
      ResultCompletes(c, s1, line, fate.status, fate.code, t, |s.log|);
    }
  }

  lemma ResultCompletes(c: Config, s: State, line: string, status: Status, code: int, t: State, n: nat)
    requires ConfigOk(c) && s.queue != [] && n <= |s.log|
    requires Finished(c, s.(log := s.log + [Line(line, Final(status, code))]), Response(status, code, s.pool), t)
    ensures t.mode == Idle && CompletedByResult(t.log, n, s.queue[0])
  {
    var log := s.log + [Line(line, Final(status, code))] + [Completed(s.queue[0], Response(status, code, s.pool))];
    assert ResultAt(log, |s.log|, s.queue[0]);
    assert CompletedByResult(log, n, s.queue[0]);
    CompletedByResultGrows(log, t.log, n, s.queue[0]);
  }

  lemma {:induction false} DrainKeepsTimer(c: Config, s: State)
    requires Inv(c, s) && (s.mode == Waiting ==> !PromptMode(s.queue[0]))
    ensures var t := Drain(c, s);
            && s.log <= t.log
            && if s.mode == Idle then t.mode == Idle
               else || (t.mode == Idle && CompletedByResult(t.log, |s.log|, s.queue[0]))
                    || (t.mode == Waiting && t.timer == s.timer && t.queue[0] == s.queue[0])
    decreases |s.rx|
  {
    if s.rx != "" {
      PopKeepsInv(c, s);
      PopConsumes(c, s);
      PopGrows(c, s);
      var u := PopByte(c, s);
      if s.mode == Waiting {
        PopKeepsTimer(c, s);
      } else {
        PopIdle(c, s);
      }
      DrainKeepsTimer(c, u);
      if s.mode == Waiting {
        DrainResult(s, u, Drain(c, s));
      }
    }
  }

  lemma DrainResult(s: State, u: State, t: State)
    requires s.queue != [] && s.log <= u.log && u.log <= t.log
    ensures CompletedByResult(u.log, |s.log|, s.queue[0]) ==> CompletedByResult(t.log, |s.log|, s.queue[0])
    ensures CompletedByResult(t.log, |u.log|, s.queue[0]) ==> CompletedByResult(t.log, |s.log|, s.queue[0])
  {
    if CompletedByResult(u.log, |s.log|, s.queue[0]) {
      CompletedByResultGrows(u.log, t.log, |s.log|, s.queue[0]);
    }
  }

  lemma PopIdle(c: Config, s: State)
    requires Inv(c, s) && s.mode == Idle
    ensures PopByte(c, s).mode == Idle
  {
    if s.rx != "" {
      var (fsm, line) := LineFsm.Step(s.fsm, s.rx[0], c.lineMax);
      if line.Some? {
        var s1 := s.(rx := s.rx[1..], log := s.log + [Received(s.rx[0])]);
        CallbackEffect(c, s1.(log := s1.log + [Line(line.value, Classify(c, s1, line.value))]));
      }
    }
  }

  /** An expired command is over after the next at_process: either a final result came while the
      ring was drained, or it is reported as timed out there and then. A command whose time is not
      up is not timed out. */
  lemma TimeoutIsPrompt(c: Config, s: State)
    requires Inv(c, s) && s.mode == Waiting && !PromptMode(s.queue[0])
    ensures var d := Drain(c, s);
            || (d.mode == Idle && CompletedByResult(d.log, |s.log|, s.queue[0]))
            || (d.mode == Waiting && d.queue[0] == s.queue[0]
                && if s.timer > 0 then Process(c, s) == d
                   else Process(c, s) == StartIfIdle(c, Finalize(c, d, ErrTimeout, 0)))
  {
    DrainKeepsTimer(c, s);
  }

  // ---------------------------------------------------------------- bytes and lines

  /** The bytes stored in the ring since the last reset. */
  function Stored(log: seq<Event>): string {
    if log == [] then ""
    else match log[|log| - 1]
      case Arrived(b, true) => Stored(log[..|log| - 1]) + [b]
      case WasReset => ""
      case _ => Stored(log[..|log| - 1])
  }

  /** The bytes taken from the ring since the last reset. */
  function Taken(log: seq<Event>): string {
    if log == [] then ""
    else match log[|log| - 1]
      case Received(b) => Taken(log[..|log| - 1]) + [b]
      case WasReset => ""
      case _ => Taken(log[..|log| - 1])
  }

  /** The lines dispatched since the last reset. */
  function Dispatched(log: seq<Event>): seq<string> {
    if log == [] then []
    else match log[|log| - 1]
      case Line(text, _) => Dispatched(log[..|log| - 1]) + [text]
      case WasReset => []
      case _ => Dispatched(log[..|log| - 1])
  }

  ghost predicate Streams(c: Config, s: State) {
    && Stored(s.log) == Taken(s.log) + s.rx
    && LineFsm.Run(LineFsm.IDLE, Taken(s.log), c.lineMax) == (s.fsm, Dispatched(s.log))
  }

  lemma {:induction false} QuietEvents(log: seq<Event>, es: seq<Event>)
    requires AllQuiet(es)
    ensures Stored(log + es) == Stored(log) && Taken(log + es) == Taken(log) && Dispatched(log + es) == Dispatched(log)
  {
    if es == [] {
      assert log + es == log;
    } else {
      var last := |es| - 1;
      QuietEvents(log, es[..last]);
      assert (log + es)[..|log + es| - 1] == log + es[..last];
      assert Quiet(es[last]);
    }
  }

  lemma SilentStreams(c: Config, s: State, t: State)
    requires Silent(s, t) && Streams(c, s)
    ensures Streams(c, t)
  {
    assert t.log == s.log + t.log[|s.log|..];
    QuietEvents(s.log, t.log[|s.log|..]);
  }

  lemma TakenSnoc(log: seq<Event>, b: char, rest: string)
    ensures Stored(log + [Received(b)]) == Stored(log)
    ensures Taken(log + [Received(b)]) == Taken(log) + [b]
    ensures Dispatched(log + [Received(b)]) == Dispatched(log)
    ensures Taken(log + [Received(b)]) + rest == Taken(log) + ([b] + rest)
  {
    assert (log + [Received(b)])[..|log|] == log;
  }

  lemma LineSnoc(log: seq<Event>, text: string, fate: Fate)
    ensures Stored(log + [Line(text, fate)]) == Stored(log)
    ensures Taken(log + [Line(text, fate)]) == Taken(log)
    ensures Dispatched(log + [Line(text, fate)]) == Dispatched(log) + [text]
  {
    assert (log + [Line(text, fate)])[..|log|] == log;
  }

  lemma ArrivalStreams(c: Config, s: State, b: char)
    requires Streams(c, s)
    ensures Streams(c, FeedByte(c, s, b))
  {
    var t := FeedByte(c, s, b);
    assert t.log[..|t.log| - 1] == s.log;
    assert Taken(s.log) + (s.rx + [b]) == (Taken(s.log) + s.rx) + [b];
  }

  /** All other steps but a reset leave the ring and the record of bytes and lines alone. */
  lemma OtherStepSilent(c: Config, s: State, step: Step)
    requires Inv(c, s) && !step.FeedByteStep? && !step.PopByteStep? && !step.ResetStep?
    ensures Silent(s, Apply(c, s, step))
  {
    SilentAppend(s, s, []);
    match step
    case SendStep(d) =>
      if SendCheck(c, d, |s.queue|) == Ok { SilentAppend(s, Enqueue(c, s, d), [Accepted(MakeEntry(c, d))]); }
    case TickStep(ms) => SilentAppend(s, Tick(s, ms), [Ticked(ms)]);
    case CheckTimeoutStep => if s.mode == Waiting && s.timer == 0 { FinalizeSilent(c, s, ErrTimeout, 0); }
    case StartIfIdleStep => if s.mode == Idle && s.queue != [] { StartSilent(c, s); }
    case AbortStep =>
      var s1 := s.(log := s.log + [AbortCalled]);
      SilentAppend(s, s1, [AbortCalled]);
      if s.mode == Waiting {
        FinalizeSilent(c, s1, ErrAborted, 0);
        SilentChain(s, s1, Finalize(c, s1, ErrAborted, 0));
      }
    case _ =>
  }

  lemma LineStreams(c: Config, s: State, line: string, fsm: LineFsm.Fsm, lines: seq<string>)
    requires Inv(c, s) && s.fsm == fsm && Stored(s.log) == Taken(s.log) + s.rx
    requires LineFsm.Run(LineFsm.IDLE, Taken(s.log), c.lineMax) == (fsm, Dispatched(s.log) + [line])
    ensures Streams(c, BeginLine(c, s, line).s)
  {
    LineSnoc(s.log, line, Classify(c, s, line));
  }

  lemma PopStreams(c: Config, s: State)
    requires Inv(c, s) && Streams(c, s) && s.rx != ""
    ensures Streams(c, BeginPop(c, s).s)
  {
    var b, taken := s.rx[0], Taken(s.log);
    var (fsm, line) := LineFsm.Step(s.fsm, b, c.lineMax);
    var s1 := s.(rx := s.rx[1..], fsm := fsm, log := s.log + [Received(b)]);
    TakenSnoc(s.log, b, s1.rx);
    assert [b] + s1.rx == s.rx;
    assert (taken + [b])[..|taken|] == taken;
    assert LineFsm.Run(LineFsm.IDLE, taken + [b], c.lineMax) == (fsm, Dispatched(s.log) + LineFsm.Lines(line));
    if line.Some? {
      PopKeepsBytes(c, s);
      LineStreams(c, s1, line.value, fsm, Dispatched(s.log));
    } else {
      assert Dispatched(s.log) + [] == Dispatched(s.log);
    }
  }

  lemma PopKeepsBytes(c: Config, s: State)
    requires Inv(c, s) && s.rx != ""
    ensures var (fsm, line) := LineFsm.Step(s.fsm, s.rx[0], c.lineMax);
            Inv(c, s.(rx := s.rx[1..], fsm := fsm, log := s.log + [Received(s.rx[0])]))
  {
    LineFsm.StepConsistent(s.fsm, s.rx[0], c.lineMax);
    ObserveSnoc(c, s.log, Received(s.rx[0]));
  }

  /** What begins other than by taking a byte records no byte and no line. */
  lemma BeginSilent(c: Config, s: State, step: Step)
    requires Inv(c, s) && !Interrupt(step) && !step.PopByteStep?
    ensures Silent(s, Begin(c, s, step).s)
  {
    SilentAppend(s, s, []);
    match step
    case SendStep(d) =>
      if SendCheck(c, d, |s.queue|) == Ok { SilentAppend(s, Enqueue(c, s, d), [Accepted(MakeEntry(c, d))]); }
    case StartIfIdleStep =>
      if s.mode == Idle && s.queue != [] { SilentAppend(s, BeginStart(c, s).s, [Started(s.queue[0])]); }
    case AbortStep => SilentAppend(s, Begin(c, s, step).s, [AbortCalled]);
    case ResetStep => SilentAppend(s, Begin(c, s, step).s, [ResetCalled]);
    case _ =>
  }

  lemma ActSilent(c: Config, s: State, a: Act)
    requires ConfigOk(c)
    ensures Silent(s, DoAct(c, s, a))
  {
    SilentAppend(s, s, []);
    if a.Send? && SendCheck(c, a.desc, |s.queue|) == Ok {
      SilentAppend(s, Enqueue(c, s, a.desc), [Accepted(MakeEntry(c, a.desc))]);
    }
  }

  lemma WriteSilent(s: State, bytes: string)
    ensures Silent(s, Write(s, bytes).0)
  {
    SilentAppend(s, Write(s, bytes).0, [Wrote(bytes, Write(s, bytes).1)]);
  }

  /** Neither does any access in the middle of an engine function, the end of at_reset apart. */
  lemma ProceedSilent(c: Config, m: Machine)
    requires Always(c, m) && !m.pc.ResetRest?
    ensures Silent(m.s, Proceed(c, m).s)
  {
    var s := m.s;
    SilentAppend(s, s, []);
    match m.pc
    case SetPromptTimer => SilentAppend(s, Proceed(c, m).s, [Rearmed]);
    case WriteFirst(first, _) => WriteSilent(s, first);
    case WriteSecond(second) => WriteSilent(s, second);
    case EnterWaiting => SilentAppend(s, Proceed(c, m).s, [Listens]);
    case Finish(status, code, _) =>
      SilentAppend(s, Proceed(c, m).s, [Completed(s.queue[0], Response(status, code, s.pool))]);
    case InCallback(acts, _) => if acts != [] { ActSilent(c, s, acts[0]); }
    case InHandler(acts) => if acts != [] { ActSilent(c, s, acts[0]); }
    case _ =>
  }

  lemma NextStreams(c: Config, m: Machine, move: Move)
    requires Always(c, m) && Streams(c, m.s)
    ensures Streams(c, Next(c, m, move).s)
  {
    var t := Next(c, m, move).s;
    if move == Continue {
      ProceedStreams(c, m);
    } else if move.step.FeedByteStep? {
      ArrivalStreams(c, m.s, move.step.b);
    } else if move.step.TickStep? {
      SilentAppend(m.s, t, [Ticked(move.step.ms)]);
      SilentStreams(c, m.s, t);
    } else if m.pc == Top {
      BeginStreams(c, m.s, move.step);
    }
  }

  lemma ProceedStreams(c: Config, m: Machine)
    requires Always(c, m) && Streams(c, m.s)
    ensures Streams(c, Proceed(c, m).s)
  {
    if m.pc.ResetRest? {
      ResetStreams(c, m.s);
    } else {
      ProceedSilent(c, m);
      SilentStreams(c, m.s, Proceed(c, m).s);
    }
  }

  lemma ResetStreams(c: Config, s: State)
    requires ConfigOk(c)
    ensures Streams(c, ResetLast(c, s))
  {
    var t := ResetLast(c, s);
    assert t.log[|t.log| - 1] == WasReset;
  }

  lemma BeginStreams(c: Config, s: State, step: Step)
    requires Inv(c, s) && Streams(c, s) && !Interrupt(step)
    ensures Streams(c, Begin(c, s, step).s)
  {
    if !step.PopByteStep? {
      BeginSilent(c, s, step);
      SilentStreams(c, s, Begin(c, s, step).s);
    } else if s.rx != "" {
      PopStreams(c, s);
    }
  }

  lemma {:induction false} ExecutionStreams(c: Config, world: World, moves: seq<Move>)
    requires ConfigOk(c)
    ensures Streams(c, Execute(c, world, moves).s)
  {
    if moves != [] {
      ExecutionStreams(c, world, moves[..|moves| - 1]);
      NextStreams(c, Execute(c, world, moves[..|moves| - 1]), moves[|moves| - 1]);
    }
  }

  /** In every execution the lines dispatched since the last reset are those of the stored bytes, as
      far as these have been taken: they depend on nothing else, in particular not on how the bytes
      were grouped into calls or interleaved with ticks, sends and callbacks. */
  lemma LinesDependOnBytesOnly(c: Config, m: Machine)
    requires Reachable(c, m)
    ensures Stored(m.s.log) == Taken(m.s.log) + m.s.rx
    ensures Dispatched(m.s.log) == LineFsm.Split(Taken(m.s.log), c.lineMax)
    ensures m.s.fsm == LineFsm.Partial(LineFsm.Remainder(Taken(m.s.log)), c.lineMax)
  {
    var world, moves :| m == Execute(c, world, moves);
    ExecutionStreams(c, world, moves);
    LineFsm.RunIsSplit(Taken(m.s.log), c.lineMax);
  }

  // ---------------------------------------------------------------- at_reset

  /** Every completion among the events is an abort. */
  ghost predicate OnlyAborts(es: seq<Event>) {
    forall i :: 0 <= i < |es| && es[i].Completed? ==> es[i].response.status == ErrAborted
  }

  lemma ReportAborts(c: Config, s: State, r: Response)
    requires ConfigOk(c) && s.queue != [] && r.status == ErrAborted
    ensures |s.log| <= |Report(c, s, r).log| && OnlyAborts(Report(c, s, r).log[|s.log|..])
  {
    var added := ReportEffect(c, s, r);
    assert Report(c, s, r).log[|s.log|..] == [Completed(s.queue[0], r)] + Accepts(added);
  }

  lemma {:induction false} AbortAllAborts(c: Config, s: State)
    requires ConfigOk(c)
    ensures var t := AbortAll(c, s); |s.log| <= |t.log| && OnlyAborts(t.log[|s.log|..])
    decreases |s.queue| + SendsLeft(s.world)
  {
    if s.queue != [] {
      var r := Response(ErrAborted, 0, []);
      ReportShrinks(c, s, r);
      ReportAborts(c, s, r);
      var u, t := Report(c, s, r), AbortAll(c, s);
      AbortAllAborts(c, u);
      AbortAllSilent(c, u);
      assert t.log[|s.log|..] == u.log[|s.log|..] + t.log[|u.log|..];
    }
  }

  lemma ResetFirstAborts(c: Config, s: State)
    requires Inv(c, s)
    ensures var s1 := ResetFirst(c, s);
            |s.log| <= |s1.log| && s1.log[..|s.log|] == s.log && OnlyAborts(s1.log[|s.log|..])
  {
    var s0, s1 := s.(log := s.log + [ResetCalled]), ResetFirst(c, s);
    if s.mode != Idle {
      FinalizeSilent(c, s0, ErrAborted, 0);
      ReportAborts(c, s0.(status := ErrAborted), Response(ErrAborted, 0, s.pool));
      assert s1.log[|s.log|..] == [ResetCalled] + s1.log[|s0.log|..];
      assert s1.log[..|s.log|] == s1.log[..|s0.log|][..|s.log|];
    }
  }

  /** at_reset first reports the command being executed with the lines collected so far, if there is
      one, then one command after the other, each callback making its calls, and then forgets what was
      received; handlers stay registered. */
  lemma ResetReports(c: Config, s: State)
    requires Inv(c, s)
    ensures var called, first := s.(log := s.log + [ResetCalled]), ResetFirst(c, s);
            var t := AbortAll(c, first);
            && (if s.mode == Waiting then Finished(c, called, Response(ErrAborted, 0, s.pool), first) else first == called)
            && Reset(c, s) == t.(rx := "", mode := Idle, fsm := LineFsm.IDLE, echoArmed := false, pool := [],
                                 log := t.log + [WasReset])
  {
    if s.mode == Waiting {
      FinalizeFinishes(c, s.(log := s.log + [ResetCalled]), ErrAborted, 0);
    }
  }

  lemma {:induction false} AbortAllReports(c: Config, s: State)
    requires ConfigOk(c)
    ensures AbortAll(c, s) == if s.queue == [] then s else AbortAll(c, AfterReport(c, s, Response(ErrAborted, 0, [])))
  {
    if s.queue != [] {
      ReportRunsCallback(c, s, Response(ErrAborted, 0, []));
    }
  }

  /** at_reset ends, whatever finitely many commands its callbacks send: the queue, the ring, the
      pool and the line assembler are empty, and everything accepted before or during it has been
      completed in order, everything it completed with ABORTED. */
  lemma ResetAbortsEverything(c: Config, s: State)
    requires Inv(c, s)
    ensures var t := Reset(c, s);
            && t.queue == [] && t.rx == "" && t.pool == [] && t.mode == Idle && t.fsm == LineFsm.IDLE
            && AcceptedIn(t.log) == CompletedIn(t.log)
            && |s.log| <= |t.log| && t.log[..|s.log|] == s.log && OnlyAborts(t.log[|s.log|..])
  {
    var s1 := ResetFirst(c, s);
    ResetFirstTracked(c, s);
    ResetFirstAborts(c, s);
    AbortAllTracked(c, s1);
    AbortAllAborts(c, s1);
    AbortAllSilent(c, s1);
    OnlyAbortsJoin(s.log, s1.log, AbortAll(c, s1).log, Reset(c, s).log);
    ResetKeepsInv(c, s);
    AllCompleted(c, Reset(c, s));
  }

  lemma OnlyAbortsJoin(a: seq<Event>, b: seq<Event>, d: seq<Event>, e: seq<Event>)
    requires |a| <= |b| && b[..|a|] == a && OnlyAborts(b[|a|..])
    requires |b| <= |d| && d[..|b|] == b && OnlyAborts(d[|b|..])
    requires e == d + [WasReset]
    ensures |a| <= |e| && e[..|a|] == a && OnlyAborts(e[|a|..])
  {
    assert e[|a|..] == b[|a|..] + d[|b|..] + [WasReset];
  }

  lemma AllCompleted(c: Config, s: State)
    requires Inv(c, s) && s.queue == []
    ensures AcceptedIn(s.log) == CompletedIn(s.log)
  {
    Conserved(c, s);
    assert CompletedIn(s.log) + [] == CompletedIn(s.log);
  }
}
