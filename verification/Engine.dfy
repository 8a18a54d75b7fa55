/** The AT engine of src/at.c with its fixed buffers, updated in place. Every method is proved to do
    what the function of the same purpose in EngineSpec does to the abstract state. */
module Engine {
  import opened Common
  import opened Fmt
  import opened EngineTypes
  import opened EngineSpec
  import opened EngineRuns
  import opened EngineTheorems
  import Arithmetic
  import UrcTable
  import LineFsm
  import RxRing

  const ZERO_ENTRY := Entry("", "", false, 0, false, None)

  /** (tail + i) % depth, for a slot number tail and at most depth steps. */
  function Pos(tail: nat, i: nat, depth: nat): nat {
    if tail + i < depth then tail + i else tail + i - depth
  }

  lemma PosIsMod(tail: nat, i: nat, depth: nat)
    requires tail < depth && i <= depth
    ensures Pos(tail, i, depth) == (tail + i) % depth
  {
    Arithmetic.SmallMod(Pos(tail, i, depth), depth);
    if tail + i >= depth {
      Arithmetic.AddMultiple(tail + i - depth, depth, 1);
    }
  }

  /** The entries q lie in consecutive slots from tail on. */
  ghost predicate QueueHolds(slots: seq<Entry>, tail: nat, q: seq<Entry>) {
    && tail < |slots| && |q| <= |slots|
    && forall i :: 0 <= i < |q| ==> slots[Pos(tail, i, |slots|)] == q[i]
  }

  lemma QueuePush(slots: seq<Entry>, tail: nat, q: seq<Entry>, e: Entry)
    requires QueueHolds(slots, tail, q) && |q| < |slots|
    ensures QueueHolds(slots[Pos(tail, |q|, |slots|) := e], tail, q + [e])
    ensures Pos(Pos(tail, |q|, |slots|), 1, |slots|) == Pos(tail, |q| + 1, |slots|)
  {
  }

  lemma QueueDrop(slots: seq<Entry>, tail: nat, q: seq<Entry>, e: Entry)
    requires QueueHolds(slots, tail, q) && q != []
    ensures slots[tail] == q[0]
    ensures QueueHolds(slots[tail := e], Pos(tail, 1, |slots|), q[1..])
    ensures Pos(tail, |q|, |slots|) == Pos(Pos(tail, 1, |slots|), |q| - 1, |slots|)
  {
    assert slots[Pos(tail, 0, |slots|)] == q[0];
    forall i | 0 <= i < |q[1..]| ensures slots[tail := e][Pos(Pos(tail, 1, |slots|), i, |slots|)] == q[1..][i] {
      assert q[1..][i] == q[i + 1] == slots[Pos(tail, i + 1, |slots|)];
    }
  }

  class Engine {
    const c: Config

    const rx: RxRing.Ring

    const queue: array<Entry>
    var qHead: nat  // next slot to write
    var qTail: nat  // next slot to execute
    var qCount: nat

    var mode: Mode
    var timerMs: nat
    const pool: array<string>
    var poolCount: nat
    var status: Status

    var lfsm: LineFsm.Phase
    const lineBuf: array<char>
    var lineLen: nat

    const urcTable: array<Option<Urc>>

    var echoExpect: CString
    var echoArmed: bool

    var world: World              // stands for the code outside the engine
    ghost var commands: seq<Entry> // the queue, oldest first
    ghost var log: seq<Event>

    /** The buffers have their configured sizes. */
    predicate Layout() {
      && ConfigOk(c)
      && rx.buf.Length == c.rxSize && rx.buf != lineBuf
      && queue.Length == c.depth && pool.Length == c.respMax
      && lineBuf.Length == c.lineMax && urcTable.Length == c.urcSize
    }

    /** The indices are in range and the circular queue holds `commands`. */
    ghost predicate Shape()
      reads this, rx, rx.buf, queue, pool, lineBuf, urcTable
    {
      && Layout() && rx.Valid()
      && poolCount <= c.respMax && lineLen < c.lineMax
      && qCount == |commands| && qHead == Pos(qTail, qCount, c.depth)
      && QueueHolds(queue[..], qTail, commands)
    }

    ghost function Abs(): State
      requires poolCount <= pool.Length && lineLen <= lineBuf.Length
      reads this, rx, rx.buf, queue, pool, lineBuf, urcTable
    {
      State(rx.contents, commands, mode, timerMs, pool[..poolCount], status,
            LineFsm.Fsm(lfsm, lineBuf[..lineLen]), urcTable[..], echoExpect, echoArmed, world, log)
    }

    /** The invariant of every API boundary. */
    ghost predicate Valid()
      reads this, rx, rx.buf, queue, pool, lineBuf, urcTable
    {
      Shape() && Inv(c, Abs())
    }

    /** At every API boundary the accepted commands are the completed ones followed by the queue,
        whose slots run from qTail up to qHead; nothing is being written. */
    lemma NothingLost()
      requires Valid()
      ensures AcceptedIn(log) == CompletedIn(log) + commands
      ensures qHead == (qTail + qCount) % c.depth && (qCount > 0 ==> queue[qTail] == commands[0])
      ensures (mode == Mode.Idle || mode == Waiting) && (mode == Waiting ==> qCount > 0)
    {
      Conserved(c, Abs());
      PosIsMod(qTail, qCount, c.depth);
      if qCount > 0 {
        assert queue[..][Pos(qTail, 0, c.depth)] == commands[0];
      }
    }

    /** at_init */
    constructor (config: Config, w: World)
      requires ConfigOk(config)
      ensures Valid() && c == config && Abs() == Init(config, w)
      ensures rx.contents == "" && qCount == 0 && mode == Mode.Idle && urcTable[..] == seq(c.urcSize, _ => None)
      ensures fresh(rx) && fresh(rx.buf) && fresh(queue) && fresh(pool) && fresh(lineBuf) && fresh(urcTable)
    {
      c := config;
      rx := new RxRing.Ring(config.rxSize);
      queue := new Entry[config.depth];
      qHead, qTail, qCount := 0, 0, 0;
      mode, timerMs := Mode.Idle, 0;
      pool := new string[config.respMax];
      poolCount, status := 0, Ok;
      lfsm, lineBuf, lineLen := LineFsm.Start, new char[config.lineMax], 0;
      urcTable := new Option<Urc>[config.urcSize](_ => None);
      echoExpect, echoArmed := "", false;
      world, commands, log := w, [], [];
      new;
      assert urcTable[..] == seq(c.urcSize, _ => None);
      assert pool[..0] == [] && lineBuf[..0] == [];
    }

    // -------------------------------------------------------------- at_send

    method Send(d: Desc) returns (r: Status)
      requires Shape()
      modifies this`qHead, this`qCount, this`commands, this`log, queue
      ensures Shape() && Abs() == Enqueue(c, old(Abs()), d)
      ensures r == SendCheck(c, d, old(qCount)) && Sends(c, old(Abs()), d, r, Abs())
      ensures old(Valid()) ==> Valid()
    {
      SendStores(c, Abs(), d);
      if Valid() {
        ActKeepsInv(c, Abs(), Act.Send(d));
      }
      if d.cmd.None? || d.cmd.value == "" { return ErrParam; }
      if qCount >= c.depth { return ErrBusy; }
      var hasBody := d.body.Some? && d.body.value != "";
      var e := Entry(
        Take(d.cmd.value, c.txSize - 1),
        if hasBody then Take(d.body.value, 2 * c.txSize - 1) else "",
        hasBody,
        if d.timeout != 0 then d.timeout else c.defaultTimeout % 65536,
        d.sms, d.cb);
      PushEntry(e);
      return Ok;
    }

    method PushEntry(e: Entry)
      requires Shape() && qCount < c.depth
      modifies this`qHead, this`qCount, this`commands, this`log, queue
      ensures Shape()
      ensures Abs() == old(Abs()).(queue := old(commands) + [e], log := old(log) + [Accepted(e)])
    {
      QueuePush(queue[..], qTail, commands, e);
      ghost var slots := queue[..];
      queue[qHead] := e;
      assert queue[..] == slots[Pos(qTail, qCount, c.depth) := e];
      commands := commands + [e];
      qHead := Pos(qHead, 1, c.depth);
      qCount := qCount + 1;
      log := log + [Accepted(e)];
    }

    // -------------------------------------------------------------- URC table

    method RegisterUrc(prefix: Option<CString>, handler: Option<Handler>) returns (r: Status)
      requires Shape()
      modifies urcTable
      ensures Shape() && Abs() == DoAct(c, old(Abs()), Register(prefix, handler))
      ensures (urcTable[..], r) == UrcTable.Registered(old(urcTable[..]), c.lineMax, prefix, handler)
      ensures old(Valid()) ==> Valid()
    {
      if Valid() {
        ActKeepsInv(c, Abs(), Register(prefix, handler));
      }
      if prefix.None? || handler.None? { return ErrParam; }
      var p := Take(prefix.value, c.lineMax - 1);
      ghost var t := urcTable[..];
      for i := 0 to urcTable.Length
        invariant urcTable[..] == t
        invariant forall j :: 0 <= j < i ==> !(t[j].Some? && t[j].value.prefix == p)
      {
        if urcTable[i].Some? && urcTable[i].value.prefix == p {
          urcTable[i] := Some(Urc(p, handler.value));
          assert UrcTable.FindPrefix(t, p) == i;
          assert urcTable[..] == t[i := Some(Urc(p, handler.value))];
          return Ok;
        }
      }
      for i := 0 to urcTable.Length
        invariant urcTable[..] == t
        invariant forall j :: 0 <= j < i ==> t[j].Some?
      {
        if urcTable[i].None? {
          urcTable[i] := Some(Urc(p, handler.value));
          assert UrcTable.FindFree(t) == i;
          assert urcTable[..] == t[i := Some(Urc(p, handler.value))];
          return Ok;
        }
      }
      return ErrBusy;
    }

    method DeregisterUrc(prefix: Option<CString>) returns (r: Status)
      requires Shape()
      modifies urcTable
      ensures Shape() && Abs() == DoAct(c, old(Abs()), Deregister(prefix))
      ensures (urcTable[..], r) == UrcTable.Deregistered(old(urcTable[..]), c.lineMax, prefix)
      ensures old(Valid()) ==> Valid()
    {
      if Valid() {
        ActKeepsInv(c, Abs(), Deregister(prefix));
      }
      if prefix.None? { return ErrParam; }
      var p := Take(prefix.value, c.lineMax - 1);
      ghost var t := urcTable[..];
      for i := 0 to urcTable.Length
        invariant urcTable[..] == t
        invariant forall j :: 0 <= j < i ==> !(t[j].Some? && t[j].value.prefix == p)
      {
        if urcTable[i].Some? && urcTable[i].value.prefix == p {
          urcTable[i] := None;
          assert UrcTable.FindPrefix(t, p) == i;
          assert urcTable[..] == t[i := None];
          return Ok;
        }
      }
      return ErrParam;
    }

    // -------------------------------------------------------------- the world outside

    /** A callback runs and makes the engine calls the world has in store for it. */
    method RunCallback()
      requires Shape()
      modifies this`qHead, this`qCount, this`commands, this`log, this`world, queue, urcTable
      ensures Shape() && Abs() == Callback(c, old(Abs()))
    {
      if world.callbacks == [] { return; }
      var acts := world.callbacks[0];
      world := world.(callbacks := world.callbacks[1..]);
      ghost var end := DoActs(c, Abs(), acts);
      var i := 0;
      while i < |acts|
        invariant 0 <= i <= |acts| && Shape() && DoActs(c, Abs(), acts[i..]) == end
      {
        DoActsAt(c, Abs(), acts, i);
        DoCall(acts[i]);
        i := i + 1;
      }
    }

    method DoCall(a: Act)
      requires Shape()
      modifies this`qHead, this`qCount, this`commands, this`log, queue, urcTable
      ensures Shape() && Abs() == DoAct(c, old(Abs()), a)
    {
      match a {
        case Send(d) => var _ := Send(d);
        case Register(p, h) => var _ := RegisterUrc(p, h);
        case Deregister(p) => var _ := DeregisterUrc(p);
      }
    }

    /** at_platform_write */
    method PlatformWrite(bytes: string) returns (ok: bool)
      requires Shape()
      modifies this`world, this`log
      ensures Shape() && (Abs(), ok) == Write(old(Abs()), bytes)
    {
      ok := world.writes == [] || world.writes[0];
      world := world.(writes := if world.writes == [] then [] else world.writes[1..]);
      log := log + [Wrote(bytes, ok)];
    }

    // -------------------------------------------------------------- finishing and starting commands

    /** The callback is told while its entry is still queued; then the entry is dropped. */
    method ReportFirst(ghost r: Response, clear: bool)
      requires Shape() && qCount > 0
      modifies this`qHead, this`qTail, this`qCount, this`commands, this`log, this`world, queue, urcTable
      ensures Shape() && Abs() == Report(c, old(Abs()), r)
    {
      QueueDrop(queue[..], qTail, commands, ZERO_ENTRY);
      log := log + [Completed(commands[0], r)];
      QueueGrows(c, Abs());
      if queue[qTail].cb.Some? {
        RunCallback();
      }
      DropFirst(clear);
    }

    /** Dequeue; at_reset leaves the old entry in its slot. */
    method DropFirst(clear: bool)
      requires Shape() && qCount > 0
      modifies this`qTail, this`qCount, this`commands, queue
      ensures Shape() && Abs() == old(Abs()).(queue := old(commands)[1..])
    {
      QueueDrop(queue[..], qTail, commands, ZERO_ENTRY);
      ghost var slots := queue[..];
      QueueDrop(slots, qTail, commands, slots[qTail]);
      if clear {
        queue[qTail] := ZERO_ENTRY;
      }
      assert queue[..] == slots[qTail := if clear then ZERO_ENTRY else slots[qTail]];
      qTail := Pos(qTail, 1, c.depth);
      qCount := qCount - 1;
      commands := commands[1..];
    }

    method EngineFinalize(st: Status, code: int)
      requires Shape() && qCount > 0
      modifies this`qHead, this`qTail, this`qCount, this`commands, this`log, this`world, queue, urcTable
      modifies this`status, this`mode, this`timerMs, this`echoArmed
      ensures Shape() && Abs() == Finalize(c, old(Abs()), st, code)
    {
      status := st;
      ReportFirst(Response(st, code, pool[..poolCount]), true);
      GoIdle();
    }

    method GoIdle()
      requires Shape()
      modifies this`mode, this`timerMs, this`echoArmed
      ensures Shape() && Abs() == old(Abs()).(mode := Mode.Idle, timer := 0, echoArmed := false)
    {
      mode := Mode.Idle;
      timerMs := 0;
      echoArmed := false;
    }

    /** Two writes and the consequences of their outcome. */
    method TransmitBoth(first: string, second: string)
      requires Shape() && qCount > 0
      modifies this`qHead, this`qTail, this`qCount, this`commands, this`log, this`world, queue, urcTable
      modifies this`status, this`mode, this`timerMs, this`echoArmed
      ensures Shape() && Abs() == Transmit(c, old(Abs()), first, second)
    {
      var ok := PlatformWrite(first);
      if ok {
        ok := PlatformWrite(second);
      }
      if !ok {
        EngineFinalize(ErrIo, 0);
        return;
      }
      mode := Waiting;
      log := log + [Listens];
    }

    method EngineStartNext()
      requires Shape() && qCount > 0
      modifies this`qHead, this`qTail, this`qCount, this`commands, this`log, this`world, queue, urcTable
      modifies this`status, this`mode, this`timerMs, this`echoArmed, this`poolCount, this`echoExpect
      ensures Shape() && Abs() == StartNext(c, old(Abs()))
    {
      QueueDrop(queue[..], qTail, commands, ZERO_ENTRY);
      var e := queue[qTail];
      Arm(e);
      TransmitBoth(e.cmd, [CR]);
    }

    /** Clear the response, arm echo cancellation and set the timeout. */
    method Arm(e: Entry)
      requires Shape()
      modifies this`log, this`status, this`mode, this`timerMs, this`echoArmed, this`poolCount, this`echoExpect
      ensures Shape()
      ensures Abs() == old(Abs()).(
        pool := [], status := Pending, timer := e.timeout, mode := Sending,
        echo := if c.echoCancel then e.cmd else old(echoExpect), echoArmed := c.echoCancel,
        log := old(log) + [Started(e)])
    {
      ClearResponse(Pending);
      ArmEcho(e.cmd);
      timerMs := e.timeout;
      mode := Sending;
      log := log + [Started(e)];
    }

    method ClearResponse(st: Status)
      requires Shape()
      modifies this`poolCount, this`status
      ensures Shape() && Abs() == old(Abs()).(pool := [], status := st)
    {
      poolCount := 0;
      status := st;
      assert pool[..0] == [];
    }

    method ArmEcho(cmd: CString)
      requires Shape()
      modifies this`echoExpect, this`echoArmed
      ensures Shape()
      ensures Abs() == old(Abs()).(echo := if c.echoCancel then cmd else old(echoExpect), echoArmed := c.echoCancel)
    {
      if c.echoCancel {
        echoExpect := cmd;
        echoArmed := true;
      } else {
        echoArmed := false;
      }
    }

    // -------------------------------------------------------------- received lines

    method EngineIsFinal(line: string) returns (r: Option<(Status, int)>)
      ensures r == FinalCode(CStr(line))
    {
      var text := CStr(line);
      if text == "OK" { return Some((Ok, 0)); }
      if text == "ERROR" { return Some((ErrGeneric, 0)); }
      if text == "NO CARRIER" || text == "NO DIALTONE" || text == "BUSY" || text == "NO ANSWER" {
        return Some((ErrGeneric, 0));
      }
      if "+CME ERROR:" <= text {
        var code, _ := ParseInt(text, 11);
        return Some((ErrCme, code));
      }
      if "+CMS ERROR:" <= text {
        var code, _ := ParseInt(text, 11);
        return Some((ErrCms, code));
      }
      return None;
    }

    method RespPoolAppend(line: string) returns (ok: bool)
      requires Shape() && |line| < c.lineMax
      modifies this`poolCount, pool
      ensures Shape() && ok == (old(poolCount) < c.respMax)
      ensures Abs() == if ok then old(Abs()).(pool := old(pool[..poolCount]) + [line]) else old(Abs())
    {
      if poolCount >= c.respMax { return false; }
      pool[poolCount] := line;
      poolCount := poolCount + 1;
      return true;
    }

    /** The handler that has run, if any. */
    method UrcDispatch(line: string) returns (handler: Option<Handler>)
      requires Shape()
      modifies this`qHead, this`qCount, this`commands, this`log, this`world, queue, urcTable
      ensures Shape()
      ensures var t := old(urcTable[..]);
              var i := UrcTable.FindMatch(t, CStr(line));
              handler == if i < c.urcSize then Some(t[i].value.handler) else None
      ensures Abs() == if handler.Some? then Callback(c, old(Abs())) else old(Abs())
    {
      ghost var t := urcTable[..];
      for i := 0 to urcTable.Length
        invariant Abs() == old(Abs()) && Shape()
        invariant forall j :: 0 <= j < i ==> !(t[j].Some? && t[j].value.prefix <= CStr(line))
      {
        if urcTable[i].Some? && urcTable[i].value.prefix <= CStr(line) {
          assert UrcTable.FindMatch(t, CStr(line)) == i;
          handler := Some(urcTable[i].value.handler);
          RunCallback();
          return;
        }
      }
      return None;
    }

    /** The prompt branch of engine_dispatch_line. */
    method SendPromptedBody()
      requires Shape() && qCount > 0
      modifies this`qHead, this`qTail, this`qCount, this`commands, this`log, this`world, queue, urcTable
      modifies this`status, this`mode, this`timerMs, this`echoArmed
      ensures Shape() && Abs() == SendBody(c, old(Abs()))
    {
      QueueDrop(queue[..], qTail, commands, ZERO_ENTRY);
      var e := queue[qTail];
      if e.sms && e.hasBody {
        EnterPrompt();
        TransmitBoth(e.body, ['\U{1A}']);
      }
    }

    method EnterPrompt()
      requires Shape()
      modifies this`mode, this`timerMs, this`log
      ensures Shape()
      ensures Abs() == old(Abs()).(mode := Prompt, timer := c.promptTimeout, log := old(log) + [Rearmed])
    {
      mode := Prompt;
      timerMs := c.promptTimeout;
      log := log + [Rearmed];
    }

    method KeepLine(line: string)
      requires Shape() && |line| < c.lineMax
      modifies this`poolCount, this`status, pool
      ensures Shape() && Abs() == Keep(c, old(Abs()), line)
    {
      var ok := RespPoolAppend(line);
      if !ok {
        status := ErrOverflow;
      }
    }

    method LogLine(ghost line: string, ghost fate: Fate)
      requires Shape()
      modifies this`log
      ensures Shape() && Abs() == old(Abs()).(log := old(log) + [Line(line, fate)])
    {
      log := log + [Line(line, fate)];
    }

    method EngineDispatchLine(line: string)
      requires Shape() && 0 < |line| < c.lineMax && (mode == Waiting ==> qCount > 0)
      modifies this`qHead, this`qTail, this`qCount, this`commands, this`log, this`world, queue, urcTable
      modifies this`status, this`mode, this`timerMs, this`echoArmed, this`poolCount, pool
      ensures Shape() && Abs() == Dispatch(c, old(Abs()), line)
    {
      ghost var fate := Classify(c, Abs(), line);
      LogLine(line, fate);
      assert Classify(c, Abs(), line) == fate;
      UseLine(line);
    }

    /** The uses of a line, tried in turn. */
    method UseLine(line: string)
      requires Shape() && 0 < |line| < c.lineMax && (mode == Waiting ==> qCount > 0)
      modifies this`qHead, this`qTail, this`qCount, this`commands, this`log, this`world, queue, urcTable
      modifies this`status, this`mode, this`timerMs, this`echoArmed, this`poolCount, pool
      ensures Shape() && Abs() == Use(c, old(Abs()), line, Classify(c, old(Abs()), line))
    {
      if mode == Waiting {
        var handled := UseAsProtocol(line);
        if handled { return; }
      }
      UseAsData(line);
    }

    /** Echo, prompt and final result, looked for only while a command is being executed. */
    method UseAsProtocol(line: string) returns (handled: bool)
      requires Shape() && mode == Waiting && qCount > 0
      modifies this`qHead, this`qTail, this`qCount, this`commands, this`log, this`world, queue, urcTable
      modifies this`status, this`mode, this`timerMs, this`echoArmed
      ensures Shape()
      ensures var fate := Classify(c, old(Abs()), line);
              && (handled <==> fate.Echo? || fate.Prompted? || fate.Final?)
              && Abs() == if handled then Use(c, old(Abs()), line, fate) else old(Abs())
    {
      ghost var fate := Classify(c, Abs(), line);
      var isEcho := SkipEcho(line);
      if isEcho { return true; }
      assert fate == Classify(c, Abs(), line) && !fate.Echo?;
      if |line| >= 2 && line[0] == '>' && line[1] == ' ' {
        SendPromptedBody();
        return true;
      }
      var final := EngineIsFinal(line);
      if final.Some? {
        EngineFinalize(final.value.0, final.value.1);
        return true;
      }
      return false;
    }

    /** The echo is expected once. */
    method SkipEcho(line: string) returns (isEcho: bool)
      requires Shape() && mode == Waiting
      modifies this`echoArmed
      ensures Shape() && (isEcho <==> Classify(c, old(Abs()), line).Echo?)
      ensures Abs() == old(Abs()).(echoArmed := old(echoArmed) && !isEcho)
    {
      isEcho := c.echoCancel && echoArmed && echoExpect <= CStr(line);
      if isEcho {
        echoArmed := false;
      }
    }

    /** URC handlers, then the response pool. */
    method UseAsData(line: string)
      requires Shape() && |line| < c.lineMax
      requires var fate := Classify(c, Abs(), line); fate.Unsolicited? || fate.Kept? || fate.Ignored?
      modifies this`qHead, this`qCount, this`commands, this`log, this`world, queue, urcTable
      modifies this`status, this`poolCount, pool
      ensures Shape() && Abs() == Use(c, old(Abs()), line, Classify(c, old(Abs()), line))
    {
      var handler := UrcDispatch(line);
      if handler.Some? { return; }
      if mode == Waiting {
        KeepLine(line);
      }
    }

    // -------------------------------------------------------------- interrupts

    method Feed(data: seq<char>)
      requires Valid()
      modifies rx, rx.buf, this`log
      ensures Valid() && Abs() == EngineSpec.Feed(c, old(Abs()), data)
      ensures rx.contents == Take(old(rx.contents) + data, c.rxSize)
    {
      FeedFills(c, Abs(), data);
      ghost var end := EngineSpec.Feed(c, Abs(), data);
      for i := 0 to |data|
        invariant Valid() && EngineSpec.Feed(c, Abs(), data[i..]) == end
      {
        assert data[i..][0] == data[i] && data[i..][1..] == data[i + 1..];
        StepKeepsInv(c, Abs(), FeedByteStep(data[i]));
        FeedOne(data[i]);
      }
    }

    method FeedOne(b: char)
      requires Shape()
      modifies rx, rx.buf, this`log
      ensures Shape() && Abs() == FeedByte(c, old(Abs()), b)
    {
      var stored := rx.Push(b);
      log := log + [Arrived(b, stored)];
    }

    method Tick(ms: nat)
      requires Valid()
      modifies this`timerMs, this`log
      ensures Valid() && Abs() == EngineSpec.Tick(old(Abs()), ms)
      ensures log == old(log) + [Ticked(ms)]
      ensures timerMs == if old(mode) != Waiting then old(timerMs) else if old(timerMs) <= ms then 0 else old(timerMs) - ms
    {
      TickKeepsInv(c, Abs(), ms);
      log := log + [Ticked(ms)];
      if mode == Waiting || mode == Prompt {
        if timerMs <= ms {
          timerMs := 0;
        } else {
          timerMs := timerMs - ms;
        }
      }
    }

    // -------------------------------------------------------------- at_process

    /** The line is complete: dispatch it and start over. */
    method EndLine(ghost line: string)
      requires Shape() && 0 < |line| < c.lineMax && (mode == Waiting ==> qCount > 0)
      requires line == lineBuf[..lineLen]
      modifies this`qHead, this`qTail, this`qCount, this`commands, this`log, this`world, queue, urcTable
      modifies this`status, this`mode, this`timerMs, this`echoArmed, this`poolCount, pool
      modifies this`lineLen, this`lfsm, lineBuf
      ensures Shape() && Abs() == Dispatch(c, old(Abs()), line).(fsm := LineFsm.IDLE)
    {
      lineBuf[lineLen] := NUL;
      assert lineBuf[..lineLen] == line;
      EngineDispatchLine(lineBuf[..lineLen]);
      StartOver();
    }

    /** A bare CR after a lone `>`, then a space: the prompt, without a line ending. */
    method EndPrompt()
      requires Shape() && (mode == Waiting ==> qCount > 0)
      requires lineBuf[..lineLen] == ">"
      modifies this`qHead, this`qTail, this`qCount, this`commands, this`log, this`world, queue, urcTable
      modifies this`status, this`mode, this`timerMs, this`echoArmed, this`poolCount, pool
      modifies this`lineLen, this`lfsm, lineBuf
      ensures Shape() && Abs() == Dispatch(c, old(Abs()), "> ").(fsm := LineFsm.IDLE)
    {
      lineBuf[1] := ' ';
      lineBuf[2] := NUL;
      assert lineBuf[..lineLen] == ">";
      assert lineBuf[..2] == "> ";
      EngineDispatchLine(lineBuf[..2]);
      StartOver();
    }

    method StartOver()
      requires Shape()
      modifies this`lineLen, this`lfsm
      ensures Shape() && Abs() == old(Abs()).(fsm := LineFsm.IDLE)
    {
      lineLen := 0;
      lfsm := LineFsm.Start;
      assert lineBuf[..0] == "";
    }

    /** Add a byte to the line, or drop it when the line is full, and go on with the line. */
    method AppendByte(b: char)
      requires Shape()
      modifies this`lineLen, this`lfsm, lineBuf
      ensures Shape()
      ensures Abs() == old(Abs()).(fsm :=
        LineFsm.Fsm(LineFsm.Data, LineFsm.Append(old(lineBuf[..lineLen]), b, c.lineMax)))
    {
      if lineLen < c.lineMax - 1 {
        ghost var line := lineBuf[..lineLen];
        lineBuf[lineLen] := b;
        lineLen := lineLen + 1;
        assert lineBuf[..lineLen] == line + [b];
      }
      lfsm := LineFsm.Data;
    }

    method FirstByte(b: char)
      requires Shape() && lineLen == 0
      modifies this`lineLen, this`lfsm, lineBuf
      ensures Shape() && Abs() == old(Abs()).(fsm := LineFsm.Fsm(LineFsm.Data, [b]))
    {
      lineBuf[0] := b;
      lineLen := 1;
      lfsm := LineFsm.Data;
      assert lineBuf[..1] == [b];
    }

    /** The switch of at_process. */
    method Assemble(b: char)
      requires Shape() && (mode == Waiting ==> qCount > 0)
      requires LineFsm.Consistent(Abs().fsm, c.lineMax)
      modifies this`qHead, this`qTail, this`qCount, this`commands, this`log, this`world, queue, urcTable
      modifies this`status, this`mode, this`timerMs, this`echoArmed, this`poolCount, pool
      modifies this`lineLen, this`lfsm, lineBuf
      ensures Shape()
      ensures var s := old(Abs());
              var (fsm, line) := LineFsm.Step(s.fsm, b, c.lineMax);
              Abs() == (if line.Some? then Dispatch(c, s, line.value) else s).(fsm := fsm)
    {
      ghost var line := lineBuf[..lineLen];
      match lfsm {
        case Start =>
          if b != CR && b != LF {
            FirstByte(b);
          }
        case Data =>
          if b == CR {
            lfsm := LineFsm.AfterCr;
          } else if b == LF {
            EndLine(line);
          } else {
            AppendByte(b);
          }
        case AfterCr =>
          if b == LF {
            EndLine(line);
          } else if b == ' ' && lineLen == 1 && lineBuf[0] == '>' {
            assert line == ">";
            EndPrompt();
          } else {
            assert line != ">" || b != ' ';
            AppendByte(b);
          }
      }
    }

    method PopOne() returns (more: bool)
      requires Valid()
      modifies rx, this`qHead, this`qTail, this`qCount, this`commands, this`log, this`world, queue, urcTable
      modifies this`status, this`mode, this`timerMs, this`echoArmed, this`poolCount, pool
      modifies this`lineLen, this`lfsm, lineBuf
      ensures Valid() && Abs() == PopByte(c, old(Abs()))
      ensures more <==> old(rx.contents) != ""
      ensures more ==> rx.contents == old(rx.contents)[1..]
    {
      PopKeepsInv(c, Abs());
      var b := TakeByte();
      if b.None? { return false; }
      PopConsumes(c, old(Abs()));
      Assemble(b.value);
      return true;
    }

    method TakeByte() returns (b: Option<char>)
      requires Shape()
      modifies rx, this`log
      ensures Shape() && (b.Some? <==> old(rx.contents) != "")
      ensures b.Some? ==> b.value == old(rx.contents)[0]
      ensures Abs() == if b.Some? then old(Abs()).(rx := old(rx.contents)[1..], log := old(log) + [Received(b.value)])
                       else old(Abs())
    {
      b := rx.Pop();
      if b.Some? {
        log := log + [Received(b.value)];
      }
    }

    method DrainRing()
      requires Valid()
      modifies rx, this`qHead, this`qTail, this`qCount, this`commands, this`log, this`world, queue, urcTable
      modifies this`status, this`mode, this`timerMs, this`echoArmed, this`poolCount, pool
      modifies this`lineLen, this`lfsm, lineBuf
      ensures Valid() && Abs() == Drain(c, old(Abs()))
    {
      ghost var end := Drain(c, Abs());
      var more := true;
      while more
        invariant Valid() && Drain(c, Abs()) == end && (!more ==> rx.contents == "")
        decreases more, |rx.contents|
      {
        more := PopOne();
      }
    }

    method ExpireOrGoOn()
      requires Valid()
      modifies this`qHead, this`qTail, this`qCount, this`commands, this`log, this`world, queue, urcTable
      modifies this`status, this`mode, this`timerMs, this`echoArmed
      ensures Valid() && Abs() == Apply(c, old(Abs()), CheckTimeoutStep)
    {
      StepKeepsInv(c, Abs(), CheckTimeoutStep);
      if (mode == Waiting || mode == Prompt) && timerMs == 0 {
        EngineFinalize(ErrTimeout, 0);
      }
    }

    method StartWhenIdle()
      requires Valid()
      modifies this`qHead, this`qTail, this`qCount, this`commands, this`log, this`world, queue, urcTable
      modifies this`status, this`mode, this`timerMs, this`echoArmed, this`poolCount, this`echoExpect
      ensures Valid() && Abs() == Apply(c, old(Abs()), StartIfIdleStep)
    {
      StepKeepsInv(c, Abs(), StartIfIdleStep);
      StartNextIfIdle();
    }

    method StartNextIfIdle()
      requires Shape()
      modifies this`qHead, this`qTail, this`qCount, this`commands, this`log, this`world, queue, urcTable
      modifies this`status, this`mode, this`timerMs, this`echoArmed, this`poolCount, this`echoExpect
      ensures Shape() && Abs() == StartIfIdle(c, old(Abs()))
    {
      if mode == Mode.Idle && qCount > 0 {
        EngineStartNext();
      }
    }

    method Process()
      requires Valid()
      modifies rx, this`qHead, this`qTail, this`qCount, this`commands, this`log, this`world, queue, urcTable
      modifies this`status, this`mode, this`timerMs, this`echoArmed, this`poolCount, this`echoExpect, pool
      modifies this`lineLen, this`lfsm, lineBuf
      ensures Valid() && Abs() == EngineRuns.Process(c, old(Abs()))
    {
      DrainRing();
      ExpireOrGoOn();
      StartWhenIdle();
    }

    // -------------------------------------------------------------- at_abort and at_reset

    method Abort()
      requires Valid()
      modifies this`qHead, this`qTail, this`qCount, this`commands, this`log, this`world, queue, urcTable
      modifies this`status, this`mode, this`timerMs, this`echoArmed
      ensures Valid() && Abs() == EngineSpec.Abort(c, old(Abs()))
      ensures var called := old(Abs()).(log := old(log) + [AbortCalled]);
              if old(mode) == Waiting then Finished(c, called, Response(ErrAborted, 0, called.pool), Abs())
              else Abs() == called
    {
      StepKeepsInv(c, Abs(), AbortStep);
      AbortReports(c, Abs());
      log := log + [AbortCalled];
      if mode == Waiting || mode == Prompt {
        EngineFinalize(ErrAborted, 0);
      }
    }

    /** at_reset, with reception quiescent; it ends because the world's callbacks send only
        finitely many commands. */
    method Reset()
      requires Valid()
      modifies rx, this`qHead, this`qTail, this`qCount, this`commands, this`log, this`world, queue, urcTable
      modifies this`status, this`mode, this`timerMs, this`echoArmed, this`poolCount
      modifies this`lineLen, this`lfsm
      ensures Valid() && Abs() == EngineSpec.Reset(c, old(Abs()))
    {
      ResetKeepsInv(c, Abs());
      ResetAll();
    }

    method ResetAll()
      requires Shape()
      modifies rx, this`qHead, this`qTail, this`qCount, this`commands, this`log, this`world, queue, urcTable
      modifies this`status, this`mode, this`timerMs, this`echoArmed, this`poolCount
      modifies this`lineLen, this`lfsm
      ensures Shape() && Abs() == EngineSpec.Reset(c, old(Abs()))
    {
      AbortActive();
      DrainAndForget();
    }

    method AbortActive()
      requires Shape()
      modifies this`qHead, this`qTail, this`qCount, this`commands, this`log, this`world, queue, urcTable
      modifies this`status, this`mode, this`timerMs, this`echoArmed
      ensures Shape() && Abs() == ResetFirst(c, old(Abs()))
    {
      log := log + [ResetCalled];
      if mode != Mode.Idle && qCount > 0 {
        EngineFinalize(ErrAborted, 0);
      }
    }

    method DrainAndForget()
      requires Shape()
      modifies rx, this`qHead, this`qTail, this`qCount, this`commands, this`log, this`world, queue, urcTable
      modifies this`mode, this`echoArmed, this`poolCount, this`lineLen, this`lfsm
      ensures Shape() && Abs() == ResetLast(c, old(Abs()))
    {
      AbortQueue();
      ForgetInput();
    }

    method AbortQueue()
      requires Shape()
      modifies this`qHead, this`qTail, this`qCount, this`commands, this`log, this`world, queue, urcTable
      ensures Shape() && Abs() == AbortAll(c, old(Abs()))
    {
      ghost var end := AbortAll(c, Abs());
      while qCount > 0
        invariant Shape() && AbortAll(c, Abs()) == end
        decreases qCount + SendsLeft(world)
      {
        ReportShrinks(c, Abs(), Response(ErrAborted, 0, []));
        ReportFirst(Response(ErrAborted, 0, []), false);
      }
    }

    method ForgetInput()
      requires Shape()
      modifies rx, this`mode, this`echoArmed, this`poolCount, this`lineLen, this`lfsm, this`log
      ensures Shape()
      ensures Abs() == old(Abs()).(rx := "", mode := Mode.Idle, fsm := LineFsm.IDLE, echoArmed := false, pool := [],
                                   log := old(log) + [WasReset])
    {
      rx.Clear();
      mode := Mode.Idle;
      StartOver();
      echoArmed := false;
      poolCount := 0;
      log := log + [WasReset];
      assert pool[..0] == [];
    }
  }
}
