/** The lock-free receive ring of src/at.c: as the engine uses it, and step by step with the
    interrupt and the task interleaved. */
module RxRing {
  import opened Common

  const WRAP := 65536

  /** A uint16_t after an increment or an addition. */
  function Wrapped(x: nat): (w: nat)
    ensures w < 65536
  {
    if x < 65536 then x else Wrapped(x - 65536)
  }

  lemma {:induction false} WrappedBy(x: nat) returns (q: nat)
    ensures x == Wrapped(x) + 65536 * q
  {
    if x < 65536 {
      q := 0;
    } else {
      q := WrappedBy(x - 65536);
      q := q + 1;
    }
  }

  /** Wrapped indices at most 65535 apart determine their distance, and advance together. */
  lemma {:induction false} WrappedApart(t: nat, p: nat)
    requires p < 65536
    ensures Used(Wrapped(t + p), Wrapped(t)) == p
    ensures Wrapped(Wrapped(t) + p) == Wrapped(t + p)
  {
    if t >= 65536 {
      WrappedApart(t - 65536, p);
    }
  }

  predicate PowerOfTwo(n: nat) {
    n == 1 || (n > 1 && n % 2 == 0 && PowerOfTwo(n / 2))
  }

  /** A power of two below the range of the indices. */
  predicate SizeOk(n: nat) {
    PowerOfTwo(n) && n < 65536
  }

  /** (uint16_t)(head - tail) */
  function Used(head: nat, tail: nat): nat
    requires head < 65536 && tail < 65536
  {
    if tail <= head then head - tail else head + 65536 - tail
  }

  /** Bitwise AND of naturals. */
  function BitAnd(x: nat, y: nat): nat {
    if x == 0 || y == 0 then 0
    else (if x % 2 == 1 && y % 2 == 1 then 1 else 0) + 2 * BitAnd(x / 2, y / 2)
  }

  /** The index modulo the size. */
  function Slot(index: nat, size: nat): (k: nat)
    requires size > 0
    ensures k < size
  {
    if index < size then index else Slot(index - size, size)
  }

  lemma {:induction false} SlotHalves(x: nat, m: nat)
    requires m > 0
    ensures Slot(x, 2 * m) == x % 2 + 2 * Slot(x / 2, m)
  {
    if x >= 2 * m {
      SlotHalves(x - 2 * m, m);
      assert (x - 2 * m) / 2 == x / 2 - m;
    }
  }

  /** index & (size - 1) finds the slot when the size is a power of two. */
  lemma {:induction false} MaskIsSlot(x: nat, n: nat)
    requires PowerOfTwo(n)
    ensures BitAnd(x, n - 1) == Slot(x, n)
  {
    if n == 1 {
      assert BitAnd(x, 0) == 0;
    } else {
      var m := n / 2;
      assert (n - 1) / 2 == m - 1 && (n - 1) % 2 == 1;
      MaskIsSlot(x / 2, m);
      SlotHalves(x, m);
      if x == 0 {
        assert Slot(0, n) == 0;
      }
    }
  }

  lemma {:induction false} SlotPeriodic(x: nat, n: nat, k: nat)
    requires n > 0
    ensures Slot(x + n * k, n) == Slot(x, n)
  {
    if k > 0 {
      SlotPeriodic(x, n, k - 1);
      assert n * k == n * (k - 1) + n;
    }
  }

  lemma {:induction false} Divides(n: nat, m: nat) returns (k: nat)
    requires PowerOfTwo(n) && PowerOfTwo(m) && n <= m
    ensures n * k == m
  {
    if n == 1 {
      k := m;
    } else {
      k := Divides(n / 2, m / 2);
      assert 2 * (n / 2) * k == 2 * (m / 2);
    }
  }

  lemma WrapIsPowerOfTwo()
    ensures PowerOfTwo(WRAP)
  {
    assert PowerOfTwo(16);
    assert PowerOfTwo(256);
    assert PowerOfTwo(4096);
    assert PowerOfTwo(32768);
  }

  /** Wrapping an index does not change its slot. */
  lemma SlotOfWrapped(x: nat, n: nat)
    requires SizeOk(n)
    ensures Slot(Wrapped(x), n) == Slot(x, n)
  {
    WrapIsPowerOfTwo();
    var k := Divides(n, WRAP);
    var q := WrappedBy(x);
    assert x == Wrapped(x) + n * (k * q) by {
      assert n * (k * q) == (n * k) * q;
    }
    SlotPeriodic(Wrapped(x), n, k * q);
  }

  /** Indices closer together than n fall into different slots. */
  lemma {:induction false} SlotsDiffer(i: nat, j: nat, n: nat)
    requires i < j < i + n
    ensures Slot(i, n) != Slot(j, n)
  {
    if i >= n {
      SlotsDiffer(i - n, j - n, n);
    }
  }

  // ---------------------------------------------------------------- the atomic queue

  /** What one ring operation lets its caller see. */
  datatype Event = Pushed(b: char) | Refused(b: char) | Popped(b: char) | FoundEmpty

  /** A bounded FIFO of capacity n: the operation with outcome e, when the content is q. */
  function Atomic(q: string, n: nat, e: Event): Option<string> {
    match e
    case Pushed(b) => if |q| < n then Some(q + [b]) else None
    case Refused(_) => if |q| >= n then Some(q) else None
    case Popped(b) => if q != "" && q[0] == b then Some(q[1..]) else None
    case FoundEmpty => if q == "" then Some(q) else None
  }

  function AtomicRun(q: string, n: nat, es: seq<Event>): Option<string> {
    if es == [] then Some(q)
    else
      var before := AtomicRun(q, n, es[..|es| - 1]);
      if before.None? then None else Atomic(before.value, n, es[|es| - 1])
  }

  /** The bytes q lie in consecutive slots, the first at index `first`. */
  ghost predicate Holds(buf: string, first: nat, q: string) {
    && 0 < |buf| && |q| <= |buf|
    && forall i :: 0 <= i < |q| ==> buf[Slot(first + i, |buf|)] == q[i]
  }

  /** Storing behind the last byte disturbs none of them, and adds one. */
  lemma HoldsStore(buf: string, first: nat, q: string, b: char)
    requires Holds(buf, first, q) && |q| < |buf|
    ensures var after := buf[Slot(first + |q|, |buf|) := b];
            Holds(after, first, q) && Holds(after, first, q + [b])
  {
    var after := buf[Slot(first + |q|, |buf|) := b];
    forall i | 0 <= i < |q| ensures after[Slot(first + i, |after|)] == q[i] {
      SlotsDiffer(first + i, first + |q|, |buf|);
    }
  }

  lemma HoldsRest(buf: string, first: nat, q: string)
    requires Holds(buf, first, q) && q != ""
    ensures buf[Slot(first, |buf|)] == q[0] && Holds(buf, first + 1, q[1..])
  {
    assert buf[Slot(first + 0, |buf|)] == q[0];
    forall i | 0 <= i < |q[1..]| ensures buf[Slot(first + 1 + i, |buf|)] == q[1..][i] {
      assert q[1..][i] == q[i + 1] == buf[Slot(first + (i + 1), |buf|)];
    }
  }

  lemma HoldsWrapped(buf: string, first: nat, q: string)
    requires SizeOk(|buf|) && Holds(buf, first, q)
    ensures Holds(buf, Wrapped(first), q)
  {
    forall i | 0 <= i < |q| ensures buf[Slot(Wrapped(first) + i, |buf|)] == q[i] {
      WrappedApart(first, i);
      SlotOfWrapped(first + i, |buf|);
      SlotOfWrapped(Wrapped(first) + i, |buf|);
      assert buf[Slot(first + i, |buf|)] == q[i];
    }
  }

  class Ring {
    const buf: array<char>
    var head: nat
    var tail: nat
    ghost var contents: string  // bytes pushed and not yet popped

    ghost predicate Valid()
      reads this, buf
    {
      && SizeOk(buf.Length) && tail < 65536
      && head == Wrapped(tail + |contents|)
      && Holds(buf[..], tail, contents)
    }

    constructor (size: nat)
      requires SizeOk(size)
      ensures Valid() && buf.Length == size && fresh(buf) && contents == ""
    {
      buf, head, tail, contents := new char[size], 0, 0, "";
    }

    method Push(b: char) returns (ok: bool)
      requires Valid()
      modifies this`head, this`contents, buf
      ensures Valid()
      ensures Atomic(old(contents), buf.Length, if ok then Pushed(b) else Refused(b)) == Some(contents)
    {
      WrappedApart(tail, |contents|);
      if Used(head, tail) >= buf.Length { return false; }
      HoldsStore(buf[..], tail, contents, b);
      SlotOfWrapped(tail + |contents|, buf.Length);
      MaskIsSlot(head, buf.Length);
      ghost var was := buf[..];
      buf[BitAnd(head, buf.Length - 1)] := b;
      assert buf[..] == was[Slot(tail + |contents|, buf.Length) := b];
      WrappedApart(tail + |contents|, 1);
      head := Wrapped(head + 1);
      contents := contents + [b];
      return true;
    }

    method Pop() returns (b: Option<char>)
      requires Valid()
      modifies this`tail, this`contents
      ensures Valid()
      ensures Atomic(old(contents), buf.Length, if b.Some? then Popped(b.value) else FoundEmpty) == Some(contents)
    {
      WrappedApart(tail, |contents|);
      if head == tail { return None; }
      HoldsRest(buf[..], tail, contents);
      HoldsWrapped(buf[..], tail + 1, contents[1..]);
      WrappedApart(tail + 1, |contents| - 1);
      MaskIsSlot(tail, buf.Length);
      b := Some(buf[BitAnd(tail, buf.Length - 1)]);
      tail := Wrapped(tail + 1);
      contents := contents[1..];
    }

    /** at_reset, with reception quiescent. */
    method Clear()
      requires Valid()
      modifies this
      ensures Valid() && contents == ""
    {
      head, tail, contents := 0, 0, "";
    }
  }

  // ---------------------------------------------------------------- one memory access at a time

  /** Where rxring_push and rxring_pop stand. */
  datatype Producer = PIdle | PChecked(b: char) | PStored(b: char)
  datatype Consumer = CIdle | CChecked | CLoaded(b: char)

  /** The shared memory, both program counters and the history of both sides. */
  datatype Shared = Shared(
    buf: string, head: nat, tail: nat, producer: Producer, consumer: Consumer,
    accepted: string,   // bytes published so far
    popped: string,     // bytes handed to the task so far
    events: seq<Event>) // operations in the order they took effect

  /** One access by either side; a step that its side is not ready for does nothing. */
  datatype Step =
    | ProducerCheck(b: char) | ProducerStore | ProducerPublish
    | ConsumerCheck | ConsumerLoad | ConsumerAdvance

  /** index & (size - 1) */
  function Masked(index: nat, size: nat): (k: nat)
    requires PowerOfTwo(size)
    ensures k == Slot(index, size)
  {
    MaskIsSlot(index, size);
    BitAnd(index, size - 1)
  }

  predicate WellFormed(s: Shared) {
    SizeOk(|s.buf|) && s.head < 65536 && s.tail < 65536
  }

  function Apply(s: Shared, step: Step): (t: Shared)
    requires WellFormed(s)
    ensures WellFormed(t)
  {
    match step
    case ProducerCheck(b) =>
      if !s.producer.PIdle? then s
      else if Used(s.head, s.tail) >= |s.buf| then s.(events := s.events + [Refused(b)])
      else s.(producer := PChecked(b))
    case ProducerStore =>
      if !s.producer.PChecked? then s
      else s.(buf := s.buf[Masked(s.head, |s.buf|) := s.producer.b], producer := PStored(s.producer.b))
    case ProducerPublish =>
      if !s.producer.PStored? then s
      else s.(head := Wrapped(s.head + 1), producer := PIdle,
              accepted := s.accepted + [s.producer.b], events := s.events + [Pushed(s.producer.b)])
    case ConsumerCheck =>
      if !s.consumer.CIdle? then s
      else if s.head == s.tail then s.(events := s.events + [FoundEmpty])
      else s.(consumer := CChecked)
    case ConsumerLoad =>
      if !s.consumer.CChecked? then s
      else s.(consumer := CLoaded(s.buf[Masked(s.tail, |s.buf|)]))
    case ConsumerAdvance =>
      if !s.consumer.CLoaded? then s
      else s.(tail := Wrapped(s.tail + 1), consumer := CIdle,
              popped := s.popped + [s.consumer.b], events := s.events + [Popped(s.consumer.b)])
  }

  function ApplyAll(s: Shared, steps: seq<Step>): (t: Shared)
    requires WellFormed(s)
    ensures WellFormed(t)
  {
    if steps == [] then s else Apply(ApplyAll(s, steps[..|steps| - 1]), steps[|steps| - 1])
  }

  predicate Initial(s: Shared) {
    SizeOk(|s.buf|) && s.head == s.tail == 0 && s.producer == PIdle && s.consumer == CIdle
    && s.accepted == s.popped == "" && s.events == []
  }

  /** Bytes published and not yet popped. */
  function Pending(s: Shared): string {
    if |s.popped| <= |s.accepted| then s.accepted[|s.popped|..] else ""
  }

  ghost predicate Inv(s: Shared) {
    WellFormed(s) && Indices(s) && Holds(s.buf, |s.popped|, Pending(s)) && Sides(s)
  }

  /** The operations so far are a run of the atomic queue that ends with the pending bytes. */
  ghost predicate Logged(s: Shared) {
    AtomicRun("", |s.buf|, s.events) == Some(Pending(s))
  }

  /** What each side knows in the middle of an operation. */
  ghost predicate Sides(s: Shared)
    requires WellFormed(s) && Indices(s)
  {
    && (!s.producer.PIdle? ==> |Pending(s)| < |s.buf|)
    && (s.producer.PStored? ==> s.buf[Slot(|s.accepted|, |s.buf|)] == s.producer.b)
    && (!s.consumer.CIdle? ==> |Pending(s)| > 0)
    && (s.consumer.CLoaded? ==> s.consumer.b == Pending(s)[0])
  }

  /** The wrapping indices stand for the unbounded counts, and pops follow acceptances. */
  ghost predicate Indices(s: Shared)
    requires WellFormed(s)
  {
    && s.popped <= s.accepted
    && |s.accepted| <= |s.popped| + |s.buf|
    && s.head == Wrapped(|s.accepted|)
    && s.tail == Wrapped(|s.popped|)
  }

  lemma UsedIsPending(s: Shared)
    requires WellFormed(s) && Indices(s)
    ensures Used(s.head, s.tail) == |Pending(s)|
    ensures Slot(s.head, |s.buf|) == Slot(|s.accepted|, |s.buf|)
    ensures Slot(s.tail, |s.buf|) == Slot(|s.popped|, |s.buf|)
  {
    WrappedApart(|s.popped|, |Pending(s)|);
    SlotOfWrapped(|s.accepted|, |s.buf|);
    SlotOfWrapped(|s.popped|, |s.buf|);
  }

  lemma StoreKeepsInv(s: Shared)
    requires Inv(s) && s.producer.PChecked?
    ensures Inv(Apply(s, ProducerStore))
  {
    UsedIsPending(s);
    HoldsStore(s.buf, |s.popped|, Pending(s), s.producer.b);
    if s.consumer.CLoaded? {
      HoldsRest(s.buf, |s.popped|, Pending(s));
    }
  }

  lemma PublishKeepsInv(s: Shared)
    requires Inv(s) && s.producer.PStored?
    ensures Inv(Apply(s, ProducerPublish))
    ensures Pending(Apply(s, ProducerPublish)) == Pending(s) + [s.producer.b]
  {
    var t, b, q := Apply(s, ProducerPublish), s.producer.b, Pending(s);
    assert Pending(t) == q + [b];
    WrappedApart(|s.accepted|, 1);
    assert Indices(t);
    HoldsStore(s.buf, |s.popped|, q, b);
    assert s.buf == s.buf[Slot(|s.popped| + |q|, |s.buf|) := b];
  }

  lemma LoadKeepsInv(s: Shared)
    requires Inv(s) && s.consumer.CChecked?
    ensures Inv(Apply(s, ConsumerLoad))
  {
    UsedIsPending(s);
    HoldsRest(s.buf, |s.popped|, Pending(s));
  }

  lemma AdvanceKeepsInv(s: Shared)
    requires Inv(s) && s.consumer.CLoaded?
    ensures Inv(Apply(s, ConsumerAdvance))
    ensures Pending(Apply(s, ConsumerAdvance)) == Pending(s)[1..]
  {
    var t := Apply(s, ConsumerAdvance);
    assert t.popped == s.accepted[..|s.popped| + 1];
    assert Pending(t) == Pending(s)[1..];
    WrappedApart(|s.popped|, 1);
    assert Indices(t);
    HoldsRest(s.buf, |s.popped|, Pending(s));
  }

  lemma StepKeepsInv(s: Shared, step: Step)
    requires Inv(s)
    ensures Inv(Apply(s, step))
  {
    match step
    case ProducerCheck(b) => UsedIsPending(s); assert Pending(Apply(s, step)) == Pending(s);
    case ConsumerCheck => UsedIsPending(s); assert Pending(Apply(s, step)) == Pending(s);
    case ProducerStore => if s.producer.PChecked? { StoreKeepsInv(s); }
    case ProducerPublish => if s.producer.PStored? { PublishKeepsInv(s); }
    case ConsumerLoad => if s.consumer.CChecked? { LoadKeepsInv(s); }
    case ConsumerAdvance => if s.consumer.CLoaded? { AdvanceKeepsInv(s); }
  }

  /** The step as an operation of the atomic queue, when it completes one. */
  function Visible(s: Shared, step: Step): Option<Event>
    requires WellFormed(s)
  {
    match step
    case ProducerCheck(b) => if s.producer.PIdle? && Used(s.head, s.tail) >= |s.buf| then Some(Refused(b)) else None
    case ConsumerCheck => if s.consumer.CIdle? && s.head == s.tail then Some(FoundEmpty) else None
    case ProducerPublish => if s.producer.PStored? then Some(Pushed(s.producer.b)) else None
    case ConsumerAdvance => if s.consumer.CLoaded? then Some(Popped(s.consumer.b)) else None
    case _ => None
  }

  /** A step either leaves the pending bytes and the record alone, or is one atomic operation. */
  lemma StepIsAtomic(s: Shared, step: Step)
    requires Inv(s)
    ensures var t, e := Apply(s, step), Visible(s, step);
            && t.events == (if e.Some? then s.events + [e.value] else s.events)
            && Some(Pending(t)) == (if e.Some? then Atomic(Pending(s), |s.buf|, e.value) else Some(Pending(s)))
  {
    UsedIsPending(s);
    match step
    case ProducerPublish => if s.producer.PStored? { PublishKeepsInv(s); }
    case ConsumerAdvance => if s.consumer.CLoaded? { AdvanceKeepsInv(s); }
    case _ =>
  }

  lemma StepKeepsLogged(s: Shared, step: Step)
    requires Inv(s) && Logged(s)
    ensures Logged(Apply(s, step)) && |Apply(s, step).buf| == |s.buf|
  {
    StepIsAtomic(s, step);
    var e := Visible(s, step);
    if e.Some? {
      assert (s.events + [e.value])[..|s.events|] == s.events;
    }
  }

  lemma {:induction false} RunKeepsInv(s: Shared, steps: seq<Step>)
    requires Initial(s)
    ensures Inv(ApplyAll(s, steps)) && Logged(ApplyAll(s, steps))
    ensures |ApplyAll(s, steps).buf| == |s.buf|
  {
    if steps != [] {
      RunKeepsInv(s, steps[..|steps| - 1]);
      var before := ApplyAll(s, steps[..|steps| - 1]);
      StepKeepsInv(before, steps[|steps| - 1]);
      StepKeepsLogged(before, steps[|steps| - 1]);
    }
  }

  /** Every interleaving of the two sides refines the atomic queue: the operations, taken in the
      order they took effect, are a run of the bounded FIFO that ends with the pending bytes. */
  lemma InterleavingRefinesQueue(s: Shared, steps: seq<Step>)
    requires Initial(s)
    ensures var t := ApplyAll(s, steps);
            && |t.buf| == |s.buf|
            && AtomicRun("", |s.buf|, t.events) == Some(Pending(t))
            && t.popped + Pending(t) == t.accepted
  {
    RunKeepsInv(s, steps);
  }

  /** In every interleaving, the byte the task is about to take is the oldest one pending, a byte
      is dropped only when the ring really is full, and a store leaves every pending byte alone. */
  lemma NothingLostOrOverwritten(s: Shared, steps: seq<Step>, b: char)
    requires Initial(s)
    ensures var t := ApplyAll(s, steps);
            && (t.consumer.CLoaded? ==> Pending(t) != "" && t.consumer.b == Pending(t)[0])
            && (Apply(t, ProducerCheck(b)).events != t.events <==> t.producer.PIdle? && |Pending(t)| == |t.buf|)
            && (Apply(t, ConsumerCheck).events != t.events <==> t.consumer.CIdle? && Pending(t) == "")
            && Holds(Apply(t, ProducerStore).buf, |t.popped|, Pending(t))
  {
    RunKeepsInv(s, steps);
    var t := ApplyAll(s, steps);
    UsedIsPending(t);
    StepKeepsInv(t, ProducerStore);
  }

  predicate LooksFull(n: nat, tail: nat, pending: nat) {
    Used(Wrapped(tail + pending), Wrapped(tail)) >= n
  }

  /** The full test works on wrapping indices exactly when the ring is smaller than their range:
      with 65536 slots a full ring would look empty. */
  lemma FullTestExact(n: nat)
    requires n > 0
    ensures (forall tail: nat, pending: nat :: pending <= n ==> (LooksFull(n, tail, pending) <==> pending == n))
            <==> n < 65536
  {
    if n < 65536 {
      forall tail: nat, pending: nat | pending <= n ensures LooksFull(n, tail, pending) <==> pending == n {
        WrappedApart(tail, pending);
      }
    } else {
      assert !LooksFull(n, 0, n);
    }
  }
}
