/**
 * A byte vector consumed from the front without shifting, and the gauge of the bytes all such vectors hold.
 *
 * The allocator is not modelled: the capacity it hands out, and the bytes that growing a vector
 * without writing to it reveals, are parameters of the operation. Sums wrap around, as in a release build.
 */
module ConsumeBuffers {
  import opened Bytes

  /** No vector is longer than `isize::MAX`. */
  const MAX_VEC: usize := USIZE / 2 - 1

  datatype Buf = Buf(inner: seq<byte>, cap: usize, head: usize)

  /** The bytes in front of `head` are consumed, the rest can be read. */
  predicate Sound(b: Buf)
  {
    b.head <= |b.inner| <= b.cap <= MAX_VEC
  }

  function View(b: Buf): seq<byte>
    requires Sound(b)
  {
    b.inner[b.head..]
  }

  datatype Op =
    | PopFront(count: usize)
    | AddPrefix(prefix: seq<byte>)
    | Truncate(count: usize)
    | Extend(bytes: seq<byte>, capacity: usize)
    | Expand(count: usize, capacity: usize, revealed: seq<byte>)
    | Reuse(keep: usize, capacity: usize)

  /** A vector that must hold `need` bytes keeps its capacity if it can. */
  predicate Reserves(cap: usize, need: nat, capacity: usize)
  {
    if need <= cap then capacity == cap else need <= capacity <= MAX_VEC
  }

  /** What the allocator may answer. */
  predicate Allocates(b: Buf, op: Op)
  {
    match op
    case Extend(bytes, capacity) => Reserves(b.cap, |b.inner| + |bytes|, capacity)
    case Expand(count, capacity, revealed) =>
      Reserves(b.cap, |b.inner| + count, capacity)
      && |revealed| == if count <= |b.inner| then 0 else count - |b.inner|
    case Reuse(keep, capacity) => if b.cap <= keep then capacity == b.cap else keep <= capacity <= b.cap
    case _ => true
  }

  /** The sum of two machine words. */
  function Plus(a: usize, b: usize): usize
  {
    if a + b < USIZE then a + b else a + b - USIZE
  }

  /** The vector after the operation, or `None` where the code panics. */
  function Step(b: Buf, op: Op): Option<Buf>
  {
    match op
    case PopFront(count) =>
      if Plus(b.head, count) <= |b.inner| then Some(b.(head := Plus(b.head, count))) else None
    case AddPrefix(prefix) =>
      if b.head < |prefix| then Some(b)
      else if b.head > |b.inner| then None
      else
        var head := b.head - |prefix|;
        Some(Buf(b.inner[..head] + prefix + b.inner[b.head..], b.cap, head))
    case Truncate(count) =>
      Some(if Plus(b.head, count) < |b.inner| then b.(inner := b.inner[..Plus(b.head, count)]) else b)
    case Extend(bytes, capacity) => Some(Buf(b.inner + bytes, capacity, b.head))
    case Expand(count, capacity, revealed) =>
      if count <= |b.inner| + |revealed| then Some(Buf((b.inner + revealed)[..count], capacity, b.head)) else None
    case Reuse(keep, capacity) => Some(Buf([], capacity, 0))
  }

  /** The count leads from the head around the address range. */
  predicate Wraps(b: Buf, op: Op)
  {
    (op.PopFront? || op.Truncate?) && b.head + op.count >= USIZE
  }

  /**
   * Two operations put the head beyond the end: growing a vector to fewer bytes than were consumed, and
   * truncating to a count that wraps around.
   */
  lemma StaysSoundIff(b: Buf, op: Op)
    requires Sound(b) && Allocates(b, op) && Step(b, op).Some?
    ensures Sound(Step(b, op).value) <==> !(op.Expand? && op.count < b.head) && !(op.Truncate? && Wraps(b, op))
  {
    if op.AddPrefix? && |op.prefix| <= b.head {
      assert |Step(b, op).value.inner| == |b.inner|;
    }
  }

  /** One byte, consumed: growing to nothing and truncating around both put the head beyond the end. */
  lemma HeadBeyondEnd(x: byte)
    ensures var b := Buf([x], 1, 1); var op := Expand(0, 1, []);
            Sound(b) && Allocates(b, op) && Step(b, op) == Some(Buf([], 1, 1)) && !Sound(Buf([], 1, 1))
    ensures var b := Buf([x], 1, 1); Step(b, Truncate(USIZE - 1)) == Some(Buf([], 1, 1))
  {
    var b := Buf([x], 1, 1);
    assert (b.inner + [])[..0] == [] == b.inner[..0];
  }

  /** A count that wraps around passes the assertion of the code and gives consumed bytes out again. */
  lemma PopsBack(b: Buf, count: usize)
    requires Sound(b) && Wraps(b, PopFront(count))
    ensures Readable(Step(b, PopFront(count)))
    ensures var back := USIZE - count;
            View(Step(b, PopFront(count)).value) == b.inner[b.head - back..b.head] + View(b)
  {
    var back := USIZE - count;
    assert b.inner[b.head - back..] == b.inner[b.head - back..b.head] + b.inner[b.head..];
  }

  // ---------------------------------------------------------------- the vector as a queue

  /** What a reader sees: the bytes left, and how many may be put back in front of them. */
  datatype Queue = Queue(bytes: seq<byte>, room: nat)

  function Seen(b: Buf): Queue
    requires Sound(b)
  {
    Queue(View(b), b.head)
  }

  /** The operations on a queue; `None` where the vector panics or can no longer be read. */
  function QueueStep(q: Queue, op: Op): Option<Queue>
  {
    match op
    case PopFront(count) => if count <= |q.bytes| then Some(Queue(q.bytes[count..], q.room + count)) else None
    case AddPrefix(prefix) =>
      Some(if |prefix| <= q.room then Queue(prefix + q.bytes, q.room - |prefix|) else q)
    case Truncate(count) => Some(if count < |q.bytes| then Queue(q.bytes[..count], q.room) else q)
    case Extend(bytes, _) => Some(Queue(q.bytes + bytes, q.room))
    case Expand(count, _, revealed) =>
      if q.room <= count <= q.room + |q.bytes| + |revealed|
      then Some(Queue((q.bytes + revealed)[..count - q.room], q.room)) else None
    case Reuse(_, _) => Some(Queue([], 0))
  }

  predicate Readable(b: Option<Buf>)
  {
    b.Some? && Sound(b.value)
  }

  /** The vector can be read exactly where the queue has a value, and that value is what is read. */
  predicate Agree(b: Option<Buf>, q: Option<Queue>)
  {
    (Readable(b) <==> q.Some?) && (Readable(b) ==> q == Some(Seen(b.value)))
  }

  lemma PopRefinesIff(b: Buf, count: usize)
    requires Sound(b)
    ensures Agree(Step(b, PopFront(count)), QueueStep(Seen(b), PopFront(count))) <==> b.head + count < USIZE
  {
    if b.head + count <= |b.inner| {
      assert b.inner[b.head + count..] == b.inner[b.head..][count..];
    }
  }

  lemma TruncateRefinesIff(b: Buf, count: usize)
    requires Sound(b)
    ensures Agree(Step(b, Truncate(count)), QueueStep(Seen(b), Truncate(count))) <==> b.head + count < USIZE
  {
    if b.head + count < |b.inner| {
      assert b.inner[..b.head + count][b.head..] == b.inner[b.head..][..count];
    }
  }

  lemma PrefixRefines(b: Buf, prefix: seq<byte>)
    requires Sound(b)
    ensures Agree(Step(b, AddPrefix(prefix)), QueueStep(Seen(b), AddPrefix(prefix)))
  {
    if |prefix| <= b.head {
      var after := Step(b, AddPrefix(prefix)).value;
      assert |after.inner| == |b.inner|;
      assert after.inner[after.head..] == prefix + b.inner[b.head..];
    }
  }

  lemma ExtendRefines(b: Buf, bytes: seq<byte>, capacity: usize)
    requires Sound(b) && Allocates(b, Extend(bytes, capacity))
    ensures Agree(Step(b, Extend(bytes, capacity)), QueueStep(Seen(b), Extend(bytes, capacity)))
  {
    assert (b.inner + bytes)[b.head..] == b.inner[b.head..] + bytes;
  }

  lemma ExpandRefines(b: Buf, count: usize, capacity: usize, revealed: seq<byte>)
    requires Sound(b) && Allocates(b, Expand(count, capacity, revealed))
    ensures Agree(Step(b, Expand(count, capacity, revealed)), QueueStep(Seen(b), Expand(count, capacity, revealed)))
  {
    StaysSoundIff(b, Expand(count, capacity, revealed));
    if b.head <= count {
      assert (b.inner + revealed)[..count][b.head..] == (b.inner[b.head..] + revealed)[..count - b.head];
    }
  }

  /** An operation on the vector is that operation on the queue unless its count wraps around. */
  lemma StepRefinesIff(b: Buf, op: Op)
    requires Sound(b) && Allocates(b, op)
    ensures Agree(Step(b, op), QueueStep(Seen(b), op)) <==> !Wraps(b, op)
  {
    match op
    case PopFront(count) => PopRefinesIff(b, count);
    case Truncate(count) => TruncateRefinesIff(b, count);
    case AddPrefix(prefix) => PrefixRefines(b, prefix);
    case Extend(bytes, capacity) => ExtendRefines(b, bytes, capacity);
    case Expand(count, capacity, revealed) => ExpandRefines(b, count, capacity, revealed);
    case Reuse(_, _) =>
  }

  /**
    What a reader sees after each operation on a vector that can be read: popping takes bytes off the
    front and fails beyond the end, a prefix that fits comes in front, truncating keeps the first
    bytes, extending adds behind, reusing leaves nothing.
   */
  lemma ViewsAre(b: Buf, count: usize, bytes: seq<byte>, capacity: usize, keep: usize)
    requires Sound(b) && b.head + count < USIZE && Allocates(b, Extend(bytes, capacity))
    ensures var popped := Step(b, PopFront(count));
      && (popped.Some? <==> count <= |View(b)|)
      && (popped.Some? ==> Sound(popped.value) && View(popped.value) == View(b)[count..])
    ensures var prefixed := Step(b, AddPrefix(bytes));
      prefixed.Some? && Sound(prefixed.value)
      && View(prefixed.value) == if |bytes| <= b.head then bytes + View(b) else View(b)
    ensures var cut := Step(b, Truncate(count));
      cut.Some? && Sound(cut.value) && View(cut.value) == View(b)[..Min(count, |View(b)|)]
    ensures var extended := Step(b, Extend(bytes, capacity));
      extended.Some? && Sound(extended.value) && View(extended.value) == View(b) + bytes
    ensures var reused := Step(b, Reuse(keep, b.cap));
      reused.Some? && Sound(reused.value) && View(reused.value) == [] && reused.value.head == 0
  {
    PopRefinesIff(b, count);
    TruncateRefinesIff(b, count);
    PrefixRefines(b, bytes);
    ExtendRefines(b, bytes, capacity);
    assert View(b)[..|View(b)|] == View(b);
  }

  /** What was popped can be put back in front. */
  lemma PrefixUndoesPop(b: Buf, count: usize)
    requires Sound(b) && b.head + count <= |b.inner|
    ensures var popped := Step(b, PopFront(count));
      popped.Some? && Step(popped.value, AddPrefix(View(b)[..count])) == Some(b)
  {
    var popped, bytes := Step(b, PopFront(count)).value, View(b)[..count];
    assert b.inner[..b.head] + bytes + b.inner[b.head + count..] == b.inner;
  }

  function Run(b: Buf, ops: seq<Op>): Option<Buf>
    requires Sound(b)
    decreases |ops|
  {
    if ops == [] then Some(b)
    else if Readable(Step(b, ops[0])) then Run(Step(b, ops[0]).value, ops[1..])
    else None
  }

  function QueueRun(q: Queue, ops: seq<Op>): Option<Queue>
    decreases |ops|
  {
    if ops == [] then Some(q)
    else if QueueStep(q, ops[0]).Some? then QueueRun(QueueStep(q, ops[0]).value, ops[1..])
    else None
  }

  predicate AllocatesAll(b: Buf, ops: seq<Op>)
    requires Sound(b)
    decreases |ops|
  {
    ops != [] ==>
      && Allocates(b, ops[0])
      && (Readable(Step(b, ops[0])) ==> AllocatesAll(Step(b, ops[0]).value, ops[1..]))
  }

  /** No operation of the run is called with a count that wraps around. */
  predicate NeverWraps(b: Buf, ops: seq<Op>)
    requires Sound(b)
    decreases |ops|
  {
    ops != [] ==>
      && !Wraps(b, ops[0])
      && (Readable(Step(b, ops[0])) ==> NeverWraps(Step(b, ops[0]).value, ops[1..]))
  }

  predicate RunAgrees(b: Buf, ops: seq<Op>)
    requires Sound(b)
  {
    Agree(Run(b, ops), QueueRun(Seen(b), ops))
  }

  /** Whatever the allocator does, every run of operations is that run on the queue. */
  lemma {:induction false} RefinesQueue(b: Buf, ops: seq<Op>)
    requires Sound(b) && AllocatesAll(b, ops) && NeverWraps(b, ops)
    ensures RunAgrees(b, ops)
    decreases |ops|
  {
    if ops != [] {
      StepRefinesIff(b, ops[0]);
      if Readable(Step(b, ops[0])) {
        RefinesQueue(Step(b, ops[0]).value, ops[1..]);
      }
    }
  }

  lemma {:induction false} PrefixNeverWraps(b: Buf, ops: seq<Op>, k: nat)
    requires Sound(b) && AllocatesAll(b, ops) && NeverWraps(b, ops) && k <= |ops|
    ensures AllocatesAll(b, ops[..k]) && NeverWraps(b, ops[..k])
    decreases |ops|
  {
    if k > 0 && Readable(Step(b, ops[0])) {
      assert ops[..k][1..] == ops[1..][..k - 1];
      PrefixNeverWraps(Step(b, ops[0]).value, ops[1..], k - 1);
    }
  }

  /** The vector and the queue after one operation agree, and so do they from there. */
  lemma RunAgreesTail(b: Buf, ops: seq<Op>, k: nat)
    requires Sound(b) && ops != [] && k < |ops|
    requires Readable(Step(b, ops[0])) && Agree(Step(b, ops[0]), QueueStep(Seen(b), ops[0]))
    ensures RunAgrees(b, ops[..k + 1]) <==> RunAgrees(Step(b, ops[0]).value, ops[1..][..k])
  {
    assert ops[..k + 1][1..] == ops[1..][..k];
  }

  lemma RunAgreesOnce(b: Buf, ops: seq<Op>)
    requires Sound(b) && ops != []
    ensures RunAgrees(b, ops[..1]) <==> Agree(Step(b, ops[0]), QueueStep(Seen(b), ops[0]))
  {
    var once := ops[..1];
    assert once[1..] == [];
    assert Readable(Step(b, once[0])) ==> Run(b, once) == Step(b, ops[0]);
    assert QueueRun(Seen(b), once) == QueueStep(Seen(b), ops[0]);
  }

  lemma {:induction false} AgreeingNeverWraps(b: Buf, ops: seq<Op>)
    requires Sound(b) && AllocatesAll(b, ops)
    requires forall k :: 0 <= k <= |ops| ==> RunAgrees(b, ops[..k])
    ensures NeverWraps(b, ops)
    decreases |ops|
  {
    if ops != [] {
      RunAgreesOnce(b, ops);
      StepRefinesIff(b, ops[0]);
      if Readable(Step(b, ops[0])) {
        var after, rest := Step(b, ops[0]).value, ops[1..];
        forall k | 0 <= k <= |rest|
          ensures RunAgrees(after, rest[..k])
        {
          RunAgreesTail(b, ops, k);
        }
        AgreeingNeverWraps(after, rest);
      }
    }
  }

  /** A run is that run on the queue, all the way, exactly when no count in it wraps around. */
  lemma RefinesQueueIff(b: Buf, ops: seq<Op>)
    requires Sound(b) && AllocatesAll(b, ops)
    ensures NeverWraps(b, ops) <==> (forall k :: 0 <= k <= |ops| ==> RunAgrees(b, ops[..k]))
  {
    if NeverWraps(b, ops) {
      forall k | 0 <= k <= |ops|
        ensures RunAgrees(b, ops[..k])
      {
        PrefixNeverWraps(b, ops, k);
        RefinesQueue(b, ops[..k]);
      }
    } else if forall k :: 0 <= k <= |ops| ==> RunAgrees(b, ops[..k]) {
      AgreeingNeverWraps(b, ops);
    }
  }

  // ---------------------------------------------------------------- first in, first out

  predicate IsTransfer(ops: seq<Op>)
  {
    forall i :: 0 <= i < |ops| ==> ops[i].PopFront? || ops[i].Extend?
  }

  function Fed(ops: seq<Op>): seq<byte>
  {
    if ops == [] then [] else (if ops[0].Extend? then ops[0].bytes else []) + Fed(ops[1..])
  }

  function Popped(q: Queue, ops: seq<Op>): seq<byte>
    requires QueueRun(q, ops).Some?
    decreases |ops|
  {
    if ops == [] then []
    else
      (if ops[0].PopFront? then q.bytes[..ops[0].count] else []) + Popped(QueueStep(q, ops[0]).value, ops[1..])
  }

  lemma PopShift(all: seq<byte>, count: nat, popped: seq<byte>, last: seq<byte>, fed: seq<byte>)
    requires count <= |all| && popped + last == all[count..] + fed
    ensures (all[..count] + popped) + last == all + ([] + fed)
  {
    assert (all[..count] + popped) + last == all[..count] + (popped + last);
    assert all[..count] + (all[count..] + fed) == (all[..count] + all[count..]) + fed;
  }

  lemma FeedShift(all: seq<byte>, bytes: seq<byte>, popped: seq<byte>, last: seq<byte>, fed: seq<byte>)
    requires popped + last == (all + bytes) + fed
    ensures ([] + popped) + last == all + (bytes + fed)
  {
    assert [] + popped == popped;
    assert (all + bytes) + fed == all + (bytes + fed);
  }

  /** Bytes leave in the order they were added, none lost and none twice. */
  lemma {:induction false} FirstInFirstOut(q: Queue, ops: seq<Op>)
    requires IsTransfer(ops) && QueueRun(q, ops).Some?
    ensures Popped(q, ops) + QueueRun(q, ops).value.bytes == q.bytes + Fed(ops)
    decreases |ops|
  {
    if ops != [] {
      var op, rest := ops[0], ops[1..];
      var next := QueueStep(q, op).value;
      FirstInFirstOut(next, rest);
      var last := QueueRun(next, rest).value.bytes;
      if op.PopFront? {
        PopShift(q.bytes, op.count, Popped(next, rest), last, Fed(rest));
      } else {
        FeedShift(q.bytes, op.bytes, Popped(next, rest), last, Fed(rest));
      }
    }
  }

  // ---------------------------------------------------------------- the gauge

  /** Every buffer ever made, `None` once it is gone, and the process-wide gauge. */
  datatype Heap = Heap(slots: seq<Option<Buf>>, total: int)

  datatype Event =
    | FromVec(bytes: seq<byte>, capacity: usize)
    | Do(slot: nat, op: Op)
    | IntoVec(slot: nat)
    | Dropped(slot: nat)

  /** `update_metrics_after_resize`. */
  function Resized(total: int, before: nat, after: nat): int
  {
    if after < before then total - (before - after)
    else if after > before then total + (after - before)
    else total
  }

  predicate Resizes(op: Op)
  {
    op.Extend? || op.Expand? || op.Reuse?
  }

  predicate Live(h: Heap, slot: nat)
  {
    slot < |h.slots| && h.slots[slot].Some?
  }

  /** Events on a buffer that is gone, or that panic, change nothing. */
  function Apply(h: Heap, e: Event): Heap
  {
    match e
    case FromVec(bytes, capacity) => Heap(h.slots + [Some(Buf(bytes, capacity, 0))], h.total + capacity)
    case Do(slot, op) =>
      if !Live(h, slot) || Step(h.slots[slot].value, op).None? then h
      else
        var before := h.slots[slot].value;
        var after := Step(before, op).value;
        Heap(h.slots[slot := Some(after)], if Resizes(op) then Resized(h.total, before.cap, after.cap) else h.total)
    case IntoVec(slot) => if Live(h, slot) then Release(h, slot) else h
    case Dropped(slot) => if Live(h, slot) then Release(h, slot) else h
  }

  function Release(h: Heap, slot: nat): Heap
    requires Live(h, slot)
  {
    Heap(h.slots[slot := None], h.total - h.slots[slot].value.cap)
  }

  function Capacity(b: Option<Buf>): nat
  {
    if b.Some? then b.value.cap else 0
  }

  function Capacities(slots: seq<Option<Buf>>): nat
  {
    if slots == [] then 0 else Capacities(slots[..|slots| - 1]) + Capacity(slots[|slots| - 1])
  }

  function After(h: Heap, es: seq<Event>): Heap
  {
    if es == [] then h else Apply(After(h, es[..|es| - 1]), es[|es| - 1])
  }

  lemma {:induction false} CapacitiesAt(slots: seq<Option<Buf>>, i: nat, b: Option<Buf>)
    requires i < |slots|
    ensures Capacities(slots[i := b]) == Capacities(slots) - Capacity(slots[i]) + Capacity(b)
    decreases |slots|
  {
    var n := |slots| - 1;
    if i == n {
      assert slots[i := b][..n] == slots[..n];
    } else {
      assert slots[i := b][..n] == slots[..n][i := b];
      CapacitiesAt(slots[..n], i, b);
    }
  }

  lemma ApplyKeepsGauge(h: Heap, e: Event)
    requires h.total == Capacities(h.slots)
    ensures Apply(h, e).total == Capacities(Apply(h, e).slots)
  {
    match e
    case FromVec(bytes, capacity) =>
      assert Apply(h, e).slots[..|h.slots|] == h.slots;
    case Do(slot, op) =>
      if Live(h, slot) && Step(h.slots[slot].value, op).Some? {
        CapacitiesAt(h.slots, slot, Step(h.slots[slot].value, op));
      }
    case IntoVec(slot) =>
      if Live(h, slot) {
        CapacitiesAt(h.slots, slot, None);
      }
    case Dropped(slot) =>
      if Live(h, slot) {
        CapacitiesAt(h.slots, slot, None);
      }
  }

  /** After any run the gauge is the sum of the capacities of the buffers still live. */
  lemma {:induction false} GaugeIsExact(es: seq<Event>)
    ensures var h := After(Heap([], 0), es); h.total == Capacities(h.slots)
  {
    if es != [] {
      GaugeIsExact(es[..|es| - 1]);
      ApplyKeepsGauge(After(Heap([], 0), es[..|es| - 1]), es[|es| - 1]);
    }
  }

  lemma {:induction false} NoneLive(slots: seq<Option<Buf>>)
    requires forall i :: 0 <= i < |slots| ==> slots[i].None?
    ensures Capacities(slots) == 0
  {
    if slots != [] {
      NoneLive(slots[..|slots| - 1]);
    }
  }

  /** With every buffer gone the gauge is back at zero. */
  lemma GaugeReturnsToZero(es: seq<Event>)
    requires forall i :: 0 <= i < |After(Heap([], 0), es).slots| ==> After(Heap([], 0), es).slots[i].None?
    ensures After(Heap([], 0), es).total == 0
  {
    GaugeIsExact(es);
    NoneLive(After(Heap([], 0), es).slots);
  }

  // ---------------------------------------------------------------- the buffer itself

  class Gauge {
    var total: int

    constructor ()
      ensures total == 0
    {
      total := 0;
    }
  }

  class ConsumeBuffer {
    var inner: seq<byte>
    var cap: usize
    var head: usize
    const gauge: Gauge

    function Value(): Buf
      reads this
    {
      Buf(inner, cap, head)
    }

    constructor (bytes: seq<byte>, capacity: usize, g: Gauge)
      requires |bytes| <= capacity
      modifies g
      ensures Value() == Buf(bytes, capacity, 0) && gauge == g && g.total == old(g.total) + capacity
    {
      inner, cap, head, gauge := bytes, capacity, 0, g;
      new;
      g.total := g.total + capacity;
    }

    method UpdateMetricsAfterResize(oldCapacity: usize)
      modifies gauge
      ensures gauge.total == Resized(old(gauge.total), oldCapacity, cap)
    {
      if cap < oldCapacity {
        gauge.total := gauge.total - (oldCapacity - cap);
      } else if cap > oldCapacity {
        gauge.total := gauge.total + (cap - oldCapacity);
      }
    }

    /** The assertion of the code is a precondition here; `Step` says where it fails. */
    method PopFront(count: usize)
      requires Step(Value(), Op.PopFront(count)).Some?
      modifies `head
      ensures Some(Value()) == Step(old(Value()), Op.PopFront(count))
    {
      head := Plus(head, count);
    }

    method AddPrefix(prefix: seq<byte>) returns (added: bool)
      requires Step(Value(), Op.AddPrefix(prefix)).Some?
      modifies `inner, `head
      ensures Some(Value()) == Step(old(Value()), Op.AddPrefix(prefix))
      ensures added <==> |prefix| <= old(head)
    {
      if head < |prefix| {
        return false;
      }
      head := head - |prefix|;
      inner := inner[..head] + prefix + inner[head + |prefix|..];
      added := true;
    }

    method Truncate(count: usize)
      modifies `inner
      ensures Some(Value()) == Step(old(Value()), Op.Truncate(count))
    {
      var len := Plus(head, count);
      if len < |inner| {
        inner := inner[..len];
      }
    }

    method Extend(bytes: seq<byte>, capacity: usize)
      requires Allocates(Value(), Op.Extend(bytes, capacity))
      modifies `inner, `cap, gauge
      ensures Some(Value()) == Step(old(Value()), Op.Extend(bytes, capacity))
      ensures gauge.total == Resized(old(gauge.total), old(cap), cap)
    {
      var oldCapacity := cap;
      inner, cap := inner + bytes, capacity;
      UpdateMetricsAfterResize(oldCapacity);
    }

    method Expand(count: usize, capacity: usize, revealed: seq<byte>)
      requires Allocates(Value(), Op.Expand(count, capacity, revealed))
      modifies `inner, `cap, gauge
      ensures Some(Value()) == Step(old(Value()), Op.Expand(count, capacity, revealed))
      ensures gauge.total == Resized(old(gauge.total), old(cap), cap)
    {
      var oldCapacity := cap;
      cap := capacity;
      UpdateMetricsAfterResize(oldCapacity);
      inner := (inner + revealed)[..count];
    }

    method Reuse(keep: usize, capacity: usize) returns (worthKeeping: bool)
      requires Allocates(Value(), Op.Reuse(keep, capacity))
      modifies this, gauge
      ensures Some(Value()) == Step(old(Value()), Op.Reuse(keep, capacity))
      ensures gauge.total == Resized(old(gauge.total), old(cap), cap)
      ensures worthKeeping <==> capacity > 0
    {
      var oldCapacity := cap;
      inner, cap := [], capacity;
      UpdateMetricsAfterResize(oldCapacity);
      head := 0;
      worthKeeping := cap > 0;
    }

    /** Takes the vector out, so that the drop that follows gives back nothing more. */
    method IntoVec() returns (bytes: seq<byte>)
      requires Sound(Value())
      modifies this, gauge
      ensures bytes == View(old(Value()))
      ensures cap == 0 && gauge.total == old(gauge.total) - old(cap)
    {
      var taken := inner;
      gauge.total := gauge.total - cap;
      inner, cap := [], 0;
      bytes := taken[head..];
      Drop();
    }

    method Drop()
      modifies gauge
      ensures gauge.total == old(gauge.total) - cap
    {
      gauge.total := gauge.total - cap;
    }
  }
}
