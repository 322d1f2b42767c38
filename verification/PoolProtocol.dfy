/**
  The sharded buffer pool as a protocol between arbitrarily many tasks.

  A task is the life of one pooled value: the `get` (or `get_empty`, `from_owned`) call that
  produces it, its time in the owner's hands, and the `Drop` that returns or discards it. Every
  atomic operation, every queue push or pop and every gauge update is one step of one task, and
  the steps of different tasks interleave in any order.
 */
module PoolProtocol {
  import opened Bytes

  /** A pooled value; `tag` is its identity, so that two equal buffers can be told apart. */
  datatype Buffer = Buffer(tag: nat, data: seq<byte>, cap: nat)

  datatype Shard = Shard(queue: seq<Buffer>, cnt: int)

  datatype Task =
    | Getting                               // before `next_shard.fetch_add`
    | Picked(shard: nat)                    // before `queue.pop`
    | Popped(shard: nat, buf: Buffer)       // before `elem_cnt.fetch_sub`
    | Uncounted(shard: nat, buf: Buffer)    // before `pool_idle_count.dec`
    | Unlisted(shard: nat, buf: Buffer)     // before `pool_idle_bytes.dec_by`
    | Arriving(shard: nat, buf: Buffer)     // before `pool_active_count.inc`
    | Live(shard: nat, buf: Buffer)         // owned by a caller
    | Dropping(shard: nat, buf: Buffer)     // before `reuse` and `elem_cnt.fetch_add`
    | Reserved(shard: nat, buf: Buffer)     // before `pool_idle_count.inc`
    | Listed(shard: nat, buf: Buffer)       // before `pool_idle_bytes.inc_by`
    | Billed(shard: nat, buf: Buffer)       // before `queue.push`
    | Refused(shard: nat)                   // before the compensating `elem_cnt.fetch_sub`
    | Finished

  datatype Pool = Pool(
    shards: seq<Shard>,
    tasks: seq<Task>,
    next: nat,             // `next_shard`
    max: nat,
    trim: nat,
    idleCount: int,
    idleBytes: int,
    active: int,
    taken: multiset<nat>,  // identities handed out by `into_inner`
    discarded: multiset<nat>, // identities of values dropped for good
    unused: nat            // the next unused identity
  )

  datatype Action =
    | StartGet
    | StartEmpty
    | StartOwned(tag: nat, data: seq<byte>, cap: nat)
    | Step(task: nat, kept: nat)
    | Use(task: nat, data: seq<byte>, cap: nat)
    | StartDrop(task: nat)
    | IntoInner(task: nat)

  /** Capacities `Vec::shrink_to(trim)` may leave a cleared vector with. */
  predicate Shrunk(cap: nat, trim: nat, kept: nat)
  {
    kept <= cap && (kept >= trim || kept == cap)
  }

  predicate Enabled(p: Pool, a: Action)
  {
    match a
    case StartGet => true
    case StartEmpty => true
    case StartOwned(tag, _, _) => tag == p.unused || tag in p.taken
    case Step(i, kept) =>
      i < |p.tasks| && p.tasks[i] != Finished && !p.tasks[i].Live? &&
      (p.tasks[i].Dropping? ==> Shrunk(p.tasks[i].buf.cap, p.trim, kept))
    case Use(i, _, _) => i < |p.tasks| && p.tasks[i].Live?
    case StartDrop(i) => i < |p.tasks| && p.tasks[i].Live?
    case IntoInner(i) => i < |p.tasks| && p.tasks[i].Live?
  }

  function Max(a: nat, b: nat): nat { if a < b then b else a }

  /** What one atomic operation does to the task, to its shard and to the shared gauges. */
  datatype Effect = Effect(task: Task, shard: Shard, count: int, bytes: int, active: int, makes: bool)

  /**
    The next atomic operation of a task working on shard `k`: `unused` is the identity of a value
    created here and `kept` the capacity the allocator leaves in `reuse`.
   */
  function Act(t: Task, k: nat, sh: Shard, max: nat, unused: nat, kept: nat): Effect
    requires !t.Finished? && !t.Live?
  {
    match t
    case Getting => Effect(Picked(k), sh, 0, 0, 0, false)
    case Picked(_) =>
      if sh.queue == [] then Effect(Arriving(k, Buffer(unused, [], 0)), sh, 0, 0, 0, true)
      else Effect(Popped(k, sh.queue[0]), sh.(queue := sh.queue[1..]), 0, 0, 0, false)
    case Popped(_, b) => Effect(Uncounted(k, b), sh.(cnt := sh.cnt - 1), 0, 0, 0, false)
    case Uncounted(_, b) => Effect(Unlisted(k, b), sh, -1, 0, 0, false)
    case Unlisted(_, b) => Effect(Arriving(k, b), sh, 0, 0 - b.cap, 0, false)
    case Arriving(_, b) => Effect(Live(k, b), sh, 0, 0, 1, false)
    case Dropping(_, b) =>
      if kept == 0 then Effect(Finished, sh, 0, 0, 0, false)
      else Effect(if sh.cnt < max then Reserved(k, Buffer(b.tag, [], kept)) else Refused(k),
                  sh.(cnt := sh.cnt + 1), 0, 0, 0, false)
    case Reserved(_, b) => Effect(Listed(k, b), sh, 1, 0, 0, false)
    case Listed(_, b) => Effect(Billed(k, b), sh, 0, b.cap, 0, false)
    case Billed(_, b) => Effect(Finished, sh.(queue := sh.queue + [b]), 0, 0, 0, false)
    case Refused(_) => Effect(Finished, sh.(cnt := sh.cnt - 1), 0, 0, 0, false)
  }

  /** The shard a counter value falls on: its remainder, as `DrawIs` says. */
  function Draw(next: nat, shards: nat): (k: nat)
    requires shards > 0
    ensures k < shards
    decreases next
  {
    if next < shards then next else Draw(next - shards, shards)
  }

  lemma {:induction false} DrawIs(next: nat, shards: nat)
    requires shards > 0
    ensures Draw(next, shards) == next % shards
    decreases next
  {
    if next < shards {
      Remainder(next, shards, 0, next);
    } else {
      DrawIs(next - shards, shards);
      var q := (next - shards) / shards;
      Remainder(next, shards, q + 1, (next - shards) % shards);
    }
  }

  lemma Remainder(x: nat, n: nat, q: nat, r: nat)
    requires r < n && x == q * n + r
    ensures x % n == r
  {
    Close(x / n - q, n, r - x % n);
  }

  /** The shard a task works on; `get` draws it round-robin. */
  function ShardOf(p: Pool, t: Task): (k: nat)
    requires |p.shards| > 0 && !t.Finished?
  {
    if t.Getting? then Draw(p.next, |p.shards|) else t.shard
  }

  function Advance(p: Pool, i: nat, kept: nat): (r: Pool)
    requires Shaped(p) && Enabled(p, Step(i, kept))
    ensures Shaped(r)
  {
    var k := ShardOf(p, p.tasks[i]);
    var e := Act(p.tasks[i], k, p.shards[k], p.max, p.unused, kept);
    p.(tasks := p.tasks[i := e.task],
       shards := p.shards[k := e.shard],
       next := if p.tasks[i].Getting? then (p.next + 1) % USIZE else p.next,
       idleCount := p.idleCount + e.count,
       idleBytes := p.idleBytes + e.bytes,
       active := p.active + e.active,
       discarded :=
         p.discarded + if p.tasks[i].Dropping? && !e.task.Reserved? then multiset{p.tasks[i].buf.tag} else multiset{},
       unused := if e.makes then p.unused + 1 else p.unused)
  }

  function Apply(p: Pool, a: Action): (r: Pool)
    requires Shaped(p) && Enabled(p, a)
    ensures Shaped(r)
  {
    match a
    case StartGet => p.(tasks := p.tasks + [Getting])
    case StartEmpty =>
      p.(tasks := p.tasks + [Arriving(Draw(p.next, |p.shards|), Buffer(p.unused, [], 0))], unused := p.unused + 1)
    case StartOwned(tag, data, cap) =>
      p.(tasks := p.tasks + [Arriving(Draw(p.next, |p.shards|), Buffer(tag, data, cap))],
         next := (p.next + 1) % USIZE,
         taken := p.taken - multiset{tag},
         unused := Max(p.unused, tag + 1))
    case Step(i, kept) => Advance(p, i, kept)
    case Use(i, data, cap) =>
      p.(tasks := p.tasks[i := Live(p.tasks[i].shard, Buffer(p.tasks[i].buf.tag, data, cap))])
    case StartDrop(i) =>
      p.(tasks := p.tasks[i := Dropping(p.tasks[i].shard, p.tasks[i].buf)], active := p.active - 1)
    case IntoInner(i) =>
      // `mem::take` leaves an empty default behind, which the same call then drops.
      p.(tasks := p.tasks[i := Dropping(p.tasks[i].shard, Buffer(p.unused, [], 0))],
         active := p.active - 1,
         taken := p.taken + multiset{p.tasks[i].buf.tag},
         unused := p.unused + 1)
  }

  /** Any number of actions, each enabled when it is taken. */
  predicate Runs(p: Pool, actions: seq<Action>)
    requires Shaped(p)
    decreases |actions|
  {
    actions == [] || (Enabled(p, actions[0]) && Runs(Apply(p, actions[0]), actions[1..]))
  }

  function After(p: Pool, actions: seq<Action>): (r: Pool)
    requires Shaped(p) && Runs(p, actions)
    ensures Shaped(r)
    decreases |actions|
  {
    if actions == [] then p else After(Apply(p, actions[0]), actions[1..])
  }

  // ---------------------------------------------------------------- counting over tasks and shards

  datatype Gauge =
    | Slots(k: nat)    // what `elem_cnt` of shard k counts beyond the queue
    | Room(k: nat)     // reserved slots of shard k whose push is still to come
    | IdleCount
    | IdleBytes
    | ActiveCount
    | Places(tag: nat) // where the value with this identity is

  function BufferWeight(g: Gauge, b: Buffer): nat
  {
    match g
    case IdleCount => 1
    case IdleBytes => b.cap
    case Places(tag) => if b.tag == tag then 1 else 0
    case _ => 0
  }

  function TaskWeight(g: Gauge, t: Task): nat
  {
    match g
    case Slots(k) =>
      if (t.Popped? || t.Reserved? || t.Listed? || t.Billed? || t.Refused?) && t.shard == k then 1 else 0
    case Room(k) => if (t.Reserved? || t.Listed? || t.Billed?) && t.shard == k then 1 else 0
    case IdleCount => if t.Popped? || t.Uncounted? || t.Listed? || t.Billed? then 1 else 0
    case IdleBytes => if t.Popped? || t.Uncounted? || t.Unlisted? || t.Billed? then t.buf.cap else 0
    case ActiveCount => if t.Live? then 1 else 0
    case Places(_) => if t.Getting? || t.Picked? || t.Refused? || t.Finished? then 0 else BufferWeight(g, t.buf)
  }

  function InFlight(g: Gauge, ts: seq<Task>): nat
  {
    if ts == [] then 0 else InFlight(g, ts[..|ts| - 1]) + TaskWeight(g, ts[|ts| - 1])
  }

  function QueueWeight(g: Gauge, q: seq<Buffer>): nat
  {
    if q == [] then 0 else BufferWeight(g, q[0]) + QueueWeight(g, q[1..])
  }

  /** What the queues of all shards hold together. */
  function Queued(g: Gauge, shards: seq<Shard>): nat
  {
    if shards == [] then 0
    else Queued(g, shards[..|shards| - 1]) + QueueWeight(g, shards[|shards| - 1].queue)
  }

  function Total(g: Gauge, p: Pool): nat
  {
    Queued(g, p.shards) + InFlight(g, p.tasks)
  }

  lemma {:induction false} InFlightUpdate(g: Gauge, ts: seq<Task>, i: nat, t: Task)
    requires i < |ts|
    ensures InFlight(g, ts[i := t]) == InFlight(g, ts) - TaskWeight(g, ts[i]) + TaskWeight(g, t)
  {
    var n := |ts| - 1;
    if i == n {
      assert ts[i := t][..n] == ts[..n];
    } else {
      InFlightUpdate(g, ts[..n], i, t);
      assert ts[i := t][..n] == ts[..n][i := t];
    }
  }

  lemma InFlightAdd(g: Gauge, ts: seq<Task>, t: Task)
    ensures InFlight(g, ts + [t]) == InFlight(g, ts) + TaskWeight(g, t)
  {
    assert (ts + [t])[..|ts|] == ts;
  }

  lemma {:induction false} QueuedUpdate(g: Gauge, shards: seq<Shard>, k: nat, sh: Shard)
    requires k < |shards|
    ensures Queued(g, shards[k := sh]) == Queued(g, shards) - QueueWeight(g, shards[k].queue) + QueueWeight(g, sh.queue)
  {
    var n := |shards| - 1;
    if k == n {
      assert shards[k := sh][..n] == shards[..n];
    } else {
      QueuedUpdate(g, shards[..n], k, sh);
      assert shards[k := sh][..n] == shards[..n][k := sh];
    }
  }

  lemma {:induction false} QueueWeightPush(g: Gauge, q: seq<Buffer>, b: Buffer)
    ensures QueueWeight(g, q + [b]) == QueueWeight(g, q) + BufferWeight(g, b)
  {
    if q == [] {
      assert q + [b] == [b];
    } else {
      QueueWeightPush(g, q[1..], b);
      assert (q + [b])[1..] == q[1..] + [b];
    }
  }

  lemma {:induction false} QueueLength(q: seq<Buffer>)
    ensures QueueWeight(IdleCount, q) == |q|
  {
    if q != [] {
      QueueLength(q[1..]);
    }
  }

  lemma {:induction false} NothingQueued(g: Gauge, n: nat)
    ensures Queued(g, seq(n, _ => Shard([], 0))) == 0
  {
    if n > 0 {
      NothingQueued(g, n - 1);
      assert seq(n, _ => Shard([], 0))[..n - 1] == seq(n - 1, _ => Shard([], 0));
    }
  }

  // ---------------------------------------------------------------- the invariant

  predicate HasShard(t: Task) { !t.Getting? && !t.Finished? }

  /** Tasks name existing shards. */
  predicate Shaped(p: Pool)
  {
    |p.shards| > 0 && forall i :: 0 <= i < |p.tasks| && HasShard(p.tasks[i]) ==> p.tasks[i].shard < |p.shards|
  }

  /** `elem_cnt` counts the queue, the reservations, the pops and the refusals still to be settled. */
  ghost predicate CountedAt(p: Pool, k: nat)
    requires k < |p.shards|
  {
    p.shards[k].cnt == |p.shards[k].queue| + InFlight(Slots(k), p.tasks)
  }

  /** Queued values plus reserved slots stay within the shard's capacity. */
  ghost predicate CappedAt(p: Pool, k: nat)
    requires k < |p.shards|
  {
    |p.shards[k].queue| + InFlight(Room(k), p.tasks) <= p.max
  }

  ghost predicate Counted(p: Pool)
  {
    forall k :: 0 <= k < |p.shards| ==> CountedAt(p, k) && CappedAt(p, k)
  }

  ghost predicate Gauged(p: Pool)
  {
    && p.idleCount == Total(IdleCount, p)
    && p.idleBytes == Total(IdleBytes, p)
    && p.active == InFlight(ActiveCount, p.tasks)
  }

  predicate Clean(b: Buffer) { b.data == [] && b.cap > 0 }

  predicate CleanTask(t: Task)
  {
    t.Popped? || t.Uncounted? || t.Unlisted? || t.Reserved? || t.Listed? || t.Billed? ==> Clean(t.buf)
  }

  predicate CleanShard(sh: Shard)
  {
    forall j :: 0 <= j < |sh.queue| ==> Clean(sh.queue[j])
  }

  /** Whatever is queued, about to be queued or just popped is empty and has capacity. */
  predicate Cleaned(p: Pool)
  {
    && (forall k :: 0 <= k < |p.shards| ==> CleanShard(p.shards[k]))
    && (forall i :: 0 <= i < |p.tasks| ==> CleanTask(p.tasks[i]))
  }

  /** In how many places the value with identity `tag` is: queues, tasks, `into_inner` results, discards. */
  function PlacesOf(p: Pool, tag: nat): nat
  {
    Total(Places(tag), p) + p.taken[tag] + p.discarded[tag]
  }

  /** Every value ever made is in exactly one place: none is lost and none is in two places. */
  ghost predicate Distinct(p: Pool)
  {
    forall tag: nat :: PlacesOf(p, tag) == if tag < p.unused then 1 else 0
  }

  ghost predicate Invariant(p: Pool)
  {
    Shaped(p) && Counted(p) && Gauged(p) && Cleaned(p) && Distinct(p)
  }

  /** `Pool::new`: `limit` is divided evenly between the shards. */
  function NewPool(shards: nat, limit: nat, trim: nat): (r: Pool)
    requires shards > 0
    ensures Shaped(r)
  {
    Pool(seq(shards, _ => Shard([], 0)), [], 0, limit / shards, trim, 0, 0, 0, multiset{}, multiset{}, 0)
  }

  lemma NewPoolInvariant(shards: nat, limit: nat, trim: nat)
    requires shards > 0
    ensures Invariant(NewPool(shards, limit, trim))
  {
    NothingQueued(IdleCount, shards);
    NothingQueued(IdleBytes, shards);
    forall tag: nat { NothingQueued(Places(tag), shards); }
  }

  // ---------------------------------------------------------------- one operation, seen locally

  lemma ActMovesGauge(g: Gauge, t: Task, k: nat, sh: Shard, max: nat, unused: nat, kept: nat)
    requires !t.Finished? && !t.Live?
    requires g.IdleCount? || g.IdleBytes? || g.ActiveCount?
    ensures var e := Act(t, k, sh, max, unused, kept);
      TaskWeight(g, e.task) + QueueWeight(g, e.shard.queue) - TaskWeight(g, t) - QueueWeight(g, sh.queue)
      == (if g.IdleCount? then e.count else if g.IdleBytes? then e.bytes else e.active)
  {
    if t.Billed? {
      QueueWeightPush(g, sh.queue, t.buf);
    }
    if g.ActiveCount? {
      NoQueueWeight(g, sh.queue);
      NoQueueWeight(g, Act(t, k, sh, max, unused, kept).shard.queue);
    }
  }

  lemma {:induction false} NoQueueWeight(g: Gauge, q: seq<Buffer>)
    requires g.ActiveCount?
    ensures QueueWeight(g, q) == 0
  {
    if q != [] {
      NoQueueWeight(g, q[1..]);
    }
  }

  lemma ActKeepsIdentity(tag: nat, t: Task, k: nat, sh: Shard, max: nat, unused: nat, kept: nat)
    requires !t.Finished? && !t.Live?
    ensures var e := Act(t, k, sh, max, unused, kept); var g := Places(tag);
      TaskWeight(g, e.task) + QueueWeight(g, e.shard.queue)
         + (if t.Dropping? && !e.task.Reserved? then BufferWeight(g, t.buf) else 0)
      == TaskWeight(g, t) + QueueWeight(g, sh.queue) + if e.makes && tag == unused then 1 else 0
  {
    if t.Billed? {
      QueueWeightPush(Places(tag), sh.queue, t.buf);
    }
  }

  lemma ActCounts(t: Task, k: nat, sh: Shard, max: nat, unused: nat, kept: nat)
    requires !t.Finished? && !t.Live? && (HasShard(t) ==> t.shard == k)
    ensures var e := Act(t, k, sh, max, unused, kept);
      && e.shard.cnt - |e.shard.queue| - TaskWeight(Slots(k), e.task) == sh.cnt - |sh.queue| - TaskWeight(Slots(k), t)
      && |e.shard.queue| + TaskWeight(Room(k), e.task) - |sh.queue| - TaskWeight(Room(k), t)
         <= if t.Dropping? && sh.cnt < max then 1 else 0
  {
  }

  lemma ActClean(t: Task, k: nat, sh: Shard, max: nat, unused: nat, kept: nat)
    requires !t.Finished? && !t.Live? && CleanTask(t) && CleanShard(sh)
    ensures var e := Act(t, k, sh, max, unused, kept); CleanTask(e.task) && CleanShard(e.shard)
  {
  }

  // ---------------------------------------------------------------- preservation

  lemma {:induction false} RoomWithinSlots(k: nat, ts: seq<Task>)
    ensures InFlight(Room(k), ts) <= InFlight(Slots(k), ts)
  {
    if ts != [] {
      RoomWithinSlots(k, ts[..|ts| - 1]);
    }
  }

  lemma AdvanceTotal(g: Gauge, p: Pool, i: nat, kept: nat)
    requires Shaped(p) && Enabled(p, Step(i, kept))
    ensures var k := ShardOf(p, p.tasks[i]);
      var e := Act(p.tasks[i], k, p.shards[k], p.max, p.unused, kept);
      Total(g, Advance(p, i, kept)) - TaskWeight(g, e.task) - QueueWeight(g, e.shard.queue)
      == Total(g, p) - TaskWeight(g, p.tasks[i]) - QueueWeight(g, p.shards[k].queue)
  {
    var k := ShardOf(p, p.tasks[i]);
    var e := Act(p.tasks[i], k, p.shards[k], p.max, p.unused, kept);
    InFlightUpdate(g, p.tasks, i, e.task);
    QueuedUpdate(g, p.shards, k, e.shard);
  }

  lemma AdvanceCounted(p: Pool, i: nat, kept: nat)
    requires Shaped(p) && Counted(p) && Enabled(p, Step(i, kept))
    ensures Counted(Advance(p, i, kept))
  {
    var p' := Advance(p, i, kept);
    var t, k := p.tasks[i], ShardOf(p, p.tasks[i]);
    var e := Act(t, k, p.shards[k], p.max, p.unused, kept);
    ActCounts(t, k, p.shards[k], p.max, p.unused, kept);
    forall j | 0 <= j < |p'.shards| ensures CountedAt(p', j) && CappedAt(p', j) {
      assert CountedAt(p, j) && CappedAt(p, j);
      InFlightUpdate(Slots(j), p.tasks, i, e.task);
      InFlightUpdate(Room(j), p.tasks, i, e.task);
      RoomWithinSlots(j, p.tasks);
    }
  }

  lemma AdvanceGauge(g: Gauge, p: Pool, i: nat, kept: nat)
    requires Shaped(p) && Enabled(p, Step(i, kept))
    requires g.IdleCount? || g.IdleBytes? || g.ActiveCount?
    ensures var p' := Advance(p, i, kept);
      Total(g, p') - Total(g, p)
      == (if g.IdleCount? then p'.idleCount - p.idleCount
          else if g.IdleBytes? then p'.idleBytes - p.idleBytes else p'.active - p.active)
  {
    var k := ShardOf(p, p.tasks[i]);
    ActMovesGauge(g, p.tasks[i], k, p.shards[k], p.max, p.unused, kept);
    AdvanceTotal(g, p, i, kept);
  }

  lemma AdvanceGauged(p: Pool, i: nat, kept: nat)
    requires Shaped(p) && Gauged(p) && Enabled(p, Step(i, kept))
    ensures Gauged(Advance(p, i, kept))
  {
    AdvanceGauge(IdleCount, p, i, kept);
    AdvanceGauge(IdleBytes, p, i, kept);
    AdvanceGauge(ActiveCount, p, i, kept);
    NoneQueued(p.shards);
    NoneQueued(Advance(p, i, kept).shards);
  }

  lemma {:induction false} NoneQueued(shards: seq<Shard>)
    ensures Queued(ActiveCount, shards) == 0
  {
    if shards != [] {
      NoneQueued(shards[..|shards| - 1]);
      NoQueueWeight(ActiveCount, shards[|shards| - 1].queue);
    }
  }

  lemma AdvanceDistinct(p: Pool, i: nat, kept: nat)
    requires Shaped(p) && Distinct(p) && Enabled(p, Step(i, kept))
    ensures Distinct(Advance(p, i, kept))
  {
    var p' := Advance(p, i, kept);
    var t, k := p.tasks[i], ShardOf(p, p.tasks[i]);
    forall tag: nat ensures PlacesOf(p', tag) == if tag < p'.unused then 1 else 0 {
      ActKeepsIdentity(tag, t, k, p.shards[k], p.max, p.unused, kept);
      AdvanceTotal(Places(tag), p, i, kept);
      assert PlacesOf(p, tag) == if tag < p.unused then 1 else 0;
    }
  }

  lemma AdvanceInvariant(p: Pool, i: nat, kept: nat)
    requires Invariant(p) && Enabled(p, Step(i, kept))
    ensures Invariant(Advance(p, i, kept))
  {
    AdvanceCounted(p, i, kept);
    AdvanceGauged(p, i, kept);
    AdvanceDistinct(p, i, kept);
    var k := ShardOf(p, p.tasks[i]);
    ActClean(p.tasks[i], k, p.shards[k], p.max, p.unused, kept);
  }

  predicate IsStart(a: Action) { a.StartGet? || a.StartEmpty? || a.StartOwned? }

  predicate IsOwners(a: Action) { a.Use? || a.StartDrop? || a.IntoInner? }

  /** The task a call begins with. */
  function NewTask(p: Pool, a: Action): Task
    requires Shaped(p) && IsStart(a)
  {
    match a
    case StartEmpty => Arriving(Draw(p.next, |p.shards|), Buffer(p.unused, [], 0))
    case StartOwned(tag, data, cap) => Arriving(Draw(p.next, |p.shards|), Buffer(tag, data, cap))
    case _ => Getting
  }

  /** Beginning a call adds a task and touches neither shards, gauges nor discards. */
  predicate Begins(p: Pool, p': Pool, t: Task)
  {
    && p'.tasks == p.tasks + [t] && p'.shards == p.shards && p'.discarded == p.discarded && p'.max == p.max
    && p'.idleCount == p.idleCount && p'.idleBytes == p.idleBytes && p'.active == p.active
  }

  lemma StartBegins(p: Pool, a: Action)
    requires Shaped(p) && Enabled(p, a) && IsStart(a)
    ensures Begins(p, Apply(p, a), NewTask(p, a))
  {
  }

  /** A task before its value is live weighs nothing but the place of the value. */
  predicate Light(t: Task) { t.Getting? || t.Arriving? }

  lemma BeginsCounted(p: Pool, p': Pool, t: Task)
    requires Counted(p) && Begins(p, p', t) && Light(t)
    ensures Counted(p')
  {
    forall k | 0 <= k < |p'.shards| ensures CountedAt(p', k) && CappedAt(p', k) {
      assert CountedAt(p, k) && CappedAt(p, k);
      InFlightAdd(Slots(k), p.tasks, t);
      InFlightAdd(Room(k), p.tasks, t);
    }
  }

  lemma BeginsGauged(p: Pool, p': Pool, t: Task)
    requires Gauged(p) && Begins(p, p', t) && Light(t)
    ensures Gauged(p')
  {
    InFlightAdd(IdleCount, p.tasks, t);
    InFlightAdd(IdleBytes, p.tasks, t);
    InFlightAdd(ActiveCount, p.tasks, t);
  }

  lemma BeginsPlaces(p: Pool, p': Pool, t: Task, tag: nat)
    requires Begins(p, p', t)
    ensures PlacesOf(p', tag) == PlacesOf(p, tag) + TaskWeight(Places(tag), t) + p'.taken[tag] - p.taken[tag]
  {
    InFlightAdd(Places(tag), p.tasks, t);
  }

  /** How a beginning call changes what was taken out and which identities are used. */
  lemma StartTags(p: Pool, a: Action, tag: nat)
    requires Shaped(p) && Enabled(p, a) && IsStart(a)
    requires forall x: nat :: p.taken[x] > 0 ==> x < p.unused
    ensures var p' := Apply(p, a);
      (if tag < p'.unused then 1 else 0)
      == (if tag < p.unused then 1 else 0) + TaskWeight(Places(tag), NewTask(p, a)) + p'.taken[tag] - p.taken[tag]
  {
  }

  lemma TakenAreUsed(p: Pool)
    requires Distinct(p)
    ensures forall x: nat :: p.taken[x] > 0 ==> x < p.unused
  {
    forall x: nat | p.taken[x] > 0 ensures x < p.unused {
      assert PlacesOf(p, x) == if x < p.unused then 1 else 0;
    }
  }

  lemma StartDistinct(p: Pool, a: Action)
    requires Shaped(p) && Distinct(p) && Enabled(p, a) && IsStart(a)
    ensures Distinct(Apply(p, a))
  {
    var p' := Apply(p, a);
    StartBegins(p, a);
    TakenAreUsed(p);
    forall tag: nat ensures PlacesOf(p', tag) == if tag < p'.unused then 1 else 0 {
      assert PlacesOf(p, tag) == if tag < p.unused then 1 else 0;
      BeginsPlaces(p, p', NewTask(p, a), tag);
      StartTags(p, a, tag);
    }
  }

  lemma StartCleaned(p: Pool, a: Action)
    requires Shaped(p) && Cleaned(p) && Enabled(p, a) && IsStart(a)
    ensures Cleaned(Apply(p, a))
  {
    StartBegins(p, a);
  }

  /** A new task that holds no slot changes nothing but the identity count. */
  lemma StartInvariant(p: Pool, a: Action)
    requires Invariant(p) && Enabled(p, a) && IsStart(a)
    ensures Invariant(Apply(p, a))
  {
    var p', t := Apply(p, a), NewTask(p, a);
    StartBegins(p, a);
    BeginsCounted(p, p', t);
    BeginsGauged(p, p', t);
    StartDistinct(p, a);
    StartCleaned(p, a);
  }

  lemma OwnerCounted(p: Pool, a: Action)
    requires Shaped(p) && Counted(p) && Enabled(p, a) && IsOwners(a)
    ensures Counted(Apply(p, a))
  {
    var p' := Apply(p, a);
    forall k | 0 <= k < |p'.shards| ensures CountedAt(p', k) && CappedAt(p', k) {
      assert CountedAt(p, k) && CappedAt(p, k);
      InFlightUpdate(Slots(k), p.tasks, a.task, p'.tasks[a.task]);
      InFlightUpdate(Room(k), p.tasks, a.task, p'.tasks[a.task]);
    }
  }

  lemma OwnerGauged(p: Pool, a: Action)
    requires Shaped(p) && Gauged(p) && Enabled(p, a) && IsOwners(a)
    ensures Gauged(Apply(p, a))
  {
    var t := Apply(p, a).tasks[a.task];
    InFlightUpdate(IdleCount, p.tasks, a.task, t);
    InFlightUpdate(IdleBytes, p.tasks, a.task, t);
    InFlightUpdate(ActiveCount, p.tasks, a.task, t);
  }

  lemma OwnerDistinct(p: Pool, a: Action)
    requires Shaped(p) && Distinct(p) && Enabled(p, a) && IsOwners(a)
    ensures Distinct(Apply(p, a))
  {
    var p' := Apply(p, a);
    forall tag: nat ensures PlacesOf(p', tag) == if tag < p'.unused then 1 else 0 {
      assert PlacesOf(p, tag) == if tag < p.unused then 1 else 0;
      InFlightUpdate(Places(tag), p.tasks, a.task, p'.tasks[a.task]);
    }
  }

  /** Using, dropping or emptying a live value. */
  lemma OwnerInvariant(p: Pool, a: Action)
    requires Invariant(p) && Enabled(p, a) && IsOwners(a)
    ensures Invariant(Apply(p, a))
  {
    OwnerCounted(p, a);
    OwnerGauged(p, a);
    OwnerDistinct(p, a);
  }

  /** Every interleaving of any number of tasks keeps the invariant. */
  lemma {:induction false} RunInvariant(p: Pool, actions: seq<Action>)
    requires Invariant(p) && Runs(p, actions)
    ensures Invariant(After(p, actions))
    ensures After(p, actions).max == p.max && |After(p, actions).shards| == |p.shards|
    decreases |actions|
  {
    if actions != [] {
      var a := actions[0];
      if a.Step? {
        AdvanceInvariant(p, a.task, a.kept);
      } else if IsOwners(a) {
        OwnerInvariant(p, a);
      } else {
        StartInvariant(p, a);
      }
      RunInvariant(Apply(p, a), actions[1..]);
    }
  }

  // ---------------------------------------------------------------- what callers can rely on

  /** The invariant, and the parameters of the pool, in every reachable state. */
  lemma Reached(shards: nat, limit: nat, trim: nat, actions: seq<Action>)
    requires shards > 0 && Runs(NewPool(shards, limit, trim), actions)
    ensures var p := After(NewPool(shards, limit, trim), actions);
      Invariant(p) && p.max == limit / shards && |p.shards| == shards
  {
    NewPoolInvariant(shards, limit, trim);
    RunInvariant(NewPool(shards, limit, trim), actions);
  }

  /** `n` shares of `max` each, counted one by one. */
  function Shares(n: nat, max: nat): nat
  {
    if n == 0 then 0 else Shares(n - 1, max) + max
  }

  lemma {:induction false} SharesAre(n: nat, max: nat)
    ensures Shares(n, max) == n * max
  {
    if n > 0 {
      SharesAre(n - 1, max);
    }
  }

  lemma EvenShares(n: nat, limit: nat)
    requires n > 0
    ensures Shares(n, limit / n) <= limit
  {
    SharesAre(n, limit / n);
    assert n * (limit / n) <= limit;
  }

  lemma {:induction false} QueuedBound(shards: seq<Shard>, max: nat)
    requires forall k :: 0 <= k < |shards| ==> |shards[k].queue| <= max
    ensures Queued(IdleCount, shards) <= Shares(|shards|, max)
  {
    if shards != [] {
      QueuedBound(shards[..|shards| - 1], max);
      QueueLength(shards[|shards| - 1].queue);
    }
  }

  lemma ShardBound(p: Pool, k: nat)
    requires Counted(p) && k < |p.shards|
    ensures |p.shards[k].queue| + InFlight(Room(k), p.tasks) <= p.max && p.shards[k].cnt >= 0
  {
    assert CountedAt(p, k) && CappedAt(p, k);
  }

  /**
    The capacity bound, in every reachable state and not only at rest: no shard ever holds or has
    promised more than its share, `elem_cnt` never goes below zero, and the pool as a whole never
    holds more than `limit` idle values.
   */
  lemma CapacityBound(shards: nat, limit: nat, trim: nat, actions: seq<Action>)
    requires shards > 0 && Runs(NewPool(shards, limit, trim), actions)
    ensures var p := After(NewPool(shards, limit, trim), actions);
      && (forall k :: 0 <= k < |p.shards| ==>
            |p.shards[k].queue| + InFlight(Room(k), p.tasks) <= limit / shards && p.shards[k].cnt >= 0)
      && Queued(IdleCount, p.shards) <= limit
  {
    Reached(shards, limit, trim, actions);
    var p := After(NewPool(shards, limit, trim), actions);
    forall k | 0 <= k < |p.shards|
      ensures |p.shards[k].queue| + InFlight(Room(k), p.tasks) <= limit / shards && p.shards[k].cnt >= 0
    {
      ShardBound(p, k);
    }
    QueuedBound(p.shards, limit / shards);
    EvenShares(shards, limit);
  }

  /** No call is in progress: every task is either finished or a live value in its owner's hands. */
  predicate Quiet(p: Pool)
  {
    forall i :: 0 <= i < |p.tasks| ==> p.tasks[i].Live? || p.tasks[i].Finished?
  }

  lemma {:induction false} QuietInFlight(g: Gauge, ts: seq<Task>)
    requires forall i :: 0 <= i < |ts| ==> ts[i].Live? || ts[i].Finished?
    requires !g.ActiveCount? && !g.Places?
    ensures InFlight(g, ts) == 0
  {
    if ts != [] {
      QuietInFlight(g, ts[..|ts| - 1]);
    }
  }

  /** At quiescence the counters and gauges are exact. */
  lemma ExactAtRest(shards: nat, limit: nat, trim: nat, actions: seq<Action>)
    requires shards > 0 && Runs(NewPool(shards, limit, trim), actions)
    requires Quiet(After(NewPool(shards, limit, trim), actions))
    ensures var p := After(NewPool(shards, limit, trim), actions);
      && (forall k :: 0 <= k < |p.shards| ==> p.shards[k].cnt == |p.shards[k].queue|)
      && p.idleCount == Queued(IdleCount, p.shards)
      && p.idleBytes == Queued(IdleBytes, p.shards)
      && p.active == InFlight(ActiveCount, p.tasks)
  {
    Reached(shards, limit, trim, actions);
    var p := After(NewPool(shards, limit, trim), actions);
    forall k | 0 <= k < |p.shards| ensures p.shards[k].cnt == |p.shards[k].queue| {
      assert CountedAt(p, k);
      QuietInFlight(Slots(k), p.tasks);
    }
    QuietInFlight(IdleCount, p.tasks);
    QuietInFlight(IdleBytes, p.tasks);
  }

  lemma {:induction false} HeldHere(g: Gauge, ts: seq<Task>, i: nat)
    requires i < |ts|
    ensures TaskWeight(g, ts[i]) <= InFlight(g, ts)
  {
    if i < |ts| - 1 {
      HeldHere(g, ts[..|ts| - 1], i);
    }
  }

  lemma {:induction false} QueuedHere(g: Gauge, q: seq<Buffer>, j: nat)
    requires j < |q|
    ensures BufferWeight(g, q[j]) <= QueueWeight(g, q)
  {
    if j > 0 {
      QueuedHere(g, q[1..], j - 1);
    }
  }

  lemma {:induction false} ShardHere(g: Gauge, shards: seq<Shard>, k: nat)
    requires k < |shards|
    ensures QueueWeight(g, shards[k].queue) <= Queued(g, shards)
  {
    if k < |shards| - 1 {
      ShardHere(g, shards[..|shards| - 1], k);
    }
  }

  /**
    In every reachable state a queued value is empty, keeps some capacity, is not in the hands of
    any owner, was not discarded and is not one `into_inner` handed out; the gauges stay above zero.
   */
  lemma QueuedValuesAreFree(shards: nat, limit: nat, trim: nat, actions: seq<Action>, k: nat, j: nat)
    requires shards > 0 && Runs(NewPool(shards, limit, trim), actions)
    requires var p := After(NewPool(shards, limit, trim), actions); k < |p.shards| && j < |p.shards[k].queue|
    ensures var p := After(NewPool(shards, limit, trim), actions); var b := p.shards[k].queue[j];
      && b.data == [] && b.cap > 0
      && b.tag !in p.taken && b.tag !in p.discarded
      && (forall i :: 0 <= i < |p.tasks| && p.tasks[i].Live? ==> p.tasks[i].buf.tag != b.tag)
      && p.idleCount >= 1 && p.idleBytes >= b.cap && p.active >= 0
  {
    Reached(shards, limit, trim, actions);
    var p := After(NewPool(shards, limit, trim), actions);
    var b := p.shards[k].queue[j];
    assert CleanShard(p.shards[k]);
    QueuedHere(IdleCount, p.shards[k].queue, j);
    ShardHere(IdleCount, p.shards, k);
    QueuedHere(IdleBytes, p.shards[k].queue, j);
    ShardHere(IdleBytes, p.shards, k);
    QueuedHere(Places(b.tag), p.shards[k].queue, j);
    ShardHere(Places(b.tag), p.shards, k);
    assert PlacesOf(p, b.tag) <= 1;
    forall i | 0 <= i < |p.tasks| && p.tasks[i].Live? ensures p.tasks[i].buf.tag != b.tag {
      HeldHere(Places(b.tag), p.tasks, i);
    }
  }

  /**
    The bound is not met by throwing values away: when no other call is in progress, a dropped
    value that keeps some capacity gets a slot exactly when its shard's queue is not full.
   */
  lemma KeptIffRoom(shards: nat, limit: nat, trim: nat, actions: seq<Action>, i: nat, kept: nat)
    requires shards > 0 && Runs(NewPool(shards, limit, trim), actions)
    requires var p := After(NewPool(shards, limit, trim), actions);
      && Enabled(p, Step(i, kept)) && p.tasks[i].Dropping? && kept > 0
      && Quiet(p.(tasks := p.tasks[i := Finished]))
    ensures var p := After(NewPool(shards, limit, trim), actions); var k := p.tasks[i].shard;
      Advance(p, i, kept).tasks[i].Reserved? <==> |p.shards[k].queue| < limit / shards
  {
    Reached(shards, limit, trim, actions);
    var p := After(NewPool(shards, limit, trim), actions);
    var k := p.tasks[i].shard;
    assert CountedAt(p, k);
    InFlightUpdate(Slots(k), p.tasks, i, Finished);
    QuietInFlight(Slots(k), p.tasks[i := Finished]);
  }
}
