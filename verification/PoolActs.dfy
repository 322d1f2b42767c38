/**
  What the calls of the pool do, beyond what they keep: a get reuses the value queued longest
  whenever there is one, a dropped value that finds room comes back, and shards take turns.
 */
module PoolActs {
  import opened Bytes
  import opened PoolProtocol

  // ---------------------------------------------------------------- single steps

  /**
    In every reachable state the pop of a get makes a new value exactly when its shard is empty;
    otherwise it takes the value queued longest, which is then out of the queue.
   */
  lemma ReusesIff(shards: nat, limit: nat, trim: nat, actions: seq<Action>, i: nat, kept: nat)
    requires shards > 0 && Runs(NewPool(shards, limit, trim), actions)
    requires var p := After(NewPool(shards, limit, trim), actions); i < |p.tasks| && p.tasks[i].Picked?
    ensures var p := After(NewPool(shards, limit, trim), actions); var k := p.tasks[i].shard;
      && k < |p.shards| && Enabled(p, Step(i, kept))
      && var p', q := Advance(p, i, kept), p.shards[k].queue;
      && (p'.unused == p.unused <==> q != [])
      && (q != [] ==> p'.tasks[i] == Popped(k, q[0]) && p'.shards[k].queue == q[1..])
      && (q == [] ==> p'.tasks[i] == Arriving(k, Buffer(p.unused, [], 0)) && p'.shards == p.shards)
  {
  }

  /** A value that is put back stands behind all that were queued before it. */
  lemma QueuesBehind(shards: nat, limit: nat, trim: nat, actions: seq<Action>, i: nat, kept: nat)
    requires shards > 0 && Runs(NewPool(shards, limit, trim), actions)
    requires var p := After(NewPool(shards, limit, trim), actions); i < |p.tasks| && p.tasks[i].Billed?
    ensures var p := After(NewPool(shards, limit, trim), actions); var k, b := p.tasks[i].shard, p.tasks[i].buf;
      && k < |p.shards| && Enabled(p, Step(i, kept))
      && Advance(p, i, kept).shards[k].queue == p.shards[k].queue + [b]
      && Advance(p, i, kept).tasks[i] == Finished
  {
  }

  // ---------------------------------------------------------------- shards take turns

  /** The action draws a shard: the first step of a get, or `from_owned`. */
  predicate Draws(p: Pool, a: Action)
    requires Enabled(p, a)
  {
    a.StartOwned? || (a.Step? && p.tasks[a.task].Getting?)
  }

  /** How often a run has drawn a shard. */
  function Drawn(p: Pool, actions: seq<Action>): nat
    requires Shaped(p) && Runs(p, actions)
    decreases |actions|
  {
    if actions == [] then 0
    else (if Draws(p, actions[0]) then 1 else 0) + Drawn(Apply(p, actions[0]), actions[1..])
  }

  /** The counter once `d` more shards have been drawn. */
  function Counter(n: nat, d: nat): nat { (n + d) % USIZE }

  lemma WrapsOn(n: nat, d: nat)
    ensures Counter((n + 1) % USIZE, d) == Counter(n, 1 + d)
  {
    var q := (n + 1) / USIZE;
    assert n + 1 == q * USIZE + (n + 1) % USIZE;
    var x := (n + 1) % USIZE + d;
    Remainder(x + q * USIZE, USIZE, q + x / USIZE, x % USIZE);
  }

  lemma CountsOn(n: nat, n': nat, draws: bool, d: nat)
    requires n' == if draws then (n + 1) % USIZE else n
    ensures Counter(n', d) == Counter(n, (if draws then 1 else 0) + d)
  {
    WrapsOn(n, d);
  }

  lemma NextIs(p: Pool, a: Action)
    requires Shaped(p) && Enabled(p, a)
    ensures var p' := Apply(p, a);
      p'.next == (if Draws(p, a) then (p.next + 1) % USIZE else p.next) && |p'.shards| == |p.shards|
  {
  }

  lemma StaysBelow(n: nat)
    requires n < USIZE
    ensures Counter(n, 0) == n
  {
  }

  lemma {:induction false} TurnsTaken(p: Pool, actions: seq<Action>)
    requires Shaped(p) && Runs(p, actions) && p.next < USIZE
    ensures After(p, actions).next == Counter(p.next, Drawn(p, actions))
    ensures |After(p, actions).shards| == |p.shards|
    decreases |actions|
  {
    if actions == [] {
      StaysBelow(p.next);
    } else {
      var p1 := Apply(p, actions[0]);
      NextIs(p, actions[0]);
      CountsOn(p.next, p1.next, Draws(p, actions[0]), Drawn(p1, actions[1..]));
      TurnsTaken(p1, actions[1..]);
    }
  }

  /**
    Shards are drawn round-robin: in every run the draw after `d` others, modulo the width of the
    counter, falls on shard `d` modulo the number of shards, for a get as for a value taken over;
    an empty value is assigned to the shard whose turn is next.
   */
  lemma RoundRobin(shards: nat, limit: nat, trim: nat, actions: seq<Action>, i: nat, kept: nat, b: Buffer)
    requires shards > 0 && Runs(NewPool(shards, limit, trim), actions)
    ensures var start := NewPool(shards, limit, trim); var p, k := After(start, actions), Turn(start, actions, shards);
      && (Enabled(p, Step(i, kept)) && p.tasks[i].Getting? ==> Advance(p, i, kept).tasks[i] == Picked(k))
      && (Enabled(p, StartOwned(b.tag, b.data, b.cap)) ==>
            Apply(p, StartOwned(b.tag, b.data, b.cap)).tasks == p.tasks + [Arriving(k, b)])
      && Apply(p, StartEmpty).tasks == p.tasks + [Arriving(k, Buffer(p.unused, [], 0))]
  {
    TurnsTaken(NewPool(shards, limit, trim), actions);
    DrawIs(After(NewPool(shards, limit, trim), actions).next, shards);
  }

  /** The shard whose turn it is after a run. */
  function Turn(start: Pool, actions: seq<Action>, shards: nat): nat
    requires Shaped(start) && Runs(start, actions) && shards > 0
  {
    Drawn(start, actions) % USIZE % shards
  }

  // ---------------------------------------------------------------- whole calls

  predicate RunsTo(p: Pool, actions: seq<Action>, p': Pool)
  {
    Shaped(p) && Runs(p, actions) && After(p, actions) == p'
  }

  lemma Then(p: Pool, a: Action, p1: Pool, rest: seq<Action>, p2: Pool)
    requires Shaped(p) && Enabled(p, a) && Apply(p, a) == p1 && RunsTo(p1, rest, p2)
    ensures RunsTo(p, [a] + rest, p2)
  {
    assert ([a] + rest)[1..] == rest;
  }

  /** A task takes `n` steps without interruption. */
  function Steps(i: nat, kept: nat, n: nat): seq<Action>
  {
    if n == 0 then [] else [Step(i, kept)] + Steps(i, kept, n - 1)
  }

  /** The pool with task `i`, shard `k` and the gauges as given. */
  function With(p: Pool, i: nat, k: nat, t: Task, sh: Shard, count: int, bytes: int, active: int): Pool
    requires i < |p.tasks| && k < |p.shards|
  {
    p.(tasks := p.tasks[i := t], shards := p.shards[k := sh],
       idleCount := p.idleCount + count, idleBytes := p.idleBytes + bytes, active := p.active + active)
  }

  predicate Plain(t: Task, k: nat)
  {
    HasShard(t) && t.shard == k && !t.Live? && !t.Dropping?
  }

  /** One uninterrupted step of a call. */
  lemma Steps1(p: Pool, i: nat, k: nat, t: Task, sh: Shard, count: int, bytes: int, active: int, kept: nat,
               e: Effect, n: nat, last: Pool)
    requires Shaped(p) && i < |p.tasks| && k < |p.shards| && Plain(t, k)
    requires e == Act(t, k, sh, p.max, p.unused, kept) && !e.makes && (HasShard(e.task) ==> e.task.shard == k)
    requires RunsTo(With(p, i, k, e.task, e.shard, count + e.count, bytes + e.bytes, active + e.active),
                    Steps(i, kept, n), last)
    ensures RunsTo(With(p, i, k, t, sh, count, bytes, active), Steps(i, kept, n + 1), last)
  {
    var now := With(p, i, k, t, sh, count, bytes, active);
    var next := With(p, i, k, e.task, e.shard, count + e.count, bytes + e.bytes, active + e.active);
    assert Shaped(now);
    assert now.tasks[i := e.task] == next.tasks && now.shards[k := e.shard] == next.shards;
    assert Advance(now, i, kept) == next;
    Then(now, Step(i, kept), next, Steps(i, kept, n), last);
  }

  lemma Done(p: Pool, i: nat, kept: nat)
    requires Shaped(p)
    ensures RunsTo(p, Steps(i, kept, 0), p)
  {
  }

  /** From the pop on: the value goes to its new owner, and count and gauges drop by it. */
  lemma PoppedArrives(p: Pool, i: nat, k: nat, b: Buffer, q: seq<Buffer>, cnt: int)
    requires Shaped(p) && i < |p.tasks| && k < |p.shards|
    ensures RunsTo(With(p, i, k, Picked(k), Shard([b] + q, cnt), 0, 0, 0), Steps(i, 0, 5),
                   With(p, i, k, Live(k, b), Shard(q, cnt - 1), -1, 0 - b.cap, 1))
  {
    var full, popped, less := Shard([b] + q, cnt), Shard(q, cnt), Shard(q, cnt - 1);
    var last := With(p, i, k, Live(k, b), less, -1, 0 - b.cap, 1);
    assert ([b] + q)[1..] == q;
    Done(last, i, 0);
    Steps1(p, i, k, Arriving(k, b), less, -1, 0 - b.cap, 0, 0, Effect(Live(k, b), less, 0, 0, 1, false), 0, last);
    Steps1(p, i, k, Unlisted(k, b), less, -1, 0, 0, 0, Effect(Arriving(k, b), less, 0, 0 - b.cap, 0, false), 1, last);
    Steps1(p, i, k, Uncounted(k, b), less, 0, 0, 0, 0, Effect(Unlisted(k, b), less, -1, 0, 0, false), 2, last);
    Steps1(p, i, k, Popped(k, b), popped, 0, 0, 0, 0, Effect(Uncounted(k, b), less, 0, 0, 0, false), 3, last);
    Steps1(p, i, k, Picked(k), full, 0, 0, 0, 0, Effect(Popped(k, b), popped, 0, 0, 0, false), 4, last);
  }

  /** A get from the shard whose turn it is, without interruption. */
  function Get(p: Pool, steps: nat): seq<Action>
  {
    [StartGet] + ([Step(|p.tasks|, 0)] + Steps(|p.tasks|, 0, steps))
  }

  lemma GetBegins(p: Pool, k: nat, next: nat, rest: seq<Action>, base: Pool, last: Pool)
    requires Shaped(p) && k == Draw(p.next, |p.shards|) && next == (p.next + 1) % USIZE
    requires base == p.(tasks := p.tasks + [Picked(k)], next := next) && RunsTo(base, rest, last)
    ensures RunsTo(p, [StartGet] + ([Step(|p.tasks|, 0)] + rest), last)
  {
    var getting := p.(tasks := p.tasks + [Getting]);
    assert getting.tasks[|p.tasks| := Picked(k)] == base.tasks && p.shards[k := p.shards[k]] == p.shards;
    assert Advance(getting, |p.tasks|, 0) == base;
    Then(getting, Step(|p.tasks|, 0), base, rest, last);
    Then(p, StartGet, getting, [Step(|p.tasks|, 0)] + rest, last);
  }

  /** The pool after a get from shard `k`, which is not empty. */
  function Reused(p: Pool, k: nat, next: nat): Pool
    requires k < |p.shards| && p.shards[k].queue != []
  {
    var sh := p.shards[k];
    var b := sh.queue[0];
    p.(tasks := p.tasks + [Live(k, b)], next := next,
       shards := p.shards[k := Shard(sh.queue[1..], sh.cnt - 1)],
       idleCount := p.idleCount - 1, idleBytes := p.idleBytes - b.cap, active := p.active + 1)
  }

  lemma GetFrom(p: Pool, k: nat, next: nat)
    requires Shaped(p) && k == Draw(p.next, |p.shards|) && next == (p.next + 1) % USIZE && p.shards[k].queue != []
    ensures RunsTo(p, Get(p, 5), Reused(p, k, next))
  {
    var i, sh := |p.tasks|, p.shards[k];
    var b, q := sh.queue[0], sh.queue[1..];
    var base := p.(tasks := p.tasks + [Picked(k)], next := next);
    assert [b] + q == sh.queue;
    PoppedArrives(base, i, k, b, q, sh.cnt);
    assert With(base, i, k, Picked(k), Shard([b] + q, sh.cnt), 0, 0, 0) == base by {
      assert base.tasks[i := Picked(k)] == base.tasks && base.shards[k := sh] == base.shards;
    }
    var last := With(base, i, k, Live(k, b), Shard(q, sh.cnt - 1), -1, 0 - b.cap, 1);
    assert base.tasks[i := Live(k, b)] == p.tasks + [Live(k, b)];
    assert last == Reused(p, k, next);
    GetBegins(p, k, next, Steps(i, 0, 5), base, last);
  }

  /**
    A whole get from a shard that is not empty ends with the caller owning the value queued longest;
    the shard's count and the gauges drop by exactly that value, and nothing else changes.
   */
  lemma GetReuses(p: Pool)
    requires Shaped(p) && p.shards[p.next % |p.shards|].queue != []
    ensures var k := p.next % |p.shards|; var sh := p.shards[k]; var b := sh.queue[0];
      RunsTo(p, Get(p, 5),
             p.(tasks := p.tasks + [Live(k, b)], next := (p.next + 1) % USIZE,
                shards := p.shards[k := Shard(sh.queue[1..], sh.cnt - 1)],
                idleCount := p.idleCount - 1, idleBytes := p.idleBytes - b.cap, active := p.active + 1))
  {
    DrawIs(p.next, |p.shards|);
    GetFrom(p, p.next % |p.shards|, (p.next + 1) % USIZE);
  }

  /** A whole get from an empty shard makes a new, empty value, and the active gauge counts it. */
  lemma GetMakes(p: Pool)
    requires Shaped(p) && p.shards[p.next % |p.shards|].queue == []
    ensures var k := p.next % |p.shards|;
      RunsTo(p, Get(p, 2),
             p.(tasks := p.tasks + [Live(k, Buffer(p.unused, [], 0))], next := (p.next + 1) % USIZE,
                unused := p.unused + 1, active := p.active + 1))
  {
    DrawIs(p.next, |p.shards|);
    MakeIn(p, p.next % |p.shards|, (p.next + 1) % USIZE);
  }

  lemma MakeIn(p: Pool, k: nat, next: nat)
    requires Shaped(p) && k == Draw(p.next, |p.shards|) && next == (p.next + 1) % USIZE && p.shards[k].queue == []
    ensures RunsTo(p, Get(p, 2),
                   p.(tasks := p.tasks + [Live(k, Buffer(p.unused, [], 0))], next := next,
                      unused := p.unused + 1, active := p.active + 1))
  {
    var i, sh, b := |p.tasks|, p.shards[k], Buffer(p.unused, [], 0);
    var base := p.(tasks := p.tasks + [Picked(k)], next := next);
    var made := base.(tasks := p.tasks + [Arriving(k, b)], unused := p.unused + 1);
    var last := With(made, i, k, Live(k, b), sh, 0, 0, 1);
    assert base.tasks[i := Arriving(k, b)] == made.tasks && p.shards[k := sh] == p.shards;
    assert Advance(base, i, 0) == made;
    assert With(made, i, k, Arriving(k, b), sh, 0, 0, 0) == made by {
      assert made.tasks[i := Arriving(k, b)] == made.tasks;
    }
    Done(last, i, 0);
    Steps1(made, i, k, Arriving(k, b), sh, 0, 0, 0, 0, Effect(Live(k, b), sh, 0, 0, 1, false), 0, last);
    Then(base, Step(i, 0), made, Steps(i, 0, 1), last);
    assert made.tasks[i := Live(k, b)] == p.tasks + [Live(k, b)];
    GetBegins(p, k, next, Steps(i, 0, 2), base, last);
  }

  /** A live value is dropped, without interruption, and `reuse` leaves it the capacity `kept`. */
  function Drop(i: nat, kept: nat, steps: nat): seq<Action>
  {
    [StartDrop(i)] + ([Step(i, kept)] + Steps(i, kept, steps))
  }

  lemma DropBegins(p: Pool, i: nat, kept: nat, rest: seq<Action>, base: Pool, last: Pool)
    requires Shaped(p) && i < |p.tasks| && p.tasks[i].Live? && Shrunk(p.tasks[i].buf.cap, p.trim, kept)
    requires var t := Dropping(p.tasks[i].shard, p.tasks[i].buf);
      var dropping := p.(tasks := p.tasks[i := t], active := p.active - 1);
      Shaped(dropping) && Enabled(dropping, Step(i, kept)) && Advance(dropping, i, kept) == base
    requires RunsTo(base, rest, last)
    ensures RunsTo(p, [StartDrop(i)] + ([Step(i, kept)] + rest), last)
  {
    var t := Dropping(p.tasks[i].shard, p.tasks[i].buf);
    var dropping := p.(tasks := p.tasks[i := t], active := p.active - 1);
    Then(dropping, Step(i, kept), base, rest, last);
    Then(p, StartDrop(i), dropping, [Step(i, kept)] + rest, last);
  }

  /**
    A whole drop of a value that keeps capacity, with the shard below its share, puts it, cleared,
    behind all that are queued; count and gauges grow by exactly that value.
   */
  lemma DropKeeps(p: Pool, i: nat, kept: nat)
    requires Shaped(p) && i < |p.tasks| && p.tasks[i].Live? && Shrunk(p.tasks[i].buf.cap, p.trim, kept) && kept > 0
    requires p.shards[p.tasks[i].shard].cnt < p.max
    ensures var k, b := p.tasks[i].shard, Buffer(p.tasks[i].buf.tag, [], kept); var sh := p.shards[k];
      RunsTo(p, Drop(i, kept, 3),
             p.(tasks := p.tasks[i := Finished], shards := p.shards[k := Shard(sh.queue + [b], sh.cnt + 1)],
                idleCount := p.idleCount + 1, idleBytes := p.idleBytes + kept, active := p.active - 1))
  {
    var k, b := p.tasks[i].shard, Buffer(p.tasks[i].buf.tag, [], kept);
    var sh := p.shards[k];
    var more, full := sh.(cnt := sh.cnt + 1), Shard(sh.queue + [b], sh.cnt + 1);
    var base := With(p, i, k, Reserved(k, b), more, 0, 0, -1);
    var last := With(p, i, k, Finished, full, 1, kept, -1);
    ReservedQueues(p, i, k, b, more, full, last);
    DropStep(p, i, kept, base.tasks[i], more);
    DropBegins(p, i, kept, Steps(i, kept, 3), base, last);
  }

  /** From the slot on: the value is counted, billed and queued. */
  lemma ReservedQueues(p: Pool, i: nat, k: nat, b: Buffer, more: Shard, full: Shard, last: Pool)
    requires Shaped(p) && i < |p.tasks| && k < |p.shards| && full == more.(queue := more.queue + [b])
    requires last == With(p, i, k, Finished, full, 1, b.cap, -1)
    ensures RunsTo(With(p, i, k, Reserved(k, b), more, 0, 0, -1), Steps(i, b.cap, 3), last)
  {
    Done(last, i, b.cap);
    Steps1(p, i, k, Billed(k, b), more, 1, b.cap, -1, b.cap, Effect(Finished, full, 0, 0, 0, false), 0, last);
    Steps1(p, i, k, Listed(k, b), more, 1, 0, -1, b.cap, Effect(Billed(k, b), more, 0, b.cap, 0, false), 1, last);
    Steps1(p, i, k, Reserved(k, b), more, 0, 0, -1, b.cap, Effect(Listed(k, b), more, 1, 0, 0, false), 2, last);
  }

  /** The step in which a dropped value is cleared and asks for a slot. */
  lemma DropStep(p: Pool, i: nat, kept: nat, t: Task, sh: Shard)
    requires Shaped(p) && i < |p.tasks| && p.tasks[i].Live? && Shrunk(p.tasks[i].buf.cap, p.trim, kept)
    requires var k, b := p.tasks[i].shard, p.tasks[i].buf;
      var e := Act(Dropping(k, b), k, p.shards[k], p.max, p.unused, kept);
      t == e.task && sh == e.shard
    ensures var k, b := p.tasks[i].shard, p.tasks[i].buf;
      var dropping := p.(tasks := p.tasks[i := Dropping(k, b)], active := p.active - 1);
      && Shaped(dropping) && Enabled(dropping, Step(i, kept))
      && Advance(dropping, i, kept) == With(p, i, k, t, sh, 0, 0, -1)
           .(discarded := p.discarded + if t.Reserved? then multiset{} else multiset{b.tag})
  {
    var k, b := p.tasks[i].shard, p.tasks[i].buf;
    var dropping := p.(tasks := p.tasks[i := Dropping(k, b)], active := p.active - 1);
    assert dropping.tasks[i := t] == p.tasks[i := t];
  }

  /** A whole drop that leaves no capacity, or finds the shard at its share, discards the value and no more. */
  lemma DropDiscards(p: Pool, i: nat, kept: nat)
    requires Shaped(p) && i < |p.tasks| && p.tasks[i].Live? && Shrunk(p.tasks[i].buf.cap, p.trim, kept)
    requires kept == 0 || p.shards[p.tasks[i].shard].cnt >= p.max
    ensures RunsTo(p, Drop(i, kept, if kept == 0 then 0 else 1),
                   p.(tasks := p.tasks[i := Finished], active := p.active - 1,
                      discarded := p.discarded + multiset{p.tasks[i].buf.tag}))
  {
    var k, b := p.tasks[i].shard, p.tasks[i].buf;
    var sh := p.shards[k];
    var gone := p.(discarded := p.discarded + multiset{b.tag});
    var last := With(gone, i, k, Finished, sh, 0, 0, -1);
    assert p.shards[k := sh] == p.shards;
    Done(last, i, kept);
    if kept == 0 {
      DropStep(p, i, kept, Finished, sh);
      DropBegins(p, i, kept, Steps(i, kept, 0), last, last);
    } else {
      var more := sh.(cnt := sh.cnt + 1);
      Steps1(gone, i, k, Refused(k), more, 0, 0, -1, kept, Effect(Finished, sh, 0, 0, 0, false), 0, last);
      DropStep(p, i, kept, Refused(k), more);
      DropBegins(p, i, kept, Steps(i, kept, 1), With(gone, i, k, Refused(k), more, 0, 0, -1), last);
    }
  }

  /**
    A dropped value comes back: put into an empty shard that has room and whose turn is next, it is
    the value the next get hands out, cleared and with the capacity it kept.
   */
  lemma ComesBack(p: Pool, i: nat, kept: nat)
    requires Shaped(p) && i < |p.tasks| && p.tasks[i].Live? && Shrunk(p.tasks[i].buf.cap, p.trim, kept) && kept > 0
    requires var k := p.tasks[i].shard; k == p.next % |p.shards| && p.shards[k].queue == [] && p.shards[k].cnt < p.max
    ensures Runs(p, Drop(i, kept, 3))
    ensures var p1 := After(p, Drop(i, kept, 3)); var k, b := p.tasks[i].shard, Buffer(p.tasks[i].buf.tag, [], kept);
      && Runs(p1, Get(p1, 5))
      && var p2 := After(p1, Get(p1, 5));
      && p2.tasks == p.tasks[i := Finished] + [Live(k, b)] && p2.shards == p.shards
      && p2.idleCount == p.idleCount && p2.idleBytes == p.idleBytes && p2.active == p.active && p2.unused == p.unused
  {
    DropKeeps(p, i, kept);
    DrawIs(p.next, |p.shards|);
    var k, b := p.tasks[i].shard, Buffer(p.tasks[i].buf.tag, [], kept);
    assert p.shards[k].queue + [b] == [b];
    BackAgain(p, i, k, b, After(p, Drop(i, kept, 3)), (p.next + 1) % USIZE);
  }

  /** The get after such a drop. */
  lemma BackAgain(p: Pool, i: nat, k: nat, b: Buffer, p1: Pool, next: nat)
    requires Shaped(p) && i < |p.tasks| && k == Draw(p.next, |p.shards|) && next == (p.next + 1) % USIZE
    requires p.shards[k].queue == []
    requires p1 == p.(tasks := p.tasks[i := Finished], shards := p.shards[k := Shard([b], p.shards[k].cnt + 1)],
                      idleCount := p.idleCount + 1, idleBytes := p.idleBytes + b.cap, active := p.active - 1)
    ensures RunsTo(p1, Get(p1, 5), p.(tasks := p.tasks[i := Finished] + [Live(k, b)], next := next))
  {
    assert [b][1..] == [];
    GetFrom(p1, k, next);
    Restored(p.shards, k, Shard([b], p.shards[k].cnt + 1));
  }

  lemma Restored(shards: seq<Shard>, k: nat, sh: Shard)
    requires k < |shards|
    ensures shards[k := sh][k := shards[k]] == shards
  {
  }
}
