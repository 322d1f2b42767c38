/**
  The reconnect loop of warp-in-warp: two edges per session, the inner tunnel running through the
  outer. A pair that died is never replayed, and parked edges rest unless nothing else can be found.
 */
module GoolSupervisor {
  import opened Bytes
  import opened Candidates
  import WireguardSupervisor

  // ---------------------------------------------------------------- how a session ends

  datatype Error = Migrate | PortBusy | Other
  datatype Res = Ok | Err(error: Error)

  /** What awaiting a task yields. */
  datatype Joined = Returned(res: Res) | Cancelled | Panicked

  /** `join_outcome`. */
  function JoinOutcome(j: Joined): Res
  {
    match j
    case Returned(Ok) => Err(Other)
    case Returned(Err(e)) => Err(e)
    case Cancelled => Err(Other)
    case Panicked => Err(Other)
  }

  /** Which branch of the final select wins. */
  datatype Exit = OuterExits(j: Joined) | InnerExits(j: Joined) | SocksExits(j: Joined) | MigrateHint

  /** What one attempt meets: the errors of the three set-up stages, if any, and the exit. */
  datatype Attempt = Attempt(outer: Option<Error>, forwarder: Option<Error>, inner: Option<Error>, exit: Exit)

  /** `run_warp_in_warp`. */
  function WarpInWarp(peer: Endpoint, inner: Endpoint, a: Attempt): Res
  {
    if inner.ip == peer.ip then Err(Other)
    else if a.outer.Some? then Err(a.outer.value)
    else if a.forwarder.Some? then Err(a.forwarder.value)
    else if a.inner.Some? then Err(a.inner.value)
    else
      match a.exit
      case OuterExits(j) => JoinOutcome(j)
      case InnerExits(j) => JoinOutcome(j)
      case SocksExits(j) => JoinOutcome(j)
      case MigrateHint => Err(Migrate)
  }

  /** A session only ever ends with an error, even when every task stopped cleanly. */
  lemma NeverOk(peer: Endpoint, inner: Endpoint, a: Attempt)
    ensures WarpInWarp(peer, inner, a).Err?
  {
  }

  // ---------------------------------------------------------------- the loop

  datatype Vars = Vars(
    lastPeer: Option<Endpoint>,
    lastInner: Option<Endpoint>,
    cached: Option<(Endpoint, Endpoint)>,
    fails: nat,
    cooldowns: map<Endpoint, int>)

  /**
    What one turn meets: times, the scan, the scan without exclusions, the session, and how long
    after its end each edge is to rest; the cooldown is read anew for each park.
   */
  datatype Round = Round(now: int, scan: Scan, rescan: Scan, start: int, end: int, attempt: Attempt,
                         peerRest: nat, innerRest: nat)

  datatype Note =
    | Rests(edge: Endpoint, until: int)
    | Dialled(peer: Endpoint, inner: Endpoint, start: int, fallback: bool)

  datatype Status = Running | Exited

  /** How a pair was come by. */
  datatype Choice =
    | Nothing
    | Lone(peer: Endpoint)
    | Pair(peer: Endpoint, inner: Endpoint, fallback: bool)

  function FromScan(found: seq<Endpoint>, fallback: bool): Choice
  {
    if found == [] then Nothing
    else if |found| == 1 then Lone(found[0])
    else Pair(found[0], found[1], fallback)
  }

  /** The scan of a turn; when the parked edges leave nothing to find, once more without them. */
  function Scanned(v: Vars, r: Round): Choice
  {
    var found := Hunt(r.scan, 2, v.cooldowns.Keys);
    if found == [] && v.cooldowns != map[] then FromScan(Hunt(r.rescan, 2, {}), true)
    else FromScan(found, false)
  }

  /** The pair remembered in memory, then the one cached on disk, then a scan. */
  function Choose(v: Vars, r: Round): Choice
  {
    if v.fails < WireguardSupervisor.MAX_CONSECUTIVE_FAILS && v.lastPeer.Some? then
      if v.lastInner.Some? then Pair(v.lastPeer.value, v.lastInner.value, false) else Lone(v.lastPeer.value)
    else if v.cached.Some? then Pair(v.cached.value.0, v.cached.value.1, false)
    else Scanned(v, r)
  }

  /** The variables once a pair was chosen: the cache is spent, a fresh pair starts a fresh count. */
  function Chosen(v: Vars, c: Choice): Vars
  {
    if v.fails < WireguardSupervisor.MAX_CONSECUTIVE_FAILS && v.lastPeer.Some? then v
    else if v.cached.Some? then v.(cached := None, fails := 0)
    else if c == Nothing then v
    else v.(fails := 0)
  }

  /** The session over a pair, and what its end does to the variables. */
  function Dial(v: Vars, peer: Endpoint, inner: Endpoint, fallback: bool, outcome: Res, r: Round)
    : (Vars, seq<Note>, Status)
  {
    var v2 := v.(lastPeer := Some(peer), lastInner := Some(inner));
    var dialled := Dialled(peer, inner, r.start, fallback);
    match outcome
    case Ok => (v2.(fails := v2.fails + 1), [dialled], Running)
    case Err(PortBusy) => (v2, [dialled], Exited)
    case Err(_) =>
      var peerUntil, innerUntil := r.end + r.peerRest, r.end + r.innerRest;
      (v2.(lastPeer := None, lastInner := None, cached := None, fails := 0,
           cooldowns := v2.cooldowns[peer := peerUntil][inner := innerUntil]),
       [dialled, Rests(peer, peerUntil), Rests(inner, innerUntil)], Running)
  }

  function Step(v0: Vars, r: Round): (Vars, seq<Note>, Status)
  {
    var v := v0.(cooldowns := WireguardSupervisor.Prune(v0.cooldowns, r.now));
    var c := Choose(v, r);
    var v1 := Chosen(v, c);
    match c
    case Nothing => (v1, [], Running)
    case Lone(_) => (v1.(lastPeer := None, lastInner := None), [], Running)
    case Pair(peer, inner, fallback) =>
      Dial(v1, peer, inner, fallback, WarpInWarp(peer, inner, r.attempt), r)
  }

  function Begin(cached: Option<(Endpoint, Endpoint)>): Vars
  {
    Vars(None, None, cached, 0, map[])
  }

  /** A run of turns, up to an exit. */
  function Run(v: Vars, rounds: seq<Round>): (Vars, seq<Note>, Status)
    decreases |rounds|
  {
    if rounds == [] then (v, [], Running)
    else
      var (v1, log, status) := Run(v, rounds[..|rounds| - 1]);
      if status == Exited then (v1, log, status)
      else
        var (v2, notes, status2) := Step(v1, rounds[|rounds| - 1]);
        (v2, log + notes, status2)
  }

  class GoolLoop {
    var lastPeer: Option<Endpoint>
    var lastInner: Option<Endpoint>
    var cached: Option<(Endpoint, Endpoint)>
    var fails: nat
    var cooldowns: map<Endpoint, int>

    function State(): Vars
      reads this
    {
      Vars(lastPeer, lastInner, cached, fails, cooldowns)
    }

    constructor (cached: Option<(Endpoint, Endpoint)>)
      ensures State() == Begin(cached)
    {
      lastPeer, lastInner, this.cached, fails, cooldowns := None, None, cached, 0, map[];
    }

    /** The scan arm of the loop. */
    method ScanPair(r: Round) returns (c: Choice)
      ensures c == Scanned(State(), r)
    {
      var excluded := cooldowns.Keys;
      var found := Hunt(r.scan, 2, excluded);
      var fallback := false;
      if found == [] && excluded != {} {
        found := Hunt(r.rescan, 2, {});
        fallback := true;
      }
      if found == [] {
        return Nothing;
      }
      var inner := if |found| > 1 then Some(found[1]) else None;
      c := if inner.None? then Lone(found[0]) else Pair(found[0], inner.value, fallback);
    }

    method ChoosePair(r: Round) returns (c: Choice)
      modifies this`cached, this`fails
      ensures c == Choose(old(State()), r) && State() == Chosen(old(State()), c)
    {
      var peer := if fails < WireguardSupervisor.MAX_CONSECUTIVE_FAILS then lastPeer else None;
      if peer.Some? {
        c := if lastInner.Some? then Pair(peer.value, lastInner.value, false) else Lone(peer.value);
      } else if cached.Some? {
        c := Pair(cached.value.0, cached.value.1, false);
        cached := None;
        fails := 0;
      } else {
        c := ScanPair(r);
        if !c.Nothing? {
          fails := 0;
        }
      }
    }

    /** The rest of the turn, once the session over the pair has ended. */
    method EndSession(peer: Endpoint, inner: Endpoint, fallback: bool, outcome: Res, r: Round)
      returns (notes: seq<Note>, status: Status)
      modifies this
      ensures (State(), notes, status) == Dial(old(State()), peer, inner, fallback, outcome, r)
    {
      lastPeer, lastInner, status := Some(peer), Some(inner), Running;
      notes := [Dialled(peer, inner, r.start, fallback)];
      if outcome.Ok? {
        fails := fails + 1;
      } else if outcome.error == PortBusy {
        status := Exited;
      } else {
        var peerUntil, innerUntil := r.end + r.peerRest, r.end + r.innerRest;
        cooldowns := cooldowns[peer := peerUntil];
        cooldowns := cooldowns[inner := innerUntil];
        notes := [notes[0], Rests(peer, peerUntil), Rests(inner, innerUntil)];
        lastPeer, lastInner, cached, fails := None, None, None, 0;
      }
    }

    method OneTurn(r: Round) returns (notes: seq<Note>, status: Status)
      modifies this
      ensures (State(), notes, status) == Step(old(State()), r)
    {
      notes, status := [], Running;
      cooldowns := map e | e in cooldowns && cooldowns[e] > r.now :: cooldowns[e];
      assert cooldowns == WireguardSupervisor.Prune(old(cooldowns), r.now);
      var c := ChoosePair(r);
      match c
      case Nothing =>
      case Lone(_) =>
        lastPeer, lastInner := None, None;
      case Pair(peer, inner, fallback) =>
        notes, status := EndSession(peer, inner, fallback, WarpInWarp(peer, inner, r.attempt), r);
    }

    /** The loop, for as long as there are turns and the process lives. */
    method Supervise(rounds: seq<Round>) returns (log: seq<Note>, status: Status)
      modifies this
      ensures (State(), log, status) == Run(old(State()), rounds)
    {
      log, status := [], Running;
      for i := 0 to |rounds|
        invariant (State(), log, status) == Run(old(State()), rounds[..i])
      {
        assert rounds[..i + 1][..i] == rounds[..i];
        if status == Running {
          var notes;
          notes, status := OneTurn(rounds[i]);
          log := log + notes;
        }
      }
      assert rounds[..|rounds|] == rounds;
    }
  }

  // ---------------------------------------------------------------- what every turn keeps

  predicate Ordered(r: Round) { r.now <= r.start <= r.end }

  /** At the top of the loop no pair is remembered in memory. */
  predicate Forgotten(v: Vars)
  {
    v.lastPeer.None? && v.lastInner.None? && v.fails == 0
  }

  predicate Uses(d: Note, edge: Endpoint)
  {
    d.Dialled? && (d.peer == edge || d.inner == edge)
  }

  /** Until when the latest rest of the edge lasts, if it was ever put to rest. */
  function LastRest(log: seq<Note>, edge: Endpoint): Option<int>
  {
    if log == [] then None
    else
      var last := log[|log| - 1];
      if last.Rests? && last.edge == edge then Some(last.until) else LastRest(log[..|log| - 1], edge)
  }

  /** Both edges of the session had rested, or it is one of the fallback scan. */
  predicate DialOk(log: seq<Note>, d: Note)
  {
    d.Dialled? && !d.fallback ==> EdgeOk(log, d.peer, d.start) && EdgeOk(log, d.inner, d.start)
  }

  predicate EdgeOk(log: seq<Note>, edge: Endpoint, start: int)
  {
    LastRest(log, edge).Some? ==> LastRest(log, edge).value <= start
  }

  /** Outside the fallback scan, neither edge of a session was still resting when it was dialled. */
  predicate Rested(log: seq<Note>)
  {
    log == [] || (Rested(log[..|log| - 1]) && DialOk(log[..|log| - 1], log[|log| - 1]))
  }

  /** The latest rest of every edge has run out by `now`, or is the one in the map. */
  ghost predicate Resting(cooldowns: map<Endpoint, int>, log: seq<Note>, now: int)
  {
    forall e :: EdgeRests(cooldowns, log, now, e)
  }

  predicate EdgeRests(cooldowns: map<Endpoint, int>, log: seq<Note>, now: int, e: Endpoint)
  {
    LastRest(log, e).Some? && LastRest(log, e).value > now ==> e in cooldowns && cooldowns[e] == LastRest(log, e).value
  }

  ghost predicate Invariant(v: Vars, log: seq<Note>, now: int)
  {
    Forgotten(v) && (v.cached.Some? ==> v.cooldowns == map[]) && Resting(v.cooldowns, log, now) && Rested(log)
  }

  lemma LogSnoc(log: seq<Note>, x: Note)
    ensures Rested(log + [x]) <==> Rested(log) && DialOk(log, x)
    ensures forall e :: LastRest(log + [x], e) == if x.Rests? && x.edge == e then Some(x.until) else LastRest(log, e)
  {
    assert (log + [x])[..|log|] == log;
  }

  lemma ScannedIsFree(v: Vars, r: Round)
    ensures var c := Scanned(v, r);
      && (c.Pair? && !c.fallback ==> c.peer !in v.cooldowns && c.inner !in v.cooldowns)
      && (c.Pair? ==> c.peer.ip != c.inner.ip)
      && (c.Pair? && c.fallback ==> Hunt(r.scan, 2, v.cooldowns.Keys) == [] && v.cooldowns != map[])
  {
    var found := Hunt(r.scan, 2, v.cooldowns.Keys);
    if |found| >= 2 {
      HuntHonoursExclusions(r.scan, 2, v.cooldowns.Keys, found[0]);
      HuntHonoursExclusions(r.scan, 2, v.cooldowns.Keys, found[1]);
      HuntSeparatesEdges(r.scan, 2, v.cooldowns.Keys, 0, 1);
    }
    var again := Hunt(r.rescan, 2, {});
    if |again| >= 2 {
      HuntSeparatesEdges(r.rescan, 2, {}, 0, 1);
    }
  }

  lemma DialRested(cooldowns: map<Endpoint, int>, log: seq<Note>, now: int, d: Note)
    requires Resting(cooldowns, log, now) && Rested(log) && d.Dialled? && now <= d.start
    requires !d.fallback ==> d.peer !in cooldowns && d.inner !in cooldowns
    ensures Rested(log + [d]) && Resting(cooldowns, log + [d], now)
  {
    LogSnoc(log, d);
    assert EdgeRests(cooldowns, log, now, d.peer) && EdgeRests(cooldowns, log, now, d.inner);
    forall e ensures EdgeRests(cooldowns, log + [d], now, e) {
      assert EdgeRests(cooldowns, log, now, e);
    }
  }

  lemma RestSnoc(cooldowns: map<Endpoint, int>, log: seq<Note>, now: int, edge: Endpoint, until: int)
    requires Resting(cooldowns, log, now) && Rested(log)
    ensures Resting(cooldowns[edge := until], log + [Rests(edge, until)], now) && Rested(log + [Rests(edge, until)])
  {
    LogSnoc(log, Rests(edge, until));
    var cooldowns', log' := cooldowns[edge := until], log + [Rests(edge, until)];
    forall e ensures EdgeRests(cooldowns', log', now, e) {
      assert EdgeRests(cooldowns, log, now, e);
    }
  }

  /** After a session both edges rest, on top of whatever rested before. */
  lemma BothRest(cooldowns: map<Endpoint, int>, log: seq<Note>, d: Note, now: int, u: int, u': int)
    requires Resting(cooldowns, log + [d], now) && Rested(log + [d]) && d.Dialled?
    ensures var log' := log + [d, Rests(d.peer, u), Rests(d.inner, u')];
      Resting(cooldowns[d.peer := u][d.inner := u'], log', now) && Rested(log')
  {
    RestSnoc(cooldowns, log + [d], now, d.peer, u);
    RestSnoc(cooldowns[d.peer := u], log + [d] + [Rests(d.peer, u)], now, d.inner, u');
    assert log + [d] + [Rests(d.peer, u)] + [Rests(d.inner, u')] == log + [d, Rests(d.peer, u), Rests(d.inner, u')];
  }

  lemma ChosenIsFree(v: Vars, r: Round)
    requires Forgotten(v) && (v.cached.Some? ==> v.cooldowns == map[])
    ensures var c := Choose(v, r);
      && (c.Pair? && !c.fallback ==> c.peer !in v.cooldowns && c.inner !in v.cooldowns)
      && (c.Pair? && c.fallback ==> Hunt(r.scan, 2, v.cooldowns.Keys) == [] && v.cooldowns != map[])
  {
    ScannedIsFree(v, r);
  }

  function Pruned(v: Vars, now: int): Vars
  {
    v.(cooldowns := WireguardSupervisor.Prune(v.cooldowns, now))
  }

  lemma PruneKeeps(v: Vars, log: seq<Note>, before: int, now: int)
    requires Invariant(v, log, before) && before <= now
    ensures Invariant(Pruned(v, now), log, now)
  {
    forall e ensures EdgeRests(Pruned(v, now).cooldowns, log, now, e) {
      assert EdgeRests(v.cooldowns, log, before, e);
    }
  }

  /** A turn once its pair is known, if there is one. */
  function Turned(v1: Vars, c: Choice, r: Round): (Vars, seq<Note>, Status)
  {
    match c
    case Nothing => (v1, [], Running)
    case Lone(_) => (v1.(lastPeer := None, lastInner := None), [], Running)
    case Pair(peer, inner, fallback) =>
      Dial(v1, peer, inner, fallback, WarpInWarp(peer, inner, r.attempt), r)
  }

  lemma StepTurns(v0: Vars, r: Round)
    ensures var v := Pruned(v0, r.now); var c := Choose(v, r); Step(v0, r) == Turned(Chosen(v, c), c, r)
  {
  }

  lemma ChosenKeeps(v: Vars, c: Choice, r: Round)
    requires Forgotten(v) && c == Choose(v, r)
    ensures var v1 := Chosen(v, c);
      && Forgotten(v1) && v1.cooldowns == v.cooldowns && (!c.Pair? ==> v1.cached == v.cached)
  {
  }

  lemma TurnedCases(v1: Vars, c: Choice, r: Round)
    requires Forgotten(v1)
    ensures var (v', notes, status) := Turned(v1, c, r);
      if !c.Pair? then
        notes == [] && status == Running && Forgotten(v') && v'.cooldowns == v1.cooldowns && v'.cached == v1.cached
      else
        var d := Dialled(c.peer, c.inner, r.start, c.fallback);
        if status == Exited then notes == [d] && WarpInWarp(c.peer, c.inner, r.attempt) == Err(PortBusy)
        else
          var peerUntil, innerUntil := r.end + r.peerRest, r.end + r.innerRest;
          && notes == [d, Rests(c.peer, peerUntil), Rests(c.inner, innerUntil)]
          && v' == Vars(None, None, None, 0, v1.cooldowns[c.peer := peerUntil][c.inner := innerUntil])
  {
    if c.Pair? {
      NeverOk(c.peer, c.inner, r.attempt);
    }
  }

  /** With nothing remembered, a turn does one of three things. */
  lemma StepCases(v0: Vars, r: Round)
    requires Forgotten(v0)
    ensures var v := Pruned(v0, r.now); var c := Choose(v, r); var (v', notes, status) := Step(v0, r);
      if !c.Pair? then
        notes == [] && status == Running && Forgotten(v') && v'.cooldowns == v.cooldowns && v'.cached == v.cached
      else
        var d := Dialled(c.peer, c.inner, r.start, c.fallback);
        if status == Exited then notes == [d] && WarpInWarp(c.peer, c.inner, r.attempt) == Err(PortBusy)
        else
          var peerUntil, innerUntil := r.end + r.peerRest, r.end + r.innerRest;
          && notes == [d, Rests(c.peer, peerUntil), Rests(c.inner, innerUntil)]
          && v' == Vars(None, None, None, 0, v.cooldowns[c.peer := peerUntil][c.inner := innerUntil])
  {
    var v := Pruned(v0, r.now);
    var c := Choose(v, r);
    StepTurns(v0, r);
    ChosenKeeps(v, c, r);
    TurnedCases(Chosen(v, c), c, r);
  }

  lemma Later(cooldowns: map<Endpoint, int>, log: seq<Note>, now: int, end: int)
    requires Resting(cooldowns, log, now) && now <= end
    ensures Resting(cooldowns, log, end)
  {
    forall e ensures EdgeRests(cooldowns, log, end, e) {
      assert EdgeRests(cooldowns, log, now, e);
    }
  }

  /** A turn that dials a pair and puts both edges to rest. */
  lemma PairRests(cooldowns: map<Endpoint, int>, log: seq<Note>, r: Round, d: Note)
    requires Resting(cooldowns, log, r.now) && Rested(log) && Ordered(r) && d.Dialled? && d.start == r.start
    requires !d.fallback ==> d.peer !in cooldowns && d.inner !in cooldowns
    ensures Rested(log + [d])
    ensures var u, u' := r.end + r.peerRest, r.end + r.innerRest;
      var log' := log + [d, Rests(d.peer, u), Rests(d.inner, u')];
      Rested(log') && Resting(cooldowns[d.peer := u][d.inner := u'], log', r.end)
  {
    DialRested(cooldowns, log, r.now, d);
    Later(cooldowns, log + [d], r.now, r.end);
    BothRest(cooldowns, log, d, r.end, r.end + r.peerRest, r.end + r.innerRest);
  }

  lemma StepKeeps(v: Vars, r: Round, log: seq<Note>, before: int)
    requires Invariant(v, log, before) && before <= r.now && Ordered(r)
    ensures var (v', notes, status) := Step(v, r);
      Rested(log + notes) && (status == Running ==> Invariant(v', log + notes, r.end))
  {
    PruneKeeps(v, log, before, r.now);
    var p := Pruned(v, r.now);
    ChosenIsFree(p, r);
    StepCases(v, r);
    var c := Choose(p, r);
    var (v', notes, status) := Step(v, r);
    if c.Pair? {
      PairRests(p.cooldowns, log, r, Dialled(c.peer, c.inner, r.start, c.fallback));
    } else {
      Later(p.cooldowns, log, r.now, r.end);
      assert log + notes == log;
    }
  }

  // ---------------------------------------------------------------- whole runs

  predicate Clocked(rounds: seq<Round>)
  {
    && (forall i :: 0 <= i < |rounds| ==> Ordered(rounds[i]))
    && (forall i :: 0 < i < |rounds| ==> rounds[i - 1].end <= rounds[i].now)
  }

  /** When the last turn ended. */
  function Ended(rounds: seq<Round>, t0: int): int
  {
    if rounds == [] then t0 else rounds[|rounds| - 1].end
  }

  /** The last turn begins when those before it have ended. */
  lemma LastTurn(rounds: seq<Round>, t0: int)
    requires rounds != [] && Clocked(rounds) && t0 <= rounds[0].now
    ensures var shorter, r := rounds[..|rounds| - 1], rounds[|rounds| - 1];
      && Clocked(shorter) && (shorter != [] ==> t0 <= shorter[0].now)
      && Ordered(r) && Ended(shorter, t0) <= r.now <= r.end && Ended(rounds, t0) == r.end
  {
    var shorter := rounds[..|rounds| - 1];
    if shorter != [] {
      assert shorter[|shorter| - 1] == rounds[|rounds| - 2];
    }
  }

  lemma {:induction false} RunKeeps(cached: Option<(Endpoint, Endpoint)>, rounds: seq<Round>, t0: int)
    requires Clocked(rounds) && (rounds != [] ==> t0 <= rounds[0].now)
    ensures var (v, log, status) := Run(Begin(cached), rounds);
      Rested(log) && (status == Running ==> Invariant(v, log, Ended(rounds, t0)))
    decreases |rounds|
  {
    if rounds != [] {
      var shorter := rounds[..|rounds| - 1];
      LastTurn(rounds, t0);
      RunKeeps(cached, shorter, t0);
      var (v, log, status) := Run(Begin(cached), shorter);
      if status == Running {
        StepKeeps(v, rounds[|rounds| - 1], log, Ended(shorter, t0));
      }
    }
  }

  /** What holds at the top of the loop in every run that has not exited. */
  lemma Reached(cached: Option<(Endpoint, Endpoint)>, rounds: seq<Round>, t0: int)
    requires Clocked(rounds) && (rounds != [] ==> t0 <= rounds[0].now) && Run(Begin(cached), rounds).2 == Running
    ensures var v := Run(Begin(cached), rounds).0; Forgotten(v) && (v.cached.Some? ==> v.cooldowns == map[])
  {
    RunKeeps(cached, rounds, t0);
  }

  lemma {:induction false} RestedAt(log: seq<Note>, j: nat)
    requires Rested(log) && j < |log|
    ensures DialOk(log[..j], log[j])
  {
    if j < |log| - 1 {
      RestedAt(log[..|log| - 1], j);
      assert log[..|log| - 1][..j] == log[..j];
    }
  }

  /**
    In every run that has not exited, no pair is remembered at the top of the loop, so none is ever
    replayed from memory; and an edge whose latest rest has not run out is only ever dialled by the
    fallback scan, however the cooldown changes during the run.
   */
  lemma DeadPairsRest(cached: Option<(Endpoint, Endpoint)>, rounds: seq<Round>, j: nat, e: Endpoint)
    requires Clocked(rounds)
    ensures var (v, log, status) := Run(Begin(cached), rounds);
      && (status == Running ==> v.lastPeer.None? && v.lastInner.None? && v.fails == 0)
      && (j < |log| && Uses(log[j], e) && !log[j].fallback && LastRest(log[..j], e).Some? ==>
            LastRest(log[..j], e).value <= log[j].start)
  {
    RunKeeps(cached, rounds, if rounds == [] then 0 else rounds[0].now);
    var log := Run(Begin(cached), rounds).1;
    if j < |log| {
      RestedAt(log, j);
    }
  }

  // ---------------------------------------------------------------- a cooldown that does not change

  predicate Steady(rounds: seq<Round>, cooldown: nat)
  {
    forall i :: 0 <= i < |rounds| ==> rounds[i].peerRest == cooldown && rounds[i].innerRest == cooldown
  }

  /** Rests in the log end in the order they begin, the last no later than `bound`. */
  predicate Rising(log: seq<Note>, bound: int)
  {
    log != [] ==>
      var last := log[|log| - 1];
      if last.Rests? then last.until <= bound && Rising(log[..|log| - 1], last.until)
      else Rising(log[..|log| - 1], bound)
  }

  lemma RisingSnoc(log: seq<Note>, x: Note, bound: int)
    requires if x.Rests? then x.until <= bound && Rising(log, x.until) else Rising(log, bound)
    ensures Rising(log + [x], bound)
  {
    assert (log + [x])[..|log|] == log;
  }

  lemma {:induction false} RisingUpTo(log: seq<Note>, bound: int, higher: int)
    requires Rising(log, bound) && bound <= higher
    ensures Rising(log, higher)
  {
    if log != [] && !log[|log| - 1].Rests? {
      RisingUpTo(log[..|log| - 1], bound, higher);
    }
  }

  lemma RisingTurn(log: seq<Note>, d: Note, before: int, bound: int)
    requires Rising(log, before) && before <= bound && d.Dialled?
    ensures Rising(log + [d], bound) && Rising(log + [d, Rests(d.peer, bound), Rests(d.inner, bound)], bound)
  {
    RisingUpTo(log, before, bound);
    RisingSnoc(log, d, bound);
    RisingSnoc(log + [d], Rests(d.peer, bound), bound);
    RisingSnoc(log + [d] + [Rests(d.peer, bound)], Rests(d.inner, bound), bound);
    assert log + [d] + [Rests(d.peer, bound)] + [Rests(d.inner, bound)]
        == log + [d, Rests(d.peer, bound), Rests(d.inner, bound)];
  }

  /** What a turn adds to the log: nothing, a session that exits, or a session and two rests. */
  datatype Part = Part(notes: seq<Note>, dial: Note)

  predicate Formed(p: Part, r: Round)
  {
    var d := p.dial;
    && d.Dialled?
    && (|| p.notes == [] || p.notes == [d]
        || p.notes == [d, Rests(d.peer, r.end + r.peerRest), Rests(d.inner, r.end + r.innerRest)])
  }

  lemma PartOf(v: Vars, r: Round) returns (p: Part)
    requires Forgotten(v)
    ensures Formed(p, r) && p.notes == Step(v, r).1
  {
    StepCases(v, r);
    var c := Choose(Pruned(v, r.now), r);
    p := Part(Step(v, r).1, if c.Pair? then Dialled(c.peer, c.inner, r.start, c.fallback) else NOBODY);
  }

  const NOBODY: Note := Dialled(Endpoint(0, 0), Endpoint(0, 0), 0, false)

  function Flat(ps: seq<Part>): seq<Note>
  {
    if ps == [] then [] else Flat(ps[..|ps| - 1]) + ps[|ps| - 1].notes
  }

  predicate AllFormed(ps: seq<Part>, rounds: seq<Round>)
  {
    |ps| == |rounds| && forall i :: 0 <= i < |ps| ==> Formed(ps[i], rounds[i])
  }

  lemma FlatSnoc(ps: seq<Part>, p: Part, rounds: seq<Round>)
    requires rounds != [] && AllFormed(ps, rounds[..|rounds| - 1]) && Formed(p, rounds[|rounds| - 1])
    ensures AllFormed(ps + [p], rounds) && Flat(ps + [p]) == Flat(ps) + p.notes
  {
    assert (ps + [p])[..|ps|] == ps;
    forall i | 0 <= i < |rounds| ensures Formed((ps + [p])[i], rounds[i]) {
      if i < |ps| {
        assert Formed(ps[i], rounds[..|rounds| - 1][i]);
      }
    }
  }

  /** The log of a run, turn by turn. */
  lemma {:induction false} RunParts(cached: Option<(Endpoint, Endpoint)>, rounds: seq<Round>, t0: int)
    returns (ps: seq<Part>)
    requires Clocked(rounds) && (rounds != [] ==> t0 <= rounds[0].now)
    ensures AllFormed(ps, rounds) && Run(Begin(cached), rounds).1 == Flat(ps)
    decreases |rounds|
  {
    if rounds == [] {
      ps := [];
    } else {
      var shorter := rounds[..|rounds| - 1];
      LastTurn(rounds, t0);
      ps := RunParts(cached, shorter, t0);
      var (v, log, status) := Run(Begin(cached), shorter);
      var p := Part([], NOBODY);
      if status == Running {
        Reached(cached, shorter, t0);
        p := PartOf(v, rounds[|rounds| - 1]);
      } else {
        assert log + [] == log;
      }
      FlatSnoc(ps, p, rounds);
      ps := ps + [p];
    }
  }

  lemma PartRises(log: seq<Note>, p: Part, r: Round, before: int, cooldown: nat)
    requires Rising(log, before) && before <= r.end + cooldown && Formed(p, r)
    requires r.peerRest == cooldown && r.innerRest == cooldown
    ensures Rising(log + p.notes, r.end + cooldown)
  {
    RisingTurn(log, p.dial, before, r.end + cooldown);
    if p.notes == [] {
      RisingUpTo(log, before, r.end + cooldown);
      assert log + p.notes == log;
    }
  }

  lemma ButLast(ps: seq<Part>, rounds: seq<Round>, cooldown: nat)
    requires rounds != [] && AllFormed(ps, rounds) && Steady(rounds, cooldown)
    ensures var n := |rounds| - 1;
      && AllFormed(ps[..n], rounds[..n]) && Steady(rounds[..n], cooldown) && Formed(ps[n], rounds[n])
      && rounds[n].peerRest == cooldown && rounds[n].innerRest == cooldown
      && Flat(ps) == Flat(ps[..n]) + ps[n].notes
  {
  }

  lemma {:induction false} PartsRise(ps: seq<Part>, rounds: seq<Round>, t0: int, cooldown: nat, log: seq<Note>)
    requires AllFormed(ps, rounds) && Clocked(rounds) && (rounds != [] ==> t0 <= rounds[0].now)
    requires Steady(rounds, cooldown) && log == Flat(ps)
    ensures Rising(log, Ended(rounds, t0) + cooldown)
    decreases |rounds|
  {
    if rounds != [] {
      var n := |rounds| - 1;
      var before := Flat(ps[..n]);
      LastTurn(rounds, t0);
      ButLast(ps, rounds, cooldown);
      PartsRise(ps[..n], rounds[..n], t0, cooldown, before);
      PartRises(before, ps[n], rounds[n], Ended(rounds[..n], t0) + cooldown, cooldown);
    }
  }

  /** An edge put to rest is at rest at least as long later on. */
  lemma {:induction false} RestsRise(log: seq<Note>, bound: int, i: nat)
    requires Rising(log, bound) && i < |log| && log[i].Rests?
    ensures log[i].until <= bound
    ensures LastRest(log, log[i].edge).Some? && log[i].until <= LastRest(log, log[i].edge).value
  {
    if i < |log| - 1 {
      var last, prefix := log[|log| - 1], log[..|log| - 1];
      RestsRise(prefix, if last.Rests? then last.until else bound, i);
    }
  }

  lemma {:induction false} RisingPrefix(log: seq<Note>, bound: int, j: nat)
    requires Rising(log, bound) && j <= |log|
    ensures Rising(log[..j], bound)
  {
    if j < |log| {
      var last, prefix := log[|log| - 1], log[..|log| - 1];
      if last.Rests? {
        RisingUpTo(prefix, last.until, bound);
      }
      RisingPrefix(prefix, bound, j);
      assert prefix[..j] == log[..j];
    } else {
      assert log[..j] == log;
    }
  }

  lemma RunRises(cached: Option<(Endpoint, Endpoint)>, rounds: seq<Round>, t0: int, cooldown: nat)
    requires Clocked(rounds) && (rounds != [] ==> t0 <= rounds[0].now) && Steady(rounds, cooldown)
    ensures Rising(Run(Begin(cached), rounds).1, Ended(rounds, t0) + cooldown)
  {
    var ps := RunParts(cached, rounds, t0);
    PartsRise(ps, rounds, t0, cooldown, Flat(ps));
  }

  lemma RisenRest(log: seq<Note>, bound: int, i: nat, j: nat)
    requires Rising(log, bound) && i < j <= |log| && log[i].Rests?
    ensures LastRest(log[..j], log[i].edge).Some? && log[i].until <= LastRest(log[..j], log[i].edge).value
  {
    RisingPrefix(log, bound, j);
    RestsRise(log[..j], bound, i);
  }

  /** While the cooldown does not change, no rest at all is cut short except by the fallback scan. */
  lemma SteadyRest(cached: Option<(Endpoint, Endpoint)>, rounds: seq<Round>, cooldown: nat, i: nat, j: nat)
    requires Clocked(rounds) && Steady(rounds, cooldown)
    requires var log := Run(Begin(cached), rounds).1;
      i < j < |log| && log[i].Rests? && Uses(log[j], log[i].edge) && !log[j].fallback
    ensures var log := Run(Begin(cached), rounds).1; log[i].until <= log[j].start
  {
    var log := Run(Begin(cached), rounds).1;
    var t0 := if rounds == [] then 0 else rounds[0].now;
    RunRises(cached, rounds, t0, cooldown);
    RisenRest(log, Ended(rounds, t0) + cooldown, i, j);
    DeadPairsRest(cached, rounds, j, log[i].edge);
  }

  /** What a session does to the pair it used. */
  predicate ParksBoth(v0: Vars, r: Round)
  {
    var v := Pruned(v0, r.now);
    var c := Choose(v, r);
    var (v', _, status) := Step(v0, r);
    c.Pair? ==>
      && (c.fallback ==> Hunt(r.scan, 2, v.cooldowns.Keys) == [] && v.cooldowns != map[])
      && (status == Exited <==> WarpInWarp(c.peer, c.inner, r.attempt) == Err(PortBusy))
      && (status == Running ==>
            && v'.lastPeer.None? && v'.lastInner.None? && v'.cached.None?
            && c.inner in v'.cooldowns && v'.cooldowns[c.inner] == r.end + r.innerRest
            && c.peer in v'.cooldowns
            && (c.peer != c.inner ==> v'.cooldowns[c.peer] == r.end + r.peerRest))
  }

  lemma SessionParks(v0: Vars, r: Round)
    requires Forgotten(v0) && (v0.cached.Some? ==> v0.cooldowns == map[])
    ensures ParksBoth(v0, r)
  {
    ChosenIsFree(Pruned(v0, r.now), r);
    StepCases(v0, r);
  }

  /**
    Every session of such a run, unless it exits on a busy port, leaves both its edges resting for
    the whole cooldown and nothing to replay; and it used the fallback only after the scan that
    honours the rests had found nothing.
   */
  lemma SessionsParkBothEdges(cached: Option<(Endpoint, Endpoint)>, rounds: seq<Round>, r: Round)
    requires Clocked(rounds + [r]) && Run(Begin(cached), rounds).2 == Running
    ensures ParksBoth(Run(Begin(cached), rounds).0, r)
  {
    assert forall i :: 0 <= i < |rounds| ==> rounds[i] == (rounds + [r])[i];
    assert (rounds + [r])[|rounds|] == r;
    Reached(cached, rounds, if rounds == [] then r.now else rounds[0].now);
    SessionParks(Run(Begin(cached), rounds).0, r);
  }
}
