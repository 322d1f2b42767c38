/**
  What a turn of the warp-in-warp loop does, told from the log of the run and from what the turn
  meets: which pair it dials, when the process exits, and how long each edge rests.
 */
module GoolActs {
  import opened Bytes
  import opened Candidates
  import opened GoolSupervisor
  import WireguardSupervisor

  // ---------------------------------------------------------------- how a session ends

  predicate Fails(j: Joined, e: Error)
  {
    j == Returned(Err(e))
  }

  /** The task whose end ended the session. */
  function Task(x: Exit): Option<Joined>
  {
    match x
    case OuterExits(j) => Some(j)
    case InnerExits(j) => Some(j)
    case SocksExits(j) => Some(j)
    case MigrateHint => None
  }

  /** The first of the three set-up stages that fails does so with `e`. */
  predicate StageFails(a: Attempt, e: Error)
  {
    || a.outer == Some(e)
    || (a.outer.None? && a.forwarder == Some(e))
    || (a.outer.None? && a.forwarder.None? && a.inner == Some(e))
  }

  predicate SetUp(a: Attempt)
  {
    a.outer.None? && a.forwarder.None? && a.inner.None?
  }

  /** The session over two edges on separate addresses ends with `e`, by a stage or by a task. */
  predicate EndsWith(peer: Endpoint, inner: Endpoint, a: Attempt, e: Error)
  {
    inner.ip != peer.ip && (StageFails(a, e) || (SetUp(a) && Task(a.exit).Some? && Fails(Task(a.exit).value, e)))
  }

  /**
    A session ends on a busy port exactly when a stage or a task says so, and with a migration
    exactly when one says so or the hint comes first; everything else is some other error.
   */
  lemma OutcomeIff(peer: Endpoint, inner: Endpoint, a: Attempt)
    ensures var r := WarpInWarp(peer, inner, a);
      && r.Err?
      && (r == Err(PortBusy) <==> EndsWith(peer, inner, a, PortBusy))
      && (r == Err(Migrate) <==>
            EndsWith(peer, inner, a, Migrate) || (inner.ip != peer.ip && SetUp(a) && a.exit == MigrateHint))
  {
  }

  // ---------------------------------------------------------------- the variables, told from the log

  predicate RestsNow(log: seq<Note>, e: Endpoint, now: int)
  {
    LastRest(log, e).Some? && LastRest(log, e).value > now
  }

  predicate KeptFor(cooldowns: map<Endpoint, int>, log: seq<Note>, now: int, e: Endpoint)
  {
    && (e in cooldowns ==> LastRest(log, e) == Some(cooldowns[e]))
    && (RestsNow(log, e, now) ==> e in cooldowns)
  }

  ghost predicate Exact(cooldowns: map<Endpoint, int>, log: seq<Note>, now: int)
  {
    forall e :: KeptFor(cooldowns, log, now, e)
  }

  lemma PruneExact(cooldowns: map<Endpoint, int>, log: seq<Note>, before: int, now: int)
    requires Exact(cooldowns, log, before) && before <= now
    ensures var pruned := WireguardSupervisor.Prune(cooldowns, now);
      Exact(pruned, log, now) && forall e :: e in pruned <==> RestsNow(log, e, now)
  {
    forall e
      ensures KeptFor(WireguardSupervisor.Prune(cooldowns, now), log, now, e)
      ensures e in WireguardSupervisor.Prune(cooldowns, now) <==> RestsNow(log, e, now)
    {
      assert KeptFor(cooldowns, log, before, e);
    }
  }

  lemma LaterExact(cooldowns: map<Endpoint, int>, log: seq<Note>, now: int, end: int)
    requires Exact(cooldowns, log, now) && now <= end
    ensures Exact(cooldowns, log, end)
  {
    forall e
      ensures KeptFor(cooldowns, log, end, e)
    {
      assert KeptFor(cooldowns, log, now, e);
    }
  }

  lemma ExactSnoc(cooldowns: map<Endpoint, int>, log: seq<Note>, now: int, x: Note)
    requires Exact(cooldowns, log, now)
    ensures Exact(if x.Rests? then cooldowns[x.edge := x.until] else cooldowns, log + [x], now)
  {
    LogSnoc(log, x);
    var after := if x.Rests? then cooldowns[x.edge := x.until] else cooldowns;
    forall e
      ensures KeptFor(after, log + [x], now, e)
    {
      assert KeptFor(cooldowns, log, now, e);
    }
  }

  // ---------------------------------------------------------------- one turn

  /** The edges a turn finds: those of the scan, or of the scan without exclusions if that was in vain. */
  function Edges(r: Round, excluded: set<Endpoint>): (seq<Endpoint>, bool)
  {
    var found := Hunt(r.scan, 2, excluded);
    if found != [] || excluded == {} then (found, false) else (Hunt(r.rescan, 2, {}), true)
  }

  /** The pair of a turn: the one cached on disk, or two edges found. */
  function PairOf(first: Option<(Endpoint, Endpoint)>, r: Round, excluded: set<Endpoint>): Option<Note>
  {
    if first.Some? then Some(Dialled(first.value.0, first.value.1, r.start, false))
    else
      var (found, fallback) := Edges(r, excluded);
      if |found| < 2 then None else Some(Dialled(found[0], found[1], r.start, fallback))
  }

  predicate Busy(d: Note, a: Attempt)
    requires d.Dialled?
  {
    EndsWith(d.peer, d.inner, a, PortBusy)
  }

  /** The notes of a turn that dials `d`, if any. */
  function NotesOf(d: Option<Note>, r: Round): seq<Note>
    requires d.Some? ==> d.value.Dialled?
  {
    if d.None? then []
    else if Busy(d.value, r.attempt) then [d.value]
    else [d.value, Rests(d.value.peer, r.end + r.peerRest), Rests(d.value.inner, r.end + r.innerRest)]
  }

  lemma ChoiceActs(v: Vars, r: Round)
    requires Forgotten(v)
    ensures var c, d := Choose(v, r), PairOf(v.cached, r, v.cooldowns.Keys);
      && (c.Pair? <==> d.Some?)
      && (c.Pair? ==> d.value == Dialled(c.peer, c.inner, r.start, c.fallback))
  {
  }

  /** What a turn does, `c` being its choice among edges that are not at rest. */
  predicate Acted(v: Vars, r: Round, c: Choice, d: Option<Note>)
  {
    && (c.Pair? <==> d.Some?)
    && (c.Pair? ==> d.value == Dialled(c.peer, c.inner, r.start, c.fallback))
    && var (v', notes, status) := Step(v, r);
    && notes == NotesOf(d, r)
    && (status == Exited <==> d.Some? && Busy(d.value, r.attempt))
  }

  lemma StepNotes(v: Vars, r: Round)
    requires Forgotten(v)
    ensures var p := Pruned(v, r.now); Acted(v, r, Choose(p, r), PairOf(v.cached, r, p.cooldowns.Keys))
  {
    var p := Pruned(v, r.now);
    var c := Choose(p, r);
    ChoiceActs(p, r);
    StepCases(v, r);
    if c.Pair? {
      OutcomeIff(c.peer, c.inner, r.attempt);
      ExitIff(v, r, c);
    }
  }

  lemma StepExact(v: Vars, r: Round, log: seq<Note>)
    requires Forgotten(v) && Exact(Pruned(v, r.now).cooldowns, log, r.now) && Ordered(r)
    ensures var (v', notes, status) := Step(v, r);
      status == Running ==> Exact(v'.cooldowns, log + notes, r.end) && v'.cached.None?
  {
    var p := Pruned(v, r.now);
    var c := Choose(p, r);
    StepTurns(v, r);
    ChosenKeeps(p, c, r);
    CacheSpent(p, c, r);
    TurnedExact(Chosen(p, c), c, r, log);
  }

  lemma CacheSpent(v: Vars, c: Choice, r: Round)
    requires Forgotten(v) && c == Choose(v, r)
    ensures Chosen(v, c).cached.None?
  {
  }

  lemma TurnedExact(v: Vars, c: Choice, r: Round, log: seq<Note>)
    requires Forgotten(v) && v.cached.None? && Exact(v.cooldowns, log, r.now) && Ordered(r)
    ensures var (v', notes, status) := Turned(v, c, r);
      status == Running ==> Exact(v'.cooldowns, log + notes, r.end) && v'.cached.None?
  {
    TurnedCases(v, c, r);
    if c.Pair? {
      var d := Dialled(c.peer, c.inner, r.start, c.fallback);
      PairExact(v.cooldowns, log, r.now, r.end, d, r.end + r.peerRest, r.end + r.innerRest);
    } else {
      assert log + [] == log;
      LaterExact(v.cooldowns, log, r.now, r.end);
    }
  }

  lemma StepActs(v: Vars, r: Round, log: seq<Note>, before: int) returns (excluded: set<Endpoint>)
    requires Forgotten(v) && Exact(v.cooldowns, log, before) && before <= r.now && Ordered(r)
    ensures forall e :: e in excluded <==> RestsNow(log, e, r.now)
    ensures var (v', notes, status) := Step(v, r); var d := PairOf(v.cached, r, excluded);
      && notes == NotesOf(d, r)
      && (status == Exited <==> d.Some? && Busy(d.value, r.attempt))
      && (status == Running ==> Exact(v'.cooldowns, log + notes, r.end) && v'.cached.None?)
  {
    PruneExact(v.cooldowns, log, before, r.now);
    excluded := Pruned(v, r.now).cooldowns.Keys;
    StepNotes(v, r);
    StepExact(v, r, log);
  }

  lemma ExitIff(v: Vars, r: Round, c: Choice)
    requires Forgotten(v) && c == Choose(Pruned(v, r.now), r) && c.Pair?
    ensures Step(v, r).2 == Exited <==> WarpInWarp(c.peer, c.inner, r.attempt) == Err(PortBusy)
  {
    NeverOk(c.peer, c.inner, r.attempt);
  }

  lemma PairExact(cooldowns: map<Endpoint, int>, log: seq<Note>, now: int, end: int, d: Note, u: int, u': int)
    requires Exact(cooldowns, log, now) && d.Dialled? && now <= end
    ensures Exact(cooldowns[d.peer := u][d.inner := u'], log + [d, Rests(d.peer, u), Rests(d.inner, u')], end)
  {
    ExactSnoc(cooldowns, log, now, d);
    ExactSnoc(cooldowns, log + [d], now, Rests(d.peer, u));
    ExactSnoc(cooldowns[d.peer := u], log + [d] + [Rests(d.peer, u)], now, Rests(d.inner, u'));
    var longer := log + [d, Rests(d.peer, u), Rests(d.inner, u')];
    assert log + [d] + [Rests(d.peer, u)] + [Rests(d.inner, u')] == longer;
    LaterExact(cooldowns[d.peer := u][d.inner := u'], longer, now, end);
  }

  // ---------------------------------------------------------------- whole runs

  lemma {:induction false} RunExact(cached: Option<(Endpoint, Endpoint)>, rounds: seq<Round>, t0: int)
    requires Clocked(rounds) && (rounds != [] ==> t0 <= rounds[0].now)
    ensures var (v, log, status) := Run(Begin(cached), rounds);
      status == Running ==>
        Exact(v.cooldowns, log, Ended(rounds, t0)) && v.cached == if rounds == [] then cached else None
    decreases |rounds|
  {
    if rounds != [] {
      var shorter, r := rounds[..|rounds| - 1], rounds[|rounds| - 1];
      LastTurn(rounds, t0);
      RunExact(cached, shorter, t0);
      var (v, log, status) := Run(Begin(cached), shorter);
      if status == Running {
        Reached(cached, shorter, t0);
        var excluded := StepActs(v, r, log, Ended(shorter, t0));
      }
    }
  }

  /**
    A turn of any run that has not exited, told from the log so far. In the first turn it dials the
    pair cached on disk, if there is one; else the two quickest edges of the scan that avoids those
    still at rest, or, when that finds none, of a scan that does not. It exits the process exactly on
    a busy port; otherwise both edges rest from the end of the session, each for the cooldown read
    for it, and nothing is dialled when fewer than two edges are found.
   */
  lemma TurnActs(cached: Option<(Endpoint, Endpoint)>, rounds: seq<Round>, r: Round) returns (excluded: set<Endpoint>)
    requires Clocked(rounds + [r]) && Run(Begin(cached), rounds).2 == Running
    ensures var log := Run(Begin(cached), rounds).1; var (_, log', status) := Run(Begin(cached), rounds + [r]);
      var d := PairOf(if rounds == [] then cached else None, r, excluded);
      && (forall e :: e in excluded <==> RestsNow(log, e, r.now))
      && log' == log + NotesOf(d, r)
      && (status == Exited <==> d.Some? && Busy(d.value, r.attempt))
  {
    var t0, all := if rounds == [] then r.now else rounds[0].now, rounds + [r];
    assert all[..|rounds|] == rounds && all[|rounds|] == r && (rounds != [] ==> all[0] == rounds[0]);
    LastTurn(all, t0);
    RunExact(cached, rounds, t0);
    Reached(cached, rounds, t0);
    var (v, log, status) := Run(Begin(cached), rounds);
    excluded := StepActs(v, r, log, Ended(rounds, t0));
  }
}
