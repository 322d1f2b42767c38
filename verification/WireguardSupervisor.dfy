/**
  The reconnect loop around a single WireGuard tunnel, with no endpoint forced: which endpoint each
  session uses, when endpoints are parked, and what holds over every run of the loop.
 */
module WireguardSupervisor {
  import opened Bytes
  import opened Candidates

  const MAX_CONSECUTIVE_FAILS: nat := 2

  /** The variables of the loop; `quick` is an endpoint verified before it started. */
  datatype State = State(
    quick: Option<Endpoint>,
    lastGood: Option<Endpoint>,
    fails: nat,
    cooldowns: map<Endpoint, int>)

  datatype Ending = Closed | Migrated | Broken

  /**
    What one turn of the loop meets: the time, whether the last good endpoint still answers, the
    scans of the profiles, when the session starts and ends, how it ends, and the cooldown in force
    at the top and after the session.
   */
  datatype Turn = Turn(
    now: int,
    answers: bool,
    scans: seq<Scan>,
    start: int,
    end: int,
    ending: Ending,
    failingRest: nat,
    migratedRest: nat)

  /** What a turn leaves in the log. */
  datatype Entry =
    | Parked(peer: Endpoint, at: int, until: int)
    | Session(peer: Endpoint, start: int, ending: Ending)

  predicate InOrder(t: Turn) { t.now <= t.start <= t.end }

  function Prune(cooldowns: map<Endpoint, int>, now: int): map<Endpoint, int>
  {
    map e | e in cooldowns && cooldowns[e] > now :: cooldowns[e]
  }

  /** The top of the loop: drop what has expired, park an endpoint that failed twice in a row. */
  function ParkFailing(s: State, t: Turn): (State, seq<Entry>)
  {
    var pruned := s.(cooldowns := Prune(s.cooldowns, t.now));
    if s.fails < MAX_CONSECUTIVE_FAILS then (pruned, [])
    else if s.lastGood.None? then (pruned.(fails := 0), [])
    else
      var p := s.lastGood.value;
      (pruned.(lastGood := None, fails := 0, cooldowns := pruned.cooldowns[p := t.now + t.failingRest]),
       [Parked(p, t.now, t.now + t.failingRest)])
  }

  /** `hunt_wg_peer`: the first profile whose scan finds an endpoint. */
  function HuntPeer(scans: seq<Scan>, excluded: set<Endpoint>): Option<Endpoint>
  {
    if scans == [] then None
    else
      var found := Hunt(scans[0], 1, excluded);
      if found != [] then Some(found[0]) else HuntPeer(scans[1..], excluded)
  }

  /** The endpoint of this turn, if there is one. */
  function Choose(s: State, t: Turn): Option<Endpoint>
  {
    if s.quick.Some? then s.quick
    else if s.lastGood.Some? && t.answers then s.lastGood
    else HuntPeer(t.scans, s.cooldowns.Keys)
  }

  /** A session with `peer`, and what its ending does to the loop's variables. */
  function RunSession(s: State, peer: Endpoint, t: Turn): (State, seq<Entry>)
  {
    var fails := if s.lastGood == Some(peer) then s.fails else 0;
    var session := Session(peer, t.start, t.ending);
    if t.ending == Migrated then
      (s.(quick := None, lastGood := None, fails := 0, cooldowns := s.cooldowns[peer := t.end + t.migratedRest]),
       [session, Parked(peer, t.end, t.end + t.migratedRest)])
    else (s.(quick := None, lastGood := Some(peer), fails := fails + 1), [session])
  }

  /** One turn of the loop. */
  function Step(s: State, t: Turn): (State, seq<Entry>)
  {
    var (s1, parked) := ParkFailing(s, t);
    var peer := Choose(s1, t);
    if peer.None? then (s1, parked)
    else
      var (s2, log) := RunSession(s1, peer.value, t);
      (s2, parked + log)
  }

  // ---------------------------------------------------------------- the loop

  class Supervisor {
    var quick: Option<Endpoint>
    var lastGood: Option<Endpoint>
    var fails: nat
    var cooldowns: map<Endpoint, int>

    function Vars(): State
      reads this
    {
      State(quick, lastGood, fails, cooldowns)
    }

    constructor (quick: Option<Endpoint>)
      ensures Vars() == State(quick, None, 0, map[])
    {
      this.quick, lastGood, fails, cooldowns := quick, None, 0, map[];
    }

    /** `hunt_wg_peer`. */
    method FindPeer(scans: seq<Scan>, excluded: set<Endpoint>) returns (peer: Option<Endpoint>)
      ensures peer == HuntPeer(scans, excluded)
    {
      assert scans[0..] == scans;
      for i := 0 to |scans|
        invariant HuntPeer(scans[i..], excluded) == HuntPeer(scans, excluded)
      {
        assert scans[i..][0] == scans[i] && scans[i..][1..] == scans[i + 1..];
        var found := Hunt(scans[i], 1, excluded);
        if found != [] {
          return Some(found[0]);
        }
      }
      peer := None;
    }

    /** The top of the loop. */
    method ParkIfFailing(t: Turn) returns (log: seq<Entry>)
      modifies this`cooldowns, this`lastGood, this`fails
      ensures (Vars(), log) == ParkFailing(old(Vars()), t)
    {
      log := [];
      cooldowns := map e | e in cooldowns && cooldowns[e] > t.now :: cooldowns[e];
      if fails >= MAX_CONSECUTIVE_FAILS {
        if lastGood.Some? {
          cooldowns := cooldowns[lastGood.value := t.now + t.failingRest];
          log := [Parked(lastGood.value, t.now, t.now + t.failingRest)];
          lastGood := None;
        }
        fails := 0;
      }
    }

    /** The session of a turn and its ending. */
    method UsePeer(peer: Endpoint, t: Turn) returns (log: seq<Entry>)
      modifies this
      ensures (Vars(), log) == RunSession(old(Vars()), peer, t)
    {
      quick := None;
      if lastGood != Some(peer) {
        fails := 0;
      }
      lastGood := Some(peer);
      log := [Session(peer, t.start, t.ending)];
      if t.ending == Migrated {
        cooldowns := cooldowns[peer := t.end + t.migratedRest];
        lastGood := None;
        fails := 0;
        log := [log[0], Parked(peer, t.end, t.end + t.migratedRest)];
      } else {
        fails := fails + 1;
      }
    }

    method OneTurn(t: Turn) returns (log: seq<Entry>)
      modifies this
      ensures (Vars(), log) == Step(old(Vars()), t)
    {
      log := ParkIfFailing(t);
      var peer;
      if quick.Some? {
        peer := quick;
      } else if lastGood.Some? && t.answers {
        peer := lastGood;
      } else {
        peer := FindPeer(t.scans, cooldowns.Keys);
        if peer.None? {
          return;
        }
      }
      var more := UsePeer(peer.value, t);
      log := log + more;
    }

    /** The loop, for as long as there are turns. */
    method Supervise(turns: seq<Turn>) returns (log: seq<Entry>)
      modifies this
      ensures (Vars(), log) == Run(old(Vars()), turns)
    {
      log := [];
      for i := 0 to |turns|
        invariant (Vars(), log) == Run(old(Vars()), turns[..i])
      {
        assert turns[..i + 1][..i] == turns[..i];
        var more := OneTurn(turns[i]);
        log := log + more;
      }
      assert turns[..|turns|] == turns;
    }
  }

  /** The state and the log after a run of turns. */
  function Run(s: State, turns: seq<Turn>): (State, seq<Entry>)
    decreases |turns|
  {
    if turns == [] then (s, [])
    else
      var (s1, log) := Run(s, turns[..|turns| - 1]);
      var (s2, more) := Step(s1, turns[|turns| - 1]);
      (s2, log + more)
  }

  /** The clock never runs back. */
  predicate Clocked(turns: seq<Turn>)
  {
    && (forall i :: 0 <= i < |turns| ==> InOrder(turns[i]))
    && (forall i :: 0 < i < |turns| ==> turns[i - 1].end <= turns[i].now)
  }

  // ---------------------------------------------------------------- streaks

  /** How many sessions in a row, up to the end of the log, were with `p` and without a park of `p`. */
  function Streak(log: seq<Entry>, p: Endpoint): nat
  {
    if log == [] then 0
    else
      match log[|log| - 1]
      case Parked(q, _, _) => if q == p then 0 else Streak(log[..|log| - 1], p)
      case Session(q, _, _) => if q == p then Streak(log[..|log| - 1], p) + 1 else 0
  }

  lemma StreakSnoc(log: seq<Entry>, e: Entry, p: Endpoint)
    ensures Streak(log + [e], p) ==
      match e
      case Parked(q, _, _) => if q == p then 0 else Streak(log, p)
      case Session(q, _, _) => if q == p then Streak(log, p) + 1 else 0
  {
    assert (log + [e])[..|log|] == log;
  }

  /** The counter is the streak of the remembered endpoint, and no other endpoint has one. */
  ghost predicate Counts(s: State, log: seq<Entry>)
  {
    && s.fails <= MAX_CONSECUTIVE_FAILS
    && (s.lastGood.None? ==> s.fails == 0)
    && forall p :: Streak(log, p) == if s.lastGood == Some(p) then s.fails else 0
  }

  /** Every park in the log has run out by `now`, or is still in the map at least as long. */
  ghost predicate Honoured(s: State, log: seq<Entry>, now: int)
  {
    forall i :: 0 <= i < |log| && log[i].Parked? ==>
      log[i].until <= now || (log[i].peer in s.cooldowns && s.cooldowns[log[i].peer] >= log[i].until)
  }

  /** No session in the log started before an earlier park of its endpoint had run out. */
  ghost predicate Respected(log: seq<Entry>)
  {
    forall i, j :: 0 <= i < j < |log| && log[i].Parked? && log[j].Session? && log[i].peer == log[j].peer ==>
      log[i].until <= log[j].start
  }

  predicate Separate(s: State)
  {
    s.lastGood.Some? ==> s.lastGood.value !in s.cooldowns
  }

  /** The endpoint verified before the loop is used in its first turn, so before anything is parked. */
  predicate QuickFirst(s: State, log: seq<Entry>)
  {
    s.quick.Some? ==> log == [] && s.lastGood.None? && s.cooldowns == map[]
  }

  /** At no point of the log does an endpoint have more sessions in a row than the limit. */
  ghost predicate Short(log: seq<Entry>)
  {
    forall k, p :: 0 <= k <= |log| ==> Streak(log[..k], p) <= MAX_CONSECUTIVE_FAILS
  }

  lemma ShortSnoc(log: seq<Entry>, e: Entry)
    requires Short(log) && forall p :: Streak(log + [e], p) <= MAX_CONSECUTIVE_FAILS
    ensures Short(log + [e])
  {
    var log' := log + [e];
    forall k, p | 0 <= k <= |log'| ensures Streak(log'[..k], p) <= MAX_CONSECUTIVE_FAILS {
      if k <= |log| {
        assert log'[..k] == log[..k];
      } else {
        assert log'[..k] == log';
      }
    }
  }

  ghost predicate Invariant(s: State, log: seq<Entry>, now: int)
  {
    && Counts(s, log) && Honoured(s, log, now) && Respected(log) && Separate(s) && QuickFirst(s, log)
    && Short(log)
  }

  // ---------------------------------------------------------------- one turn

  lemma {:induction false} HuntPeerIsFree(scans: seq<Scan>, excluded: set<Endpoint>)
    ensures HuntPeer(scans, excluded).Some? ==> HuntPeer(scans, excluded).value !in excluded
  {
    if scans != [] {
      var found := Hunt(scans[0], 1, excluded);
      if found != [] {
        HuntHonoursExclusions(scans[0], 1, excluded, found[0]);
      } else {
        HuntPeerIsFree(scans[1..], excluded);
      }
    }
  }

  lemma ParkKeeps(s: State, t: Turn, log: seq<Entry>, before: int)
    requires Invariant(s, log, before) && before <= t.now
    ensures var (s1, more) := ParkFailing(s, t);
      Invariant(s1, log + more, t.now) && s1.fails < MAX_CONSECUTIVE_FAILS
      && (forall e :: e in s1.cooldowns ==> s1.cooldowns[e] > t.now || s1.lastGood != Some(e))
  {
    var (s1, more) := ParkFailing(s, t);
    if more == [] {
      assert log + more == log;
    } else {
      forall p { StreakSnoc(log, more[0], p); }
      ShortSnoc(log, more[0]);
    }
  }

  lemma ChosenIsFree(s: State, t: Turn)
    requires Separate(s) && (s.quick.Some? ==> s.cooldowns == map[])
    ensures Choose(s, t).Some? ==> Choose(s, t).value !in s.cooldowns
  {
    HuntPeerIsFree(t.scans, s.cooldowns.Keys);
  }

  lemma SessionKeeps(s: State, peer: Endpoint, t: Turn, log: seq<Entry>)
    requires Invariant(s, log, t.now) && s.fails < MAX_CONSECUTIVE_FAILS && InOrder(t)
    requires peer !in s.cooldowns
    ensures var (s2, more) := RunSession(s, peer, t); Invariant(s2, log + more, t.end)
  {
    var (s2, more) := RunSession(s, peer, t);
    var log1 := log + [more[0]];
    forall p { StreakSnoc(log, more[0], p); }
    ShortSnoc(log, more[0]);
    assert Respected(log1) by {
      forall i, j | 0 <= i < j < |log1| && log1[i].Parked? && log1[j].Session? && log1[i].peer == log1[j].peer
        ensures log1[i].until <= log1[j].start
      {
        assert log1[i] == log[i];
      }
    }
    if t.ending == Migrated {
      assert log + more == log1 + [more[1]];
      forall p { StreakSnoc(log1, more[1], p); }
      ShortSnoc(log1, more[1]);
    } else {
      assert log + more == log1;
    }
  }

  /** After the top of the loop the endpoint of the turn is free. */
  lemma ParkThenChoose(s: State, t: Turn, log: seq<Entry>, before: int)
    requires Invariant(s, log, before) && before <= t.now
    ensures var (s1, parked) := ParkFailing(s, t);
      && Invariant(s1, log + parked, t.now) && s1.fails < MAX_CONSECUTIVE_FAILS
      && (Choose(s1, t).Some? ==> Choose(s1, t).value !in s1.cooldowns)
  {
    ParkKeeps(s, t, log, before);
    ChosenIsFree(ParkFailing(s, t).0, t);
  }

  lemma TimePasses(s: State, log: seq<Entry>, now: int, end: int)
    requires Invariant(s, log, now) && now <= end
    ensures Invariant(s, log, end)
  {
  }

  lemma StepKeeps(s: State, t: Turn, log: seq<Entry>, before: int)
    requires Invariant(s, log, before) && before <= t.now && InOrder(t)
    ensures var (s', more) := Step(s, t); Invariant(s', log + more, t.end)
  {
    var (s1, parked) := ParkFailing(s, t);
    ParkThenChoose(s, t, log, before);
    var peer := Choose(s1, t);
    if peer.Some? {
      SessionKeeps(s1, peer.value, t, log + parked);
      Assoc(log, parked, RunSession(s1, peer.value, t).1);
    } else {
      TimePasses(s1, log + parked, t.now, t.end);
    }
  }

  lemma {:induction false} RunKeeps(quick: Option<Endpoint>, turns: seq<Turn>, t0: int)
    requires Clocked(turns) && (turns != [] ==> t0 <= turns[0].now)
    ensures var (s, log) := Run(State(quick, None, 0, map[]), turns);
      Invariant(s, log, if turns == [] then t0 else turns[|turns| - 1].end)
    decreases |turns|
  {
    if turns != [] {
      var shorter := turns[..|turns| - 1];
      RunKeeps(quick, shorter, t0);
      var (s, log) := Run(State(quick, None, 0, map[]), shorter);
      var before := if shorter == [] then t0 else shorter[|shorter| - 1].end;
      StepKeeps(s, turns[|turns| - 1], log, before);
    }
  }

  // ---------------------------------------------------------------- what holds over every run

  /**
    In every run: an endpoint parked until some time starts no session before it, and the endpoint
    the loop remembers as good is never one that is parked.
   */
  lemma ParkedEndpointsRest(quick: Option<Endpoint>, turns: seq<Turn>)
    requires Clocked(turns)
    ensures var (s, log) := Run(State(quick, None, 0, map[]), turns);
      && (forall i, j :: 0 <= i < j < |log| && log[i].Parked? && log[j].Session? && log[i].peer == log[j].peer ==>
            log[i].until <= log[j].start)
      && (s.lastGood.Some? ==> s.lastGood.value !in s.cooldowns)
  {
    RunKeeps(quick, turns, if turns == [] then 0 else turns[0].now);
  }

  /** In every run, and at every point of it, no endpoint has had three sessions in a row without being parked. */
  lemma AtMostTwoInARow(quick: Option<Endpoint>, turns: seq<Turn>, p: Endpoint, k: nat)
    requires Clocked(turns) && k <= |Run(State(quick, None, 0, map[]), turns).1|
    ensures Streak(Run(State(quick, None, 0, map[]), turns).1[..k], p) <= MAX_CONSECUTIVE_FAILS
  {
    RunKeeps(quick, turns, if turns == [] then 0 else turns[0].now);
  }
}
