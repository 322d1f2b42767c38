/**
  What a turn of the WireGuard loop does, told from the log of the run and from what the turn meets:
  which endpoint is parked and for how long, which one the session uses, and what its end leaves.
 */
module WireguardActs {
  import opened Bytes
  import opened Candidates
  import opened WireguardSupervisor

  function Begin(quick: Option<Endpoint>): State
  {
    State(quick, None, 0, map[])
  }

  // ---------------------------------------------------------------- the variables, told from the log

  /** The endpoint of the last session, unless something was parked after it. */
  function Remembered(log: seq<Entry>): Option<Endpoint>
  {
    if log != [] && log[|log| - 1].Session? then Some(log[|log| - 1].peer) else None
  }

  /** Until when the latest park of `p` lasts. */
  function LastPark(log: seq<Entry>, p: Endpoint): Option<int>
  {
    if log == [] then None
    else
      var e := log[|log| - 1];
      if e.Parked? && e.peer == p then Some(e.until) else LastPark(log[..|log| - 1], p)
  }

  predicate Rests(log: seq<Entry>, p: Endpoint, now: int)
  {
    LastPark(log, p).Some? && LastPark(log, p).value > now
  }

  lemma LastParkSnoc(log: seq<Entry>, e: Entry, p: Endpoint)
    ensures LastPark(log + [e], p) == if e.Parked? && e.peer == p then Some(e.until) else LastPark(log, p)
  {
    assert (log + [e])[..|log|] == log;
  }

  predicate KeptFor(s: State, log: seq<Entry>, now: int, p: Endpoint)
  {
    && (p in s.cooldowns ==> LastPark(log, p) == Some(s.cooldowns[p]))
    && (Rests(log, p, now) ==> p in s.cooldowns)
  }

  /** The map holds the latest parks, and every one that has not run out. */
  ghost predicate Exact(s: State, log: seq<Entry>, now: int)
  {
    s.lastGood == Remembered(log) && forall p :: KeptFor(s, log, now, p)
  }

  /** A session of this turn, and the park of an endpoint it is migrated from. */
  function SessionOf(peer: Option<Endpoint>, t: Turn): seq<Entry>
  {
    if peer.None? then []
    else
      [Session(peer.value, t.start, t.ending)]
      + if t.ending == Migrated then [Parked(peer.value, t.end, t.end + t.migratedRest)] else []
  }

  /** The endpoint that has failed twice in a row. */
  function Failing(log: seq<Entry>): Option<Endpoint>
  {
    var r := Remembered(log);
    if r.Some? && Streak(log, r.value) == 2 then r else None
  }

  function FailingPark(log: seq<Entry>, t: Turn): seq<Entry>
  {
    if Failing(log).None? then [] else [Parked(Failing(log).value, t.now, t.now + t.failingRest)]
  }

  // ---------------------------------------------------------------- the parts of a turn

  /** The top of the loop parks the failing endpoint, and what is left in the map rests or was just parked. */
  lemma TopActs(s: State, t: Turn, log: seq<Entry>, before: int)
    requires Invariant(s, log, before) && Exact(s, log, before) && before <= t.now
    ensures var (s1, parked) := ParkFailing(s, t);
      && parked == FailingPark(log, t) && Exact(s1, log + parked, t.now) && s1.quick == s.quick
      && s1.lastGood == (if Failing(log).Some? then None else s.lastGood)
      && forall e :: e in s1.cooldowns <==> Rests(log, e, t.now) || Failing(log) == Some(e)
  {
    var (s1, parked) := ParkFailing(s, t);
    TopParks(s, t, log, before);
    forall e
      ensures e in s1.cooldowns <==> Rests(log, e, t.now) || Failing(log) == Some(e)
      ensures KeptFor(s1, log + parked, t.now, e)
    {
      assert KeptFor(s, log, before, e);
      if parked == [] {
        assert log + parked == log;
      } else {
        LastParkSnoc(log, parked[0], e);
      }
    }
    assert parked == [] ==> log + parked == log;
  }

  lemma TopParks(s: State, t: Turn, log: seq<Entry>, before: int)
    requires Invariant(s, log, before) && Exact(s, log, before)
    ensures ParkFailing(s, t).1 == FailingPark(log, t) && ParkFailing(s, t).0.quick == s.quick
    ensures ParkFailing(s, t).0.lastGood == if Failing(log).Some? then None else s.lastGood
  {
    if s.lastGood.Some? {
      assert Streak(log, s.lastGood.value) == s.fails;
    }
  }

  lemma EndActs(s: State, peer: Endpoint, t: Turn, log: seq<Entry>)
    requires Exact(s, log, t.now) && t.now <= t.end
    ensures var (s2, more) := RunSession(s, peer, t);
      more == SessionOf(Some(peer), t) && s2.quick.None? && Exact(s2, log + more, t.end)
  {
    var (s2, more) := RunSession(s, peer, t);
    var log1 := log + [more[0]];
    if t.ending == Migrated {
      assert log + more == log1 + [more[1]];
    } else {
      assert log + more == log1;
    }
    forall e
      ensures KeptFor(s2, log + more, t.end, e)
    {
      assert KeptFor(s, log, t.now, e);
      LastParkSnoc(log, more[0], e);
      if t.ending == Migrated {
        LastParkSnoc(log1, more[1], e);
      }
    }
  }

  /** The endpoint of a turn. */
  function PeerOf(first: Option<Endpoint>, log: seq<Entry>, t: Turn, excluded: set<Endpoint>): Option<Endpoint>
  {
    if first.Some? then first
    else if Remembered(log).Some? && Failing(log).None? && t.answers then Remembered(log)
    else HuntPeer(t.scans, excluded)
  }

  lemma StepActs(s: State, t: Turn, log: seq<Entry>, before: int) returns (excluded: set<Endpoint>)
    requires Invariant(s, log, before) && Exact(s, log, before) && before <= t.now && InOrder(t)
    ensures forall e :: e in excluded <==> Rests(log, e, t.now) || Failing(log) == Some(e)
    ensures var (s', more) := Step(s, t); var peer := PeerOf(s.quick, log, t, excluded);
      more == FailingPark(log, t) + SessionOf(peer, t) && Exact(s', log + more, t.end) && s'.quick.None?
  {
    var (s1, parked) := ParkFailing(s, t);
    TopActs(s, t, log, before);
    excluded := s1.cooldowns.Keys;
    var peer := Choose(s1, t);
    assert peer == PeerOf(s.quick, log, t, excluded);
    if peer.Some? {
      EndActs(s1, peer.value, t, log + parked);
      Assoc(log, parked, SessionOf(peer, t));
    } else {
      assert parked + SessionOf(peer, t) == parked;
      LaterExact(s1, log + parked, t.now, t.end);
    }
  }

  lemma LaterExact(s: State, log: seq<Entry>, now: int, end: int)
    requires Exact(s, log, now) && now <= end
    ensures Exact(s, log, end)
  {
    forall p
      ensures KeptFor(s, log, end, p)
    {
      assert KeptFor(s, log, now, p);
    }
  }

  // ---------------------------------------------------------------- whole runs

  function EndOf(turns: seq<Turn>, t0: int): int
  {
    if turns == [] then t0 else turns[|turns| - 1].end
  }

  lemma NextStep(s: State, t: Turn, log: seq<Entry>, before: int)
    requires Invariant(s, log, before) && Exact(s, log, before) && before <= t.now && InOrder(t)
    ensures var (s', more) := Step(s, t); Exact(s', log + more, t.end) && s'.quick.None?
  {
    var excluded := StepActs(s, t, log, before);
  }

  lemma {:induction false} RunExact(quick: Option<Endpoint>, turns: seq<Turn>, t0: int)
    requires Clocked(turns) && (turns != [] ==> t0 <= turns[0].now)
    ensures var (s, log) := Run(Begin(quick), turns);
      Exact(s, log, EndOf(turns, t0)) && s.quick == if turns == [] then quick else None
    decreases |turns|
  {
    if turns != [] {
      var shorter, t := turns[..|turns| - 1], turns[|turns| - 1];
      RunExact(quick, shorter, t0);
      RunKeeps(quick, shorter, t0);
      var (s, log) := Run(Begin(quick), shorter);
      NextStep(s, t, log, EndOf(shorter, t0));
    }
  }

  lemma LastTurn(turns: seq<Turn>, t: Turn, t0: int)
    requires Clocked(turns + [t]) && t0 == (if turns == [] then t.now else turns[0].now)
    ensures Clocked(turns) && InOrder(t) && EndOf(turns, t0) <= t.now
  {
    var all := turns + [t];
    assert all[|turns|] == t;
    forall i | 0 <= i < |turns|
      ensures InOrder(turns[i])
    {
      assert all[i] == turns[i];
    }
    forall i | 0 < i < |turns|
      ensures turns[i - 1].end <= turns[i].now
    {
      assert all[i - 1] == turns[i - 1] && all[i] == turns[i];
    }
    if turns != [] {
      assert all[|turns| - 1] == turns[|turns| - 1];
    }
  }

  /**
    A turn of any run, told from the log so far. It parks the endpoint that failed twice in a row,
    for the cooldown read at the top. The session is with the endpoint verified before the loop in
    the first turn, else with the remembered one if that has not failed twice and answers, else with
    the first a profile finds that neither rests nor was just parked. A session that is migrated
    parks its endpoint, from its end, for the cooldown read then.
   */
  lemma TurnActs(quick: Option<Endpoint>, turns: seq<Turn>, t: Turn) returns (excluded: set<Endpoint>)
    requires Clocked(turns + [t])
    ensures var log := Run(Begin(quick), turns).1;
      && (forall e :: e in excluded <==> Rests(log, e, t.now) || Failing(log) == Some(e))
      && var peer := PeerOf(if turns == [] then quick else None, log, t, excluded);
      Run(Begin(quick), turns + [t]).1 == log + (FailingPark(log, t) + SessionOf(peer, t))
  {
    var t0 := if turns == [] then t.now else turns[0].now;
    LastTurn(turns, t, t0);
    RunExact(quick, turns, t0);
    RunKeeps(quick, turns, t0);
    var (s, log) := Run(Begin(quick), turns);
    excluded := StepActs(s, t, log, EndOf(turns, t0));
    assert (turns + [t])[..|turns|] == turns;
  }

  // ---------------------------------------------------------------- how long a park lasts

  /** The park is that of a failing endpoint at the top of turn `t`, or of the end of its migrated session. */
  predicate TimedBy(e: Entry, t: Turn)
  {
    e.Parked? ==>
      || (e.at == t.now && e.until == t.now + t.failingRest)
      || (t.ending == Migrated && e.at == t.end && e.until == t.end + t.migratedRest)
  }

  /** What a turn adds: its parks are its own, and a migrated session is followed by the park of its endpoint. */
  ghost predicate AddedBy(more: seq<Entry>, t: Turn)
  {
    && (forall n :: 0 <= n < |more| ==> TimedBy(more[n], t))
    && (forall n :: 0 <= n < |more| && more[n].Session? && more[n].ending == Migrated ==>
          n + 1 < |more| && more[n + 1] == Parked(more[n].peer, t.end, t.end + t.migratedRest))
  }

  lemma AddedParts(log: seq<Entry>, t: Turn, peer: Option<Endpoint>)
    ensures AddedBy(FailingPark(log, t) + SessionOf(peer, t), t)
  {
    var parked, session := FailingPark(log, t), SessionOf(peer, t);
    assert AddedBy(parked, t);
    assert AddedBy(session, t);
    AddedTwice(parked, session, t);
  }

  lemma AddedTwice(a: seq<Entry>, b: seq<Entry>, t: Turn)
    requires AddedBy(a, t) && AddedBy(b, t)
    ensures AddedBy(a + b, t)
  {
    var more := a + b;
    forall n | 0 <= n < |more|
      ensures TimedBy(more[n], t)
      ensures more[n].Session? && more[n].ending == Migrated ==>
        n + 1 < |more| && more[n + 1] == Parked(more[n].peer, t.end, t.end + t.migratedRest)
    {
      if n < |a| {
        assert more[n] == a[n] && (n + 1 < |a| ==> more[n + 1] == a[n + 1]);
      } else {
        assert more[n] == b[n - |a|] && (n + 1 < |more| ==> more[n + 1] == b[n + 1 - |a|]);
      }
    }
  }

  lemma TurnAdds(quick: Option<Endpoint>, turns: seq<Turn>, t: Turn, log: seq<Entry>) returns (more: seq<Entry>)
    requires Clocked(turns + [t]) && log == Run(Begin(quick), turns).1
    ensures Run(Begin(quick), turns + [t]).1 == log + more && AddedBy(more, t)
    ensures Failing(log).Some? ==>
      more != [] && more[0] == Parked(Failing(log).value, t.now, t.now + t.failingRest)
  {
    var excluded := TurnActs(quick, turns, t);
    var peer := PeerOf(if turns == [] then quick else None, log, t, excluded);
    more := FailingPark(log, t) + SessionOf(peer, t);
    AddedParts(log, t, peer);
  }

  lemma EntryIn(log: seq<Entry>, more: seq<Entry>, all: seq<Entry>, i: nat, t: Turn)
    requires all == log + more && AddedBy(more, t) && |log| <= i < |all|
    ensures TimedBy(all[i], t)
  {
    assert all[i] == more[i - |log|];
  }

  /** Every park of a run lasts as long as the cooldown in force at the moment of its turn when it was made. */
  lemma {:induction false} ParksAreTimed(quick: Option<Endpoint>, turns: seq<Turn>, i: nat) returns (j: nat)
    requires Clocked(turns) && i < |Run(Begin(quick), turns).1|
    ensures j < |turns| && TimedBy(Run(Begin(quick), turns).1[i], turns[j])
    decreases |turns|
  {
    var shorter, t := turns[..|turns| - 1], turns[|turns| - 1];
    var log := Run(Begin(quick), shorter).1;
    if i < |log| {
      j := ParksAreTimed(quick, shorter, i);
    } else {
      assert shorter + [t] == turns;
      var more := TurnAdds(quick, shorter, t, log);
      j := |turns| - 1;
      EntryIn(log, more, Run(Begin(quick), turns).1, i, t);
    }
  }

  /**
    So every park is honoured for as long as its own turn says: a later session with the endpoint
    starts no sooner than the cooldown of turn `n` after the top of that turn, or after the end of
    its migrated session.
   */
  lemma ParksAreHonoured(quick: Option<Endpoint>, turns: seq<Turn>, i: nat, j: nat) returns (n: nat)
    requires Clocked(turns) && i < j < |Run(Begin(quick), turns).1|
    requires var log := Run(Begin(quick), turns).1; log[i].Parked? && log[j].Session? && log[i].peer == log[j].peer
    ensures n < |turns|
    ensures var park, start, t := Run(Begin(quick), turns).1[i], Run(Begin(quick), turns).1[j].start, turns[n];
      || (park.at == t.now && start >= t.now + t.failingRest)
      || (park.at == t.end && t.ending == Migrated && start >= t.end + t.migratedRest)
  {
    n := ParksAreTimed(quick, turns, i);
    ParkedEndpointsRest(quick, turns);
  }

  lemma {:induction false} LogGrows(quick: Option<Endpoint>, turns: seq<Turn>, j: nat)
    requires j <= |turns|
    ensures Run(Begin(quick), turns[..j]).1 <= Run(Begin(quick), turns).1
    decreases |turns|
  {
    if j == |turns| {
      assert turns[..j] == turns;
    } else {
      var shorter := turns[..|turns| - 1];
      LogGrows(quick, shorter, j);
      assert shorter[..j] == turns[..j];
    }
  }

  lemma ClockedPrefix(turns: seq<Turn>, j: nat)
    requires Clocked(turns) && j < |turns|
    ensures Clocked(turns[..j] + [turns[j]]) && turns[..j] + [turns[j]] == turns[..j + 1]
  {
    assert turns[..j] + [turns[j]] == turns[..j + 1];
  }

  /**
    An endpoint that has failed twice in a row when a turn begins starts no session from then on
    until the cooldown of that turn has passed.
   */
  lemma FailingRests(quick: Option<Endpoint>, turns: seq<Turn>, j: nat, p: Endpoint, k: nat)
    requires Clocked(turns) && j < |turns|
    requires var log := Run(Begin(quick), turns[..j]).1; Failing(log) == Some(p) && |log| <= k
    requires var all := Run(Begin(quick), turns).1; k < |all| && all[k].Session? && all[k].peer == p
    ensures Run(Begin(quick), turns).1[k].start >= turns[j].now + turns[j].failingRest
  {
    var log, all, t := Run(Begin(quick), turns[..j]).1, Run(Begin(quick), turns).1, turns[j];
    ClockedPrefix(turns, j);
    var more := TurnAdds(quick, turns[..j], t, log);
    LogGrows(quick, turns, j + 1);
    assert all[|log|] == more[0];
    ParkedEndpointsRest(quick, turns);
  }

  lemma ParkFollows(log: seq<Entry>, more: seq<Entry>, after: seq<Entry>, all: seq<Entry>, i: nat, t: Turn)
    requires after == log + more && AddedBy(more, t) && after <= all && |log| <= i < |after|
    requires after[i].Session? && after[i].ending == Migrated
    ensures i + 1 < |all| && all[i + 1] == Parked(after[i].peer, t.end, t.end + t.migratedRest)
  {
    assert after[i] == more[i - |log|];
    assert more[i - |log| + 1] == after[i + 1] == all[i + 1];
  }

  /** So does the endpoint of a session that was migrated, from the end of that session. */
  lemma MigratedRests(quick: Option<Endpoint>, turns: seq<Turn>, j: nat, i: nat, k: nat)
    requires Clocked(turns) && j < |turns|
    requires var before, after, all := Run(Begin(quick), turns[..j]).1, Run(Begin(quick), turns[..j + 1]).1,
                                       Run(Begin(quick), turns).1;
      && |before| <= i < |after| && after[i].Session? && after[i].ending == Migrated
      && i < k < |all| && all[k].Session? && all[k].peer == after[i].peer
    ensures Run(Begin(quick), turns).1[k].start >= turns[j].end + turns[j].migratedRest
  {
    var log, all, t := Run(Begin(quick), turns[..j]).1, Run(Begin(quick), turns).1, turns[j];
    ClockedPrefix(turns, j);
    var more := TurnAdds(quick, turns[..j], t, log);
    LogGrows(quick, turns, j + 1);
    var after := Run(Begin(quick), turns[..j + 1]).1;
    ParkFollows(log, more, after, all, i, t);
    ParkedEndpointsRest(quick, turns);
  }

  // ---------------------------------------------------------------- the profiles

  /** The endpoint a scan for one finds. */
  function ResultOf(scan: Scan, excluded: set<Endpoint>): Option<Endpoint>
  {
    var found := Hunt(scan, 1, excluded);
    if found == [] then None else Some(found[0])
  }

  function Results(scans: seq<Scan>, excluded: set<Endpoint>): (r: seq<Option<Endpoint>>)
  {
    if scans == [] then [] else [ResultOf(scans[0], excluded)] + Results(scans[1..], excluded)
  }

  function FirstFound(results: seq<Option<Endpoint>>): Option<Endpoint>
  {
    if results == [] then None else if results[0].Some? then results[0] else FirstFound(results[1..])
  }

  lemma {:induction false} FirstFoundAt(results: seq<Option<Endpoint>>, k: nat)
    requires k <= |results| && forall j :: 0 <= j < k ==> results[j].None?
    ensures FirstFound(results) == if k == |results| then None else FirstFound(results[k..])
  {
    if k > 0 {
      FirstFoundAt(results[1..], k - 1);
      assert results[1..][k - 1..] == results[k..];
    } else if results != [] {
      assert results[0..] == results;
    }
  }

  lemma {:induction false} HuntPeerIs(scans: seq<Scan>, excluded: set<Endpoint>)
    ensures HuntPeer(scans, excluded) == FirstFound(Results(scans, excluded))
  {
    if scans != [] {
      var rest := Results(scans[1..], excluded);
      HuntPeerIs(scans[1..], excluded);
      assert ([ResultOf(scans[0], excluded)] + rest)[1..] == rest;
    }
  }

  /** The endpoint is the best of the first profile whose scan finds any; there is none when no scan does. */
  lemma HuntPeerFirst(scans: seq<Scan>, excluded: set<Endpoint>, results: seq<Option<Endpoint>>, k: nat)
    requires results == Results(scans, excluded)
    requires k <= |results| && forall j :: 0 <= j < k ==> results[j].None?
    ensures k == |results| ==> HuntPeer(scans, excluded) == None
    ensures k < |results| && results[k].Some? ==> HuntPeer(scans, excluded) == results[k]
  {
    HuntPeerIs(scans, excluded);
    FirstFoundAt(results, k);
  }
}
