/** Which WireGuard endpoints a scan tries, in which order, and which of the answers it keeps. */
module Candidates {
  import opened Bytes

  /** Addresses are known by their number. */
  type Ip = nat

  datatype Endpoint = Endpoint(ip: Ip, port: nat)

  const DEFAULT_PORT: nat := 2408

  // ---------------------------------------------------------------- interleaving the ranges

  /** A host of the scan: its range and its place in it. */
  datatype Pick = Pick(range: nat, index: nat)

  function Round(ranges: seq<seq<Ip>>, i: nat, upto: nat): (r: seq<Pick>)
    requires upto <= |ranges|
  {
    if upto == 0 then []
    else Round(ranges, i, upto - 1) + if i < |ranges[upto - 1]| then [Pick(upto - 1, i)] else []
  }

  function Rounds(ranges: seq<seq<Ip>>, n: nat): (r: seq<Pick>)
  {
    if n == 0 then [] else Rounds(ranges, n - 1) + Round(ranges, n - 1, |ranges|)
  }

  function MaxLen(ranges: seq<seq<Ip>>): (m: nat)
    ensures forall j :: 0 <= j < |ranges| ==> |ranges[j]| <= m
  {
    if ranges == [] then 0
    else
      var m := MaxLen(ranges[..|ranges| - 1]);
      var last := |ranges[|ranges| - 1]|;
      assert forall j :: 0 <= j < |ranges| - 1 ==> ranges[j] == ranges[..|ranges| - 1][j];
      if m < last then last else m
  }

  predicate Picks(ranges: seq<seq<Ip>>, p: Pick)
  {
    p.range < |ranges| && p.index < |ranges[p.range]|
  }

  function HostOf(ranges: seq<seq<Ip>>, p: Pick): Ip
  {
    if Picks(ranges, p) then ranges[p.range][p.index] else 0
  }

  function Hosts(ranges: seq<seq<Ip>>, ps: seq<Pick>): (r: seq<Ip>)
    ensures |r| == |ps|
  {
    seq(|ps|, k requires 0 <= k < |ps| => HostOf(ranges, ps[k]))
  }

  /** All hosts, one of each range per round. */
  function Interleaved(ranges: seq<seq<Ip>>): seq<Pick>
  {
    Rounds(ranges, MaxLen(ranges))
  }

  method Interleave(ranges: seq<seq<Ip>>) returns (pool: seq<Ip>)
    ensures pool == Hosts(ranges, Interleaved(ranges))
  {
    pool := [];
    var maxLen := MaxLen(ranges);
    ghost var done: seq<Pick> := [];
    for i := 0 to maxLen
      invariant done == Rounds(ranges, i) && pool == Hosts(ranges, done)
    {
      for j := 0 to |ranges|
        invariant done == Rounds(ranges, i) + Round(ranges, i, j) && pool == Hosts(ranges, done)
      {
        if i < |ranges[j]| {
          pool := pool + [ranges[j][i]];
          done := done + [Pick(j, i)];
        }
      }
    }
  }

  function Times(ps: seq<Pick>, p: Pick): nat
  {
    if ps == [] then 0 else Times(ps[..|ps| - 1], p) + if ps[|ps| - 1] == p then 1 else 0
  }

  lemma {:induction false} TimesAppend(a: seq<Pick>, b: seq<Pick>, p: Pick)
    ensures Times(a + b, p) == Times(a, p) + Times(b, p)
  {
    if b == [] {
      assert a + b == a;
    } else {
      TimesAppend(a, b[..|b| - 1], p);
      assert (a + b)[..|a + b| - 1] == a + b[..|b| - 1];
    }
  }

  lemma MaybeThere(before: seq<Pick>, x: Pick, there: bool, p: Pick, times: nat, all: seq<Pick>)
    requires times == Times(before, p) && all == before + if there then [x] else []
    ensures Times(all, p) == times + if there && x == p then 1 else 0
  {
    if there {
      assert all[..|before|] == before;
    } else {
      assert all == before;
    }
  }

  lemma {:induction false} RoundTimes(ranges: seq<seq<Ip>>, i: nat, upto: nat, p: Pick)
    requires upto <= |ranges|
    ensures Times(Round(ranges, i, upto), p) == if p.index == i && p.range < upto && Picks(ranges, p) then 1 else 0
  {
    if upto > 0 {
      var before := Round(ranges, i, upto - 1);
      RoundTimes(ranges, i, upto - 1, p);
      MaybeThere(before, Pick(upto - 1, i), i < |ranges[upto - 1]|, p, Times(before, p), Round(ranges, i, upto));
    }
  }

  /** How often round `i` picks `p`. */
  function Hit(ranges: seq<seq<Ip>>, i: nat, p: Pick): nat
  {
    if p.index == i && Picks(ranges, p) then 1 else 0
  }

  /** How often the first `n` rounds do. */
  function Hits(ranges: seq<seq<Ip>>, n: nat, p: Pick): nat
  {
    if n == 0 then 0 else Hits(ranges, n - 1, p) + Hit(ranges, n - 1, p)
  }

  /** The first `n` rounds pick `p` as often as `hits` says. */
  predicate Counts(ranges: seq<seq<Ip>>, n: nat, p: Pick, hits: nat)
  {
    Times(Rounds(ranges, n), p) == hits
  }

  lemma NoRound(ranges: seq<seq<Ip>>, p: Pick)
    ensures Counts(ranges, 0, p, 0)
  {
  }

  lemma LastRound(ranges: seq<seq<Ip>>, n: nat, p: Pick, before: nat, hits: nat)
    requires n > 0 && Counts(ranges, n - 1, p, before) && hits == before + Hit(ranges, n - 1, p)
    ensures Counts(ranges, n, p, hits)
  {
    RoundTimes(ranges, n - 1, |ranges|, p);
    TimesAppend(Rounds(ranges, n - 1), Round(ranges, n - 1, |ranges|), p);
  }

  lemma {:induction false} CountedByRound(ranges: seq<seq<Ip>>, n: nat, p: Pick) returns (hits: nat)
    ensures Counts(ranges, n, p, hits) && hits == Hits(ranges, n, p)
  {
    if n == 0 {
      hits := 0;
      NoRound(ranges, p);
    } else {
      var before := CountedByRound(ranges, n - 1, p);
      hits := before + Hit(ranges, n - 1, p);
      LastRound(ranges, n, p, before, hits);
    }
  }

  lemma {:induction false} HitOnce(ranges: seq<seq<Ip>>, n: nat, p: Pick)
    ensures Hits(ranges, n, p) == if p.index < n && Picks(ranges, p) then 1 else 0
  {
    if n > 0 {
      HitOnce(ranges, n - 1, p);
    }
  }

  /** Interleaving is a permutation: every host of every range is there exactly once. */
  lemma InterleavedIsPermutation(ranges: seq<seq<Ip>>, p: Pick)
    ensures Times(Interleaved(ranges), p) == if Picks(ranges, p) then 1 else 0
  {
    var hits := CountedByRound(ranges, MaxLen(ranges), p);
    HitOnce(ranges, MaxLen(ranges), p);
  }

  // ---------------------------------------------------------------- fairness

  function Taken(ps: seq<Pick>, j: nat): nat
  {
    if ps == [] then 0 else Taken(ps[..|ps| - 1], j) + if ps[|ps| - 1].range == j then 1 else 0
  }

  lemma {:induction false} TakenAppend(a: seq<Pick>, b: seq<Pick>, j: nat)
    ensures Taken(a + b, j) == Taken(a, j) + Taken(b, j)
  {
    if b == [] {
      assert a + b == a;
    } else {
      TakenAppend(a, b[..|b| - 1], j);
      assert (a + b)[..|a + b| - 1] == a + b[..|b| - 1];
    }
  }

  lemma TakenSnoc(ps: seq<Pick>, x: Pick, j: nat)
    ensures Taken(ps + [x], j) == Taken(ps, j) + if x.range == j then 1 else 0
  {
    assert (ps + [x])[..|ps|] == ps;
  }

  lemma MaybeTaken(before: seq<Pick>, x: Pick, there: bool, j: nat, taken: nat, all: seq<Pick>)
    requires taken == Taken(before, j) && all == before + if there then [x] else []
    ensures Taken(all, j) == taken + if there && x.range == j then 1 else 0
  {
    if there {
      TakenSnoc(before, x, j);
    } else {
      assert all == before;
    }
  }

  lemma {:induction false} RoundTaken(ranges: seq<seq<Ip>>, i: nat, upto: nat, j: nat)
    requires upto <= |ranges| && j < |ranges|
    ensures Taken(Round(ranges, i, upto), j) == if j < upto && i < |ranges[j]| then 1 else 0
  {
    if upto > 0 {
      var before := Round(ranges, i, upto - 1);
      RoundTaken(ranges, i, upto - 1, j);
      MaybeTaken(before, Pick(upto - 1, i), i < |ranges[upto - 1]|, j, Taken(before, j), Round(ranges, i, upto));
    }
  }

  lemma {:induction false} RoundsTaken(ranges: seq<seq<Ip>>, n: nat, j: nat)
    requires j < |ranges|
    ensures Taken(Rounds(ranges, n), j) == Min(n, |ranges[j]|)
  {
    if n > 0 {
      var a, b := Rounds(ranges, n - 1), Round(ranges, n - 1, |ranges|);
      assert Taken(a, j) == Min(n - 1, |ranges[j]|) by { RoundsTaken(ranges, n - 1, j); }
      assert Taken(b, j) == if n - 1 < |ranges[j]| then 1 else 0 by { RoundTaken(ranges, n - 1, |ranges|, j); }
      assert Taken(a + b, j) == Taken(a, j) + Taken(b, j) by { TakenAppend(a, b, j); }
      assert Rounds(ranges, n) == a + b;
    }
  }

  lemma {:induction false} RoundPrefix(ranges: seq<seq<Ip>>, i: nat, upto: nat, k: nat) returns (m: nat)
    requires upto <= |ranges| && k <= |Round(ranges, i, upto)|
    ensures m <= upto && Round(ranges, i, upto)[..k] == Round(ranges, i, m)
  {
    var r := Round(ranges, i, upto);
    if k == |r| {
      m := upto;
    } else {
      var shorter := Round(ranges, i, upto - 1);
      assert r[..k] == shorter[..k];
      m := RoundPrefix(ranges, i, upto - 1, k);
    }
  }

  /** Any prefix of the interleaving is some full rounds and the beginning of one more. */
  lemma {:induction false} RoundsPrefix(ranges: seq<seq<Ip>>, n: nat, k: nat) returns (i: nat, m: nat)
    requires k <= |Rounds(ranges, n)|
    ensures m <= |ranges| && Rounds(ranges, n)[..k] == Rounds(ranges, i) + Round(ranges, i, m)
  {
    if n == 0 {
      i, m := 0, 0;
    } else {
      var before := Rounds(ranges, n - 1);
      if k <= |before| {
        assert Rounds(ranges, n)[..k] == before[..k];
        i, m := RoundsPrefix(ranges, n - 1, k);
      } else {
        i := n - 1;
        m := RoundPrefix(ranges, n - 1, |ranges|, k - |before|);
        assert Rounds(ranges, n)[..k] == before + Round(ranges, n - 1, |ranges|)[..k - |before|];
      }
    }
  }

  /** However early a scan stops, no range is more than one host ahead of one that has hosts left. */
  lemma Fair(ranges: seq<seq<Ip>>, k: nat, a: nat, b: nat)
    requires k <= |Interleaved(ranges)| && a < |ranges| && b < |ranges|
    requires Taken(Interleaved(ranges)[..k], a) < |ranges[a]|
    ensures Taken(Interleaved(ranges)[..k], b) <= Taken(Interleaved(ranges)[..k], a) + 1
  {
    var i, m := RoundsPrefix(ranges, MaxLen(ranges), k);
    forall j | 0 <= j < |ranges|
      ensures Taken(Interleaved(ranges)[..k], j) == Min(i, |ranges[j]|) + if j < m && i < |ranges[j]| then 1 else 0
    {
      RoundsTaken(ranges, i, j);
      RoundTaken(ranges, i, m, j);
      TakenAppend(Rounds(ranges, i), Round(ranges, i, m), j);
    }
  }

  // ---------------------------------------------------------------- the candidate list

  /** First occurrences, in order, leaving out `excluded`. */
  function Keep<T(==)>(list: seq<T>, excluded: set<T>): seq<T>
  {
    if list == [] then []
    else
      var last := list[|list| - 1];
      var kept := Keep(list[..|list| - 1], excluded);
      if last in excluded || last in kept then kept else kept + [last]
  }

  lemma {:induction false} KeepIsExact<T>(list: seq<T>, excluded: set<T>, x: T)
    ensures x in Keep(list, excluded) <==> x in list && x !in excluded
    ensures var r := Keep(list, excluded); forall i, j :: 0 <= i < j < |r| ==> r[i] != r[j]
  {
    if list != [] {
      KeepIsExact(list[..|list| - 1], excluded, x);
      assert list == list[..|list| - 1] + [list[|list| - 1]];
    }
  }

  /** What comes later in the list never disturbs what was kept before: the order is that of first offers. */
  lemma {:induction false} KeepPrefix<T>(list: seq<T>, k: nat, excluded: set<T>)
    requires k <= |list|
    ensures Keep(list[..k], excluded) <= Keep(list, excluded)
  {
    if k < |list| {
      KeepPrefix(list[..|list| - 1], k, excluded);
      assert list[..|list| - 1][..k] == list[..k];
    } else {
      assert list[..k] == list;
    }
  }

  /** The endpoints of one wave: each host on the port its place and the wave give it. */
  function Wave(ips: seq<Ip>, ports: seq<nat>, wave: nat): (r: seq<Endpoint>)
    requires ports != []
    ensures |r| == |ips|
  {
    seq(|ips|, i requires 0 <= i < |ips| => Endpoint(ips[i], ports[(i + wave) % |ports|]))
  }

  function Waves(ips: seq<Ip>, ports: seq<nat>, n: nat): seq<Endpoint>
    requires ports != []
  {
    if n == 0 then [] else Waves(ips, ports, n - 1) + Wave(ips, ports, n - 1)
  }

  function UsablePorts(ports: seq<nat>): (r: seq<nat>)
    ensures r != []
  {
    var deduped := Keep(ports, {});
    if deduped == [] then [DEFAULT_PORT] else deduped
  }

  function AtLeastOne(n: nat): nat { if n == 0 then 1 else n }

  /** The last part of `build_wg_candidates`, over the anchors and the interleaved pool. */
  function Build(ips: seq<Ip>, ports: seq<nat>, waves: nat, excluded: set<Endpoint>): seq<Endpoint>
  {
    Keep(Waves(ips, UsablePorts(ports), AtLeastOne(waves)), excluded)
  }

  /** One wave: every host is offered on its port of the wave. */
  method OfferWave(ips: seq<Ip>, ports: seq<nat>, wave: nat, excluded: set<Endpoint>,
                   kept: seq<Endpoint>, seenSoFar: set<Endpoint>, ghost offered: seq<Endpoint>)
    returns (out: seq<Endpoint>, seen: set<Endpoint>)
    requires ports != [] && kept == Keep(offered, excluded) && forall e :: e in seenSoFar <==> e in kept
    ensures out == Keep(offered + Wave(ips, ports, wave), excluded) && forall e :: e in seen <==> e in out
  {
    out, seen := kept, seenSoFar;
    ghost var now := Wave(ips, ports, wave);
    assert offered + now[..0] == offered;
    for i := 0 to |ips|
      invariant out == Keep(offered + now[..i], excluded) && forall e :: e in seen <==> e in out
    {
      var e := Endpoint(ips[i], ports[(i + wave) % |ports|]);
      WaveNext(offered, now, i, e, excluded);
      if e !in excluded && e !in seen {
        seen := seen + {e};
        out := out + [e];
      }
    }
    assert now[..|ips|] == now;
  }

  lemma WaveNext(offered: seq<Endpoint>, now: seq<Endpoint>, i: nat, e: Endpoint, excluded: set<Endpoint>)
    requires i < |now| && now[i] == e
    ensures var kept := Keep(offered + now[..i], excluded);
      Keep(offered + now[..i + 1], excluded) == if e in excluded || e in kept then kept else kept + [e]
  {
    assert now[..i + 1] == now[..i] + [e];
    Assoc(offered, now[..i], [e]);
    KeepSnoc(offered + now[..i], e, excluded);
  }

  method BuildCandidates(ips: seq<Ip>, ports: seq<nat>, waves: nat, excluded: set<Endpoint>)
    returns (out: seq<Endpoint>)
    ensures out == Build(ips, ports, waves, excluded)
  {
    var usable := UsablePorts(ports);
    var seen: set<Endpoint>;
    out, seen := [], {};
    for wave := 0 to AtLeastOne(waves)
      invariant out == Keep(Waves(ips, usable, wave), excluded) && forall e :: e in seen <==> e in out
    {
      out, seen := OfferWave(ips, usable, wave, excluded, out, seen, Waves(ips, usable, wave));
    }
  }

  lemma KeepSnoc<T>(list: seq<T>, x: T, excluded: set<T>)
    ensures Keep(list + [x], excluded) ==
      if x in excluded || x in Keep(list, excluded) then Keep(list, excluded) else Keep(list, excluded) + [x]
  {
    assert (list + [x])[..|list|] == list;
  }

  /** Wave `w` offers endpoint `e` as the host at place `i`. */
  predicate Offers(ips: seq<Ip>, ports: seq<nat>, w: nat, i: nat, e: Endpoint)
    requires ports != []
  {
    i < |ips| && e == Endpoint(ips[i], ports[(i + w) % |ports|])
  }

  lemma {:induction false} InWaves(ips: seq<Ip>, ports: seq<nat>, n: nat, e: Endpoint)
    requires ports != []
    ensures e in Waves(ips, ports, n) <==> exists w: nat, i: nat :: w < n && Offers(ips, ports, w, i, e)
  {
    if n > 0 {
      InWaves(ips, ports, n - 1, e);
      InWave(ips, ports, n - 1, e);
    }
  }

  lemma InWave(ips: seq<Ip>, ports: seq<nat>, w: nat, e: Endpoint)
    requires ports != []
    ensures e in Wave(ips, ports, w) <==> exists i: nat :: Offers(ips, ports, w, i, e)
  {
    var offered := Wave(ips, ports, w);
    if e in offered {
      var i :| 0 <= i < |offered| && offered[i] == e;
      assert Offers(ips, ports, w, i, e);
    }
    if i: nat :| Offers(ips, ports, w, i, e) {
      assert offered[i] == e;
    }
  }

  /**
    The candidates are, each once, exactly the endpoints some wave offers and the caller has not
    excluded.
   */
  lemma BuildIsExact(ips: seq<Ip>, ports: seq<nat>, waves: nat, excluded: set<Endpoint>, e: Endpoint)
    ensures e in Build(ips, ports, waves, excluded) <==>
      e !in excluded && exists w: nat, i: nat :: (w == 0 || w < waves) && Offers(ips, UsablePorts(ports), w, i, e)
    ensures var out := Build(ips, ports, waves, excluded);
      forall a, b :: 0 <= a < b < |out| ==> out[a] != out[b]
  {
    InWaves(ips, UsablePorts(ports), AtLeastOne(waves), e);
    KeepIsExact(Waves(ips, UsablePorts(ports), AtLeastOne(waves)), excluded, e);
  }

  /** The ports a scan uses are those given, each once, or the default one when none is given. */
  lemma PortsUsed(ports: seq<nat>, port: nat)
    ensures port in UsablePorts(ports) <==> port in ports || (ports == [] && port == 2408)
    ensures var r := UsablePorts(ports); forall i, j :: 0 <= i < j < |r| ==> r[i] != r[j]
  {
    KeepIsExact(ports, {}, port);
    if ports != [] {
      KeepIsExact(ports, {}, ports[0]);
    }
  }

  lemma SomeWave(i: nat, j: nat, n: nat) returns (w: nat)
    requires j < n
    ensures w < n && (i + w) % n == j
  {
    var r := i % n;
    w := if r <= j then j - r else j - r + n;
    var q := i / n;
    assert i + w == (if r <= j then q else q + 1) * n + j;
    Close((i + w) / n - (if r <= j then q else q + 1), n, j - (i + w) % n);
  }

  /** With as many waves as ports every host is tried on every port, unless the endpoint is excluded. */
  lemma EveryPortTried(ips: seq<Ip>, ports: seq<nat>, waves: nat, excluded: set<Endpoint>, i: nat, port: nat)
    requires i < |ips| && port in ports && waves >= |UsablePorts(ports)|
    requires Endpoint(ips[i], port) !in excluded
    ensures Endpoint(ips[i], port) in Build(ips, ports, waves, excluded)
  {
    var e, used := Endpoint(ips[i], port), UsablePorts(ports);
    PortsUsed(ports, port);
    var j :| 0 <= j < |used| && used[j] == port;
    var w := SomeWave(i, j, |used|);
    assert Offers(ips, used, w, i, e);
    BuildIsExact(ips, ports, waves, excluded, e);
  }

  // ---------------------------------------------------------------- keeping the best answer per address

  datatype Probe = Probe(ip: Ip, port: nat, rtt: nat)

  function Ep(p: Probe): Endpoint { Endpoint(p.ip, p.port) }

  /** The stable sort by round-trip time: `x` goes after everything that is not slower. */
  function Insert(sorted: seq<Probe>, x: Probe): (r: seq<Probe>)
  {
    if sorted == [] || sorted[|sorted| - 1].rtt <= x.rtt then sorted + [x]
    else Insert(sorted[..|sorted| - 1], x) + [sorted[|sorted| - 1]]
  }

  function SortByRtt(found: seq<Probe>): (r: seq<Probe>)
  {
    if found == [] then [] else Insert(SortByRtt(found[..|found| - 1]), found[|found| - 1])
  }

  /** The first answer of each address. */
  function FirstPerIp(ps: seq<Probe>): (r: seq<Probe>)
  {
    if ps == [] then []
    else
      var kept := FirstPerIp(ps[..|ps| - 1]);
      if First(kept, ps[|ps| - 1].ip).Some? then kept else kept + [ps[|ps| - 1]]
  }

  /** `distinct_by_ip`. */
  function DistinctByIp(found: seq<Probe>): (r: seq<Probe>)
  {
    FirstPerIp(SortByRtt(found))
  }

  function First(ps: seq<Probe>, ip: Ip): (r: Option<Probe>)
  {
    if ps == [] then None
    else
      var f := First(ps[..|ps| - 1], ip);
      if f.Some? then f else if ps[|ps| - 1].ip == ip then Some(ps[|ps| - 1]) else None
  }

  /** The best answer of an address: the earliest among those with the least round-trip time. */
  function Best(found: seq<Probe>, ip: Ip): (r: Option<Probe>)
  {
    if found == [] then None
    else
      var b := Best(found[..|found| - 1], ip);
      var x := found[|found| - 1];
      if x.ip == ip && (b.None? || x.rtt < b.value.rtt) then Some(x) else b
  }

  predicate Sorted(ps: seq<Probe>)
  {
    forall i, j :: 0 <= i < j < |ps| ==> ps[i].rtt <= ps[j].rtt
  }

  lemma FirstSnoc(ps: seq<Probe>, x: Probe, ip: Ip)
    ensures First(ps + [x], ip) ==
      if First(ps, ip).Some? then First(ps, ip) else if x.ip == ip then Some(x) else None
  {
    assert (ps + [x])[..|ps|] == ps;
  }

  lemma BelowLast(ps: seq<Probe>)
    requires Sorted(ps) && ps != []
    ensures Sorted(ps[..|ps| - 1]) && forall p :: p in ps ==> p.rtt <= ps[|ps| - 1].rtt
  {
  }

  lemma SortedSnoc(ps: seq<Probe>, x: Probe)
    requires Sorted(ps) && forall p :: p in ps ==> p.rtt <= x.rtt
    ensures Sorted(ps + [x])
  {
  }

  lemma {:induction false} InsertSorted(sorted: seq<Probe>, x: Probe)
    requires Sorted(sorted)
    ensures Sorted(Insert(sorted, x))
    ensures forall p :: p in Insert(sorted, x) <==> p in sorted || p == x
  {
    if sorted == [] {
    } else if sorted[|sorted| - 1].rtt <= x.rtt {
      BelowLast(sorted);
      SortedSnoc(sorted, x);
    } else {
      var shorter, last := sorted[..|sorted| - 1], sorted[|sorted| - 1];
      BelowLast(sorted);
      InsertSorted(shorter, x);
      assert sorted == shorter + [last];
      SortedSnoc(Insert(shorter, x), last);
    }
  }

  function Better(first: Option<Probe>, x: Probe, ip: Ip): Option<Probe>
  {
    if x.ip == ip && (first.None? || x.rtt < first.value.rtt) then Some(x) else first
  }

  /** Inserting changes the first answer of an address only when the new one is strictly better. */
  lemma {:induction false} InsertFirst(sorted: seq<Probe>, x: Probe, ip: Ip)
    requires Sorted(sorted)
    ensures First(Insert(sorted, x), ip) == Better(First(sorted, ip), x, ip)
  {
    if sorted == [] || sorted[|sorted| - 1].rtt <= x.rtt {
      FirstSnoc(sorted, x, ip);
      FirstHolds(sorted, ip);
      if sorted != [] {
        BelowLast(sorted);
      }
    } else {
      var shorter, last := sorted[..|sorted| - 1], sorted[|sorted| - 1];
      BelowLast(sorted);
      InsertFirst(shorter, x, ip);
      FirstSnoc(Insert(shorter, x), last, ip);
    }
  }

  lemma {:induction false} FirstHolds(ps: seq<Probe>, ip: Ip)
    ensures First(ps, ip).Some? ==> First(ps, ip).value in ps && First(ps, ip).value.ip == ip
    ensures First(ps, ip).None? ==> forall p :: p in ps ==> p.ip != ip
  {
    if ps != [] {
      FirstHolds(ps[..|ps| - 1], ip);
      assert ps == ps[..|ps| - 1] + [ps[|ps| - 1]];
    }
  }

  lemma {:induction false} SortSorted(found: seq<Probe>)
    ensures Sorted(SortByRtt(found))
    ensures forall p :: p in SortByRtt(found) <==> p in found
  {
    if found != [] {
      var shorter, last := found[..|found| - 1], found[|found| - 1];
      SortSorted(shorter);
      InsertSorted(SortByRtt(shorter), last);
      assert found == shorter + [last];
    }
  }

  lemma {:induction false} SortFirst(found: seq<Probe>, ip: Ip)
    ensures First(SortByRtt(found), ip) == Best(found, ip)
  {
    if found != [] {
      var shorter, last := found[..|found| - 1], found[|found| - 1];
      SortSorted(shorter);
      SortFirst(shorter, ip);
      InsertFirst(SortByRtt(shorter), last, ip);
    }
  }

  predicate OnePerIp(ps: seq<Probe>)
  {
    forall i, j :: 0 <= i < j < |ps| ==> ps[i].ip != ps[j].ip
  }

  lemma {:induction false} FirstPerIpFirst(ps: seq<Probe>, ip: Ip)
    ensures First(FirstPerIp(ps), ip) == First(ps, ip)
  {
    if ps != [] {
      var shorter, last := ps[..|ps| - 1], ps[|ps| - 1];
      FirstPerIpFirst(shorter, ip);
      FirstPerIpFirst(shorter, last.ip);
      FirstSnoc(FirstPerIp(shorter), last, ip);
    }
  }

  lemma OnePerIpSnoc(ps: seq<Probe>, x: Probe)
    requires OnePerIp(ps) && First(ps, x.ip).None?
    ensures OnePerIp(ps + [x])
  {
    FirstHolds(ps, x.ip);
    forall i, j | 0 <= i < j < |ps + [x]|
      ensures (ps + [x])[i].ip != (ps + [x])[j].ip
    {
      if j == |ps| {
        assert ps[i] in ps;
      }
    }
  }

  /** One more answer, kept only if it is the first of its address. */
  lemma KeepsFirst(shorter: seq<Probe>, last: Probe, kept: seq<Probe>)
    requires Sorted(kept) && OnePerIp(kept) && forall p :: p in kept ==> p in shorter
    requires forall p :: p in shorter ==> p.rtt <= last.rtt
    ensures First(kept, last.ip).None? ==> Sorted(kept + [last]) && OnePerIp(kept + [last])
  {
    SortedSnoc(kept, last);
    if First(kept, last.ip).None? {
      OnePerIpSnoc(kept, last);
    }
  }

  lemma {:induction false} FirstPerIpKeeps(ps: seq<Probe>)
    requires Sorted(ps)
    ensures Sorted(FirstPerIp(ps)) && OnePerIp(FirstPerIp(ps)) && forall p :: p in FirstPerIp(ps) ==> p in ps
  {
    if ps != [] {
      var shorter, last := ps[..|ps| - 1], ps[|ps| - 1];
      BelowLast(ps);
      FirstPerIpKeeps(shorter);
      assert forall p :: p in shorter ==> p in ps;
      KeepsFirst(shorter, last, FirstPerIp(shorter));
    }
  }

  lemma {:induction false} BestIsLeast(found: seq<Probe>, ip: Ip)
    ensures Best(found, ip).None? <==> forall p :: p in found ==> p.ip != ip
    ensures Best(found, ip).Some? ==>
      var b := Best(found, ip).value;
      b in found && b.ip == ip && forall p :: p in found && p.ip == ip ==> b.rtt <= p.rtt
  {
    if found != [] {
      BestIsLeast(found[..|found| - 1], ip);
      assert found == found[..|found| - 1] + [found[|found| - 1]];
    }
  }

  /**
    `distinct_by_ip` gives each address once, ascending by round-trip time, and for an address that
    answered it gives the best answer: the least round-trip time and, among equals, the earliest.
   */
  lemma DistinctIsBest(found: seq<Probe>, ip: Ip)
    ensures Sorted(DistinctByIp(found)) && OnePerIp(DistinctByIp(found))
    ensures forall p :: p in DistinctByIp(found) ==> p in found
    ensures First(DistinctByIp(found), ip) == Best(found, ip)
  {
    SortSorted(found);
    SortFirst(found, ip);
    FirstPerIpKeeps(SortByRtt(found));
    FirstPerIpFirst(SortByRtt(found), ip);
  }

  /** `distinct_by_ip` as the loop it is: a sort, then a filter with the addresses seen so far. */
  method DistinctAnswers(found: seq<Probe>) returns (r: seq<Probe>)
    ensures r == DistinctByIp(found)
  {
    var sorted := SortByRtt(found);
    var seen: set<Ip> := {};
    r := [];
    for i := 0 to |sorted|
      invariant r == FirstPerIp(sorted[..i])
      invariant forall ip :: ip in seen <==> First(r, ip).Some?
    {
      assert sorted[..i + 1][..i] == sorted[..i];
      if sorted[i].ip !in seen {
        forall ip: Ip { FirstSnoc(r, sorted[i], ip); }
        seen := seen + {sorted[i].ip};
        r := r + [sorted[i]];
      }
    }
    assert sorted[..|sorted|] == sorted;
  }

  // ---------------------------------------------------------------- a whole scan

  /**
    What a scan meets: the addresses and ports it starts from, and the probes that come back before
    the time and the number of answers it allows itself run out.
   */
  datatype Scan = Scan(ips: seq<Ip>, ports: seq<nat>, waves: nat, answers: seq<Probe>, firstHit: bool)

  /** Only candidates are probed, so only answers from candidates are verified. */
  function Verified(answers: seq<Probe>, candidates: seq<Endpoint>): seq<Probe>
  {
    if answers == [] then []
    else
      var before := Verified(answers[..|answers| - 1], candidates);
      if Ep(answers[|answers| - 1]) in candidates then before + [answers[|answers| - 1]] else before
  }

  /** The answers a scan for `want` waits for: several addresses end it as soon as there are enough. */
  function Heard(verified: seq<Probe>, want: nat): (r: seq<Probe>)
  {
    if verified == [] then []
    else
      var before := Heard(verified[..|verified| - 1], want);
      if want > 1 && |DistinctByIp(before)| >= want then before else before + [verified[|verified| - 1]]
  }

  /** The answers that count: those of endpoints the scan probes, as many as it waits for. */
  function Counted(scan: Scan, want: nat, excluded: set<Endpoint>): seq<Probe>
  {
    Heard(Verified(scan.answers, Build(scan.ips, scan.ports, scan.waves, excluded)), want)
  }

  /** `hunt_wg_endpoints`: the first hit, or the best answers of up to `want` addresses. */
  function Hunt(scan: Scan, want: nat, excluded: set<Endpoint>): seq<Endpoint>
  {
    var verified := Counted(scan, want, excluded);
    var picked := if scan.firstHit && want <= 1 then verified[..Min(1, |verified|)] else DistinctByIp(verified);
    var taken := picked[..Min(AtLeastOne(want), |picked|)];
    seq(|taken|, i requires 0 <= i < |taken| => Ep(taken[i]))
  }

  /** The first `j` answers are from enough addresses. */
  predicate Enough(verified: seq<Probe>, want: nat, j: nat)
    requires j <= |verified|
  {
    want > 1 && |DistinctByIp(verified[..j])| >= want
  }

  /** A scan for several stops with the first answer that makes them enough, and not before; others do not stop. */
  ghost predicate StopsAt(verified: seq<Probe>, want: nat, k: nat)
  {
    && k <= |verified|
    && (forall j :: 0 <= j < k ==> !Enough(verified, want, j))
    && (k < |verified| ==> Enough(verified, want, k))
  }

  lemma EnoughLonger(verified: seq<Probe>, x: Probe, want: nat, j: nat)
    requires j <= |verified|
    ensures Enough(verified + [x], want, j) <==> Enough(verified, want, j)
  {
    assert (verified + [x])[..j] == verified[..j];
  }

  lemma StopsLonger(verified: seq<Probe>, x: Probe, want: nat, k: nat)
    requires StopsAt(verified, want, k)
    ensures StopsAt(verified + [x], want, if Enough(verified, want, k) then k else k + 1)
  {
    forall j | 0 <= j <= |verified|
      ensures Enough(verified + [x], want, j) <==> Enough(verified, want, j)
    {
      EnoughLonger(verified, x, want, j);
    }
  }

  lemma {:induction false} HeardIs(verified: seq<Probe>, want: nat)
    ensures var heard := Heard(verified, want); StopsAt(verified, want, |heard|) && heard == verified[..|heard|]
  {
    if verified != [] {
      var n := |verified| - 1;
      var shorter, last := verified[..n], verified[n];
      HeardIs(shorter, want);
      var k := |Heard(shorter, want)|;
      assert verified == shorter + [last];
      StopsLonger(shorter, last, want, k);
      HeardStep(shorter, last, want, k);
    }
  }

  lemma HeardStep(shorter: seq<Probe>, last: Probe, want: nat, k: nat)
    requires StopsAt(shorter, want, k) && Heard(shorter, want) == shorter[..k]
    ensures Heard(shorter + [last], want) == (shorter + [last])[..if Enough(shorter, want, k) then k else k + 1]
  {
    assert (shorter + [last])[..|shorter|] == shorter;
    assert (shorter + [last])[..k] == shorter[..k];
    if k == |shorter| {
      assert shorter[..k] == shorter && (shorter + [last])[..k + 1] == shorter + [last];
    }
  }

  lemma HeardIsPrefix(verified: seq<Probe>, want: nat)
    ensures Heard(verified, want) <= verified && (Heard(verified, want) == [] <==> verified == [])
  {
    HeardIs(verified, want);
    assert verified[..0] == [];
    NonEmpty([]);
  }

  lemma {:induction false} VerifiedAreCandidates(answers: seq<Probe>, candidates: seq<Endpoint>)
    ensures forall p :: p in Verified(answers, candidates) ==> Ep(p) in candidates
  {
    if answers != [] {
      VerifiedAreCandidates(answers[..|answers| - 1], candidates);
    }
  }

  /** What a scan returns are answers that count. */
  lemma HuntCounted(scan: Scan, want: nat, excluded: set<Endpoint>, i: nat) returns (p: Probe)
    requires i < |Hunt(scan, want, excluded)|
    ensures p in Counted(scan, want, excluded) && Hunt(scan, want, excluded)[i] == Ep(p)
  {
    var counted := Counted(scan, want, excluded);
    var picked := if scan.firstHit && want <= 1 then counted[..Min(1, |counted|)] else DistinctByIp(counted);
    DistinctIsBest(counted, 0);
    p := picked[i];
    assert p in picked;
  }

  lemma CountedAreCandidates(scan: Scan, want: nat, excluded: set<Endpoint>, p: Probe)
    requires p in Counted(scan, want, excluded)
    ensures Ep(p) in Build(scan.ips, scan.ports, scan.waves, excluded)
  {
    var candidates := Build(scan.ips, scan.ports, scan.waves, excluded);
    VerifiedAreCandidates(scan.answers, candidates);
    HeardIsPrefix(Verified(scan.answers, candidates), want);
  }

  /** A scan never returns an excluded endpoint, nor one it did not try. */
  lemma HuntHonoursExclusions(scan: Scan, want: nat, excluded: set<Endpoint>, e: Endpoint)
    requires e in Hunt(scan, want, excluded)
    ensures e !in excluded && e in Build(scan.ips, scan.ports, scan.waves, excluded)
  {
    var hunted := Hunt(scan, want, excluded);
    var i :| 0 <= i < |hunted| && hunted[i] == e;
    var p := HuntCounted(scan, want, excluded, i);
    CountedAreCandidates(scan, want, excluded, p);
    BuildIsExact(scan.ips, scan.ports, scan.waves, excluded, e);
  }

  /** Two endpoints asked for together are on separate addresses. */
  lemma HuntSeparatesEdges(scan: Scan, want: nat, excluded: set<Endpoint>, i: nat, j: nat)
    requires want >= 2 && i < j < |Hunt(scan, want, excluded)|
    ensures Hunt(scan, want, excluded)[i].ip != Hunt(scan, want, excluded)[j].ip
  {
    var verified := Counted(scan, want, excluded);
    DistinctIsBest(verified, 0);
    var picked := DistinctByIp(verified);
    assert Hunt(scan, want, excluded)[i] == Ep(picked[i]) && Hunt(scan, want, excluded)[j] == Ep(picked[j]);
  }

  /** The endpoint is one the scan probes. */
  predicate Probed(scan: Scan, excluded: set<Endpoint>, e: Endpoint)
  {
    e in Build(scan.ips, scan.ports, scan.waves, excluded)
  }

  lemma {:induction false} VerifiedIff(answers: seq<Probe>, candidates: seq<Endpoint>, a: Probe)
    ensures a in Verified(answers, candidates) <==> a in answers && Ep(a) in candidates
  {
    if answers != [] {
      VerifiedIff(answers[..|answers| - 1], candidates, a);
      assert answers == answers[..|answers| - 1] + [answers[|answers| - 1]];
    }
  }

  lemma {:induction false} FirstVerified(answers: seq<Probe>, candidates: seq<Endpoint>, k: nat)
    requires k < |answers| && Ep(answers[k]) in candidates
    requires forall j :: 0 <= j < k ==> Ep(answers[j]) !in candidates
    ensures Verified(answers, candidates) != [] && Verified(answers, candidates)[0] == answers[k]
  {
    var shorter := answers[..|answers| - 1];
    if k < |answers| - 1 {
      FirstVerified(shorter, candidates, k);
    } else {
      NoneVerified(shorter, candidates);
    }
  }

  lemma {:induction false} NoneVerified(answers: seq<Probe>, candidates: seq<Endpoint>)
    requires forall j :: 0 <= j < |answers| ==> Ep(answers[j]) !in candidates
    ensures Verified(answers, candidates) == []
  {
    if answers != [] {
      NoneVerified(answers[..|answers| - 1], candidates);
    }
  }

  lemma NonEmpty(found: seq<Probe>)
    ensures DistinctByIp(found) == [] <==> found == []
  {
    if found != [] {
      DistinctIsBest(found, found[0].ip);
      BestIsLeast(found, found[0].ip);
      assert First(DistinctByIp(found), found[0].ip).Some?;
    }
  }

  /** A scan finds nothing exactly when no endpoint it probes answered. */
  lemma HuntEmptyIff(scan: Scan, want: nat, excluded: set<Endpoint>)
    ensures Hunt(scan, want, excluded) == [] <==>
      forall a :: a in scan.answers ==> !Probed(scan, excluded, Ep(a))
  {
    var candidates := Build(scan.ips, scan.ports, scan.waves, excluded);
    var verified := Verified(scan.answers, candidates);
    HeardIsPrefix(verified, want);
    NonEmpty(Counted(scan, want, excluded));
    if verified == [] {
      forall a | a in scan.answers
        ensures !Probed(scan, excluded, Ep(a))
      {
        VerifiedIff(scan.answers, candidates, a);
      }
    } else {
      VerifiedIff(scan.answers, candidates, verified[0]);
    }
  }

  /** Asked for one endpoint and told to stop at the first hit, a scan returns the first that answers. */
  lemma HuntFirstHit(scan: Scan, want: nat, excluded: set<Endpoint>, k: nat)
    requires scan.firstHit && want <= 1 && k < |scan.answers| && Probed(scan, excluded, Ep(scan.answers[k]))
    requires forall j :: 0 <= j < k ==> !Probed(scan, excluded, Ep(scan.answers[j]))
    ensures Hunt(scan, want, excluded) == [Ep(scan.answers[k])]
  {
    var verified := Verified(scan.answers, Build(scan.ips, scan.ports, scan.waves, excluded));
    FirstVerified(scan.answers, Build(scan.ips, scan.ports, scan.waves, excluded), k);
    HeardIs(verified, want);
    HeardIsPrefix(verified, want);
  }

  /** An answer that counts and is as quick as `a`, from `e`. */
  ghost predicate AsQuick(counted: seq<Probe>, e: Endpoint, a: Probe)
  {
    exists b :: b in counted && Ep(b) == e && b.rtt <= a.rtt
  }

  lemma {:induction false} FirstPlace(ps: seq<Probe>, ip: Ip) returns (i: nat)
    requires First(ps, ip).Some?
    ensures i < |ps| && ps[i] == First(ps, ip).value
  {
    if First(ps[..|ps| - 1], ip).Some? {
      i := FirstPlace(ps[..|ps| - 1], ip);
    } else {
      i := |ps| - 1;
    }
  }

  /** The endpoints found are the picked answers, each of which counts. */
  lemma HuntPicks(scan: Scan, want: nat, excluded: set<Endpoint>, i: nat, picked: seq<Probe>)
    requires !(scan.firstHit && want <= 1) && i < |Hunt(scan, want, excluded)|
    requires picked == DistinctByIp(Counted(scan, want, excluded))
    ensures i < |picked| && Hunt(scan, want, excluded)[i] == Ep(picked[i]) && picked[i] in Counted(scan, want, excluded)
    ensures |Hunt(scan, want, excluded)| == Min(AtLeastOne(want), |picked|)
  {
    PickedCount(Counted(scan, want, excluded), picked, i);
  }

  lemma PickedCount(counted: seq<Probe>, picked: seq<Probe>, i: nat)
    requires picked == DistinctByIp(counted)
    ensures i < |picked| ==> picked[i] in counted
  {
    DistinctIsBest(counted, 0);
  }

  /** The answers that count are of endpoints the scan probes; for a single endpoint all of those count. */
  lemma CountedAre(scan: Scan, want: nat, excluded: set<Endpoint>, a: Probe)
    ensures a in Counted(scan, want, excluded) ==> a in scan.answers && Probed(scan, excluded, Ep(a))
    ensures want <= 1 ==> (a in Counted(scan, want, excluded) <==> a in scan.answers && Probed(scan, excluded, Ep(a)))
  {
    var candidates := Build(scan.ips, scan.ports, scan.waves, excluded);
    var verified := Verified(scan.answers, candidates);
    VerifiedIff(scan.answers, candidates, a);
    HeardIs(verified, want);
    assert verified[..|verified|] == verified;
  }

  /**
    Otherwise a scan returns the quickest: for every answer that counts, the same address is among
    those returned with an answer as quick, or as many as were wanted are returned and each of them
    was as quick.
   */
  lemma HuntIsQuickest(scan: Scan, want: nat, excluded: set<Endpoint>, a: Probe)
    requires !(scan.firstHit && want <= 1) && a in Counted(scan, want, excluded)
    ensures var found, counted := Hunt(scan, want, excluded), Counted(scan, want, excluded);
      || (exists i :: 0 <= i < |found| && found[i].ip == a.ip && AsQuick(counted, found[i], a))
      || (|found| == (if want == 0 then 1 else want) && forall i :: 0 <= i < |found| ==> AsQuick(counted, found[i], a))
  {
    var counted := Counted(scan, want, excluded);
    var picked, found := DistinctByIp(counted), Hunt(scan, want, excluded);
    DistinctIsBest(counted, a.ip);
    BestIsLeast(counted, a.ip);
    var k := FirstPlace(picked, a.ip);
    assert picked[k].ip == a.ip && picked[k].rtt <= a.rtt;
    if k < |found| {
      HuntPicks(scan, want, excluded, k, picked);
      assert AsQuick(counted, found[k], a);
    } else {
      forall i | 0 <= i < |found|
        ensures AsQuick(counted, found[i], a)
      {
        HuntPicks(scan, want, excluded, i, picked);
        assert picked[i].rtt <= picked[k].rtt;
      }
    }
  }

  /** And the quickest comes first: each endpoint returned was as quick as any answer of those after it. */
  lemma HuntAscends(scan: Scan, want: nat, excluded: set<Endpoint>, i: nat, j: nat, b: Probe)
    requires !(scan.firstHit && want <= 1) && i < j < |Hunt(scan, want, excluded)|
    requires b in Counted(scan, want, excluded) && Ep(b) == Hunt(scan, want, excluded)[j]
    ensures AsQuick(Counted(scan, want, excluded), Hunt(scan, want, excluded)[i], b)
  {
    var counted := Counted(scan, want, excluded);
    var picked := DistinctByIp(counted);
    HuntPicks(scan, want, excluded, i, picked);
    HuntPicks(scan, want, excluded, j, picked);
    DistinctIsBest(counted, b.ip);
    BestIsLeast(counted, b.ip);
    FirstOfIp(picked, j);
  }

  /** Where addresses do not repeat, each answer is the first of its address. */
  lemma {:induction false} FirstOfIp(ps: seq<Probe>, j: nat)
    requires OnePerIp(ps) && j < |ps|
    ensures First(ps, ps[j].ip) == Some(ps[j])
  {
    var shorter := ps[..|ps| - 1];
    FirstHolds(shorter, ps[j].ip);
    if j < |ps| - 1 {
      FirstOfIp(shorter, j);
    }
  }

  // ---------------------------------------------------------------- the order of the hosts

  /** `p` comes before `q`: its place in its range is lower, or the same and its range comes first. */
  predicate Before(p: Pick, q: Pick)
  {
    p.index < q.index || (p.index == q.index && p.range < q.range)
  }

  predicate RoundByRound(ps: seq<Pick>)
  {
    forall a, b :: 0 <= a < b < |ps| ==> Before(ps[a], ps[b])
  }

  lemma {:induction false} RoundOrder(ranges: seq<seq<Ip>>, i: nat, upto: nat)
    requires upto <= |ranges|
    ensures RoundByRound(Round(ranges, i, upto))
    ensures forall a :: 0 <= a < |Round(ranges, i, upto)| ==>
      Round(ranges, i, upto)[a].index == i && Round(ranges, i, upto)[a].range < upto
  {
    if upto > 0 {
      RoundOrder(ranges, i, upto - 1);
    }
  }

  lemma OrderAppend(ps: seq<Pick>, qs: seq<Pick>, n: nat)
    requires RoundByRound(ps) && RoundByRound(qs)
    requires forall a :: 0 <= a < |ps| ==> ps[a].index < n
    requires forall b :: 0 <= b < |qs| ==> qs[b].index == n
    ensures RoundByRound(ps + qs) && forall a :: 0 <= a < |ps + qs| ==> (ps + qs)[a].index < n + 1
  {
    var all := ps + qs;
    forall a, b | 0 <= a < b < |all|
      ensures Before(all[a], all[b])
    {
      if a < |ps| <= b {
        assert all[a] == ps[a] && all[b] == qs[b - |ps|];
      } else if a >= |ps| {
        assert all[a] == qs[a - |ps|] && all[b] == qs[b - |ps|];
      }
    }
  }

  lemma {:induction false} RoundsOrder(ranges: seq<seq<Ip>>, n: nat)
    ensures RoundByRound(Rounds(ranges, n))
    ensures forall a :: 0 <= a < |Rounds(ranges, n)| ==> Rounds(ranges, n)[a].index < n
  {
    if n > 0 {
      RoundsOrder(ranges, n - 1);
      RoundOrder(ranges, n - 1, |ranges|);
      OrderAppend(Rounds(ranges, n - 1), Round(ranges, n - 1, |ranges|), n - 1);
    }
  }

  /** The hosts come round by round, in the order of their ranges. */
  lemma InterleavedInOrder(ranges: seq<seq<Ip>>)
    ensures RoundByRound(Interleaved(ranges))
  {
    RoundsOrder(ranges, MaxLen(ranges));
  }
}
