/** Putting TUIC packets back together from frames that arrive in any order. */
module TuicReassembly {
  import opened Bytes
  import opened TuicCodec
  import opened TuicUdp

  /** `FragmentBox`. */
  datatype Box = Box(total: nat, parts: seq<Option<seq<byte>>>, filled: nat, address: Addr)

  datatype Outcome =
    | Dropped
    | Stored
    | Delivered(packet: nat, address: Addr, payload: seq<byte>)
    | Panicked  // the index is past the end of a box made for a smaller total

  function NewBox(total: nat): Box
  {
    Box(total, seq(total, _ => None), 0, NoAddr)
  }

  function Join(parts: seq<Option<seq<byte>>>): (r: seq<byte>)
  {
    if parts == [] then [] else (if parts[0].Some? then parts[0].value else []) + Join(parts[1..])
  }

  /** The header and payload of a datagram that is a complete packet frame. */
  function Incoming(d: seq<byte>): Option<(Head, seq<byte>)>
  {
    if |d| < HEADER || d[1] != CMD_PACKET then None
    else
      var head := ParseHead(d);
      if head.None? || head.value.consumed + head.value.size > |d| then None
      else Some((head.value, d[head.value.consumed..head.value.consumed + head.value.size]))
  }

  /** A fragment is put in its box. */
  function Place(box: Box, head: Head, payload: seq<byte>): Box
    requires head.index < |box.parts|
  {
    var addressed := if head.index == 0 then box.(address := head.address) else box;
    if addressed.parts[head.index].Some? then addressed
    else addressed.(parts := addressed.parts[head.index := Some(payload)], filled := addressed.filled + 1)
  }

  function BoxFor(frags: map<nat, Box>, head: Head): Box
  {
    if head.packet in frags then frags[head.packet] else NewBox(head.total)
  }

  /** One turn of the `pump_datagrams` loop. */
  function Accept(frags: map<nat, Box>, d: seq<byte>): (map<nat, Box>, Outcome)
  {
    var incoming := Incoming(d);
    if incoming.None? then (frags, Dropped)
    else
      var (head, payload) := incoming.value;
      if head.total <= 1 then (frags, Delivered(head.packet, head.address, payload))
      else if head.index >= head.total then (frags, Dropped)
      else
        var box := BoxFor(frags, head);
        if head.index >= |box.parts| then (frags, Panicked)
        else
          var placed := Place(box, head, payload);
          if placed.filled == placed.total then
            (frags - {head.packet}, Delivered(head.packet, placed.address, Join(placed.parts)))
          else (frags[head.packet := placed], Stored)
  }

  /** The outcomes of a run of datagrams, up to a panic. */
  function Pump(frags: map<nat, Box>, ds: seq<seq<byte>>): (r: (map<nat, Box>, seq<Outcome>))
    decreases |ds|
  {
    if ds == [] then (frags, [])
    else
      var (frags', o) := Accept(frags, ds[0]);
      if o == Panicked then (frags', [o])
      else
        var (last, rest) := Pump(frags', ds[1..]);
        (last, [o] + rest)
  }

  /** The session's fragment table, filled by `pump_datagrams`. */
  class Session {
    var fragments: map<nat, Box>

    constructor ()
      ensures fragments == map[]
    {
      fragments := map[];
    }

    /** A new UDP channel starts from an empty table, so what follows it is a run from `map[]`. */
    method OpenChannel()
      modifies this
      ensures fragments == map[]
    {
      fragments := map[];
    }

    /** Handles the datagrams `dgram_recv` yields until it has no more. */
    method PumpDatagrams(received: seq<seq<byte>>) returns (outcomes: seq<Outcome>)
      modifies this
      ensures (fragments, outcomes) == Pump(old(fragments), received)
    {
      outcomes := [];
      ghost var whole := Pump(fragments, received);
      assert received[0..] == received;
      for i := 0 to |received|
        invariant whole.0 == Pump(fragments, received[i..]).0
        invariant whole.1 == outcomes + Pump(fragments, received[i..]).1
      {
        var d := received[i];
        assert received[i..][0] == d && received[i..][1..] == received[i + 1..];
        var o := HandleDatagram(d);
        if o == Panicked {
          return outcomes + [o];
        }
        ghost var rest := Pump(fragments, received[i + 1..]).1;
        assert outcomes + ([o] + rest) == (outcomes + [o]) + rest;
        outcomes := outcomes + [o];
      }
      assert received[|received|..] == [];
      assert outcomes + [] == outcomes;
    }

    method HandleDatagram(d: seq<byte>) returns (o: Outcome)
      modifies this
      ensures (fragments, o) == Accept(old(fragments), d)
    {
      var incoming := Incoming(d);
      if incoming.None? {
        return Dropped;
      }
      var (head, payload) := incoming.value;
      if head.total <= 1 {
        return Delivered(head.packet, head.address, payload);
      }
      if head.index >= head.total {
        return Dropped;
      }
      var entry := BoxFor(fragments, head);
      if head.index >= |entry.parts| {
        return Panicked;
      }
      if head.index == 0 {
        entry := entry.(address := head.address);
      }
      if entry.parts[head.index].None? {
        entry := entry.(parts := entry.parts[head.index := Some(payload)], filled := entry.filled + 1);
      }
      if entry.filled == entry.total {
        var joined := JoinParts(entry.parts);
        fragments := fragments - {head.packet};
        o := Delivered(head.packet, entry.address, joined);
      } else {
        fragments := fragments[head.packet := entry];
        o := Stored;
      }
    }

    method JoinParts(parts: seq<Option<seq<byte>>>) returns (joined: seq<byte>)
      ensures joined == Join(parts)
    {
      joined := [];
      assert parts[0..] == parts;
      for i := 0 to |parts|
        invariant joined + Join(parts[i..]) == Join(parts)
      {
        assert parts[i..][0] == parts[i] && parts[i..][1..] == parts[i + 1..];
        var bytes := if parts[i].Some? then parts[i].value else [];
        Assoc(joined, bytes, Join(parts[i + 1..]));
        joined := joined + bytes;
      }
    }
  }

  // ---------------------------------------------------------------- one packet among others

  /** A step of a run, seen from packet `p`: one of its frames, or any datagram that is not. */
  datatype Arrival = Ours(index: nat) | Other(datagram: seq<byte>)

  /** A datagram that carries no frame of packet `p`. */
  predicate Foreign(d: seq<byte>, p: nat)
  {
    Incoming(d).None? || Incoming(d).value.0.packet != p
  }

  predicate Trace(tr: seq<Arrival>, n: nat, p: nat)
  {
    forall j :: 0 <= j < |tr| ==> match tr[j]
      case Ours(i) => i < n
      case Other(d) => Foreign(d, p)
  }

  function Wire(tr: seq<Arrival>, frames: seq<seq<byte>>): (r: seq<seq<byte>>)
    requires forall j :: 0 <= j < |tr| && tr[j].Ours? ==> tr[j].index < |frames|
    ensures |r| == |tr|
  {
    seq(|tr|, j requires 0 <= j < |tr| => if tr[j].Ours? then frames[tr[j].index] else tr[j].datagram)
  }

  /** Which frames of the packet have arrived. */
  function Arrived(tr: seq<Arrival>): set<nat>
  {
    set j | 0 <= j < |tr| && tr[j].Ours? :: tr[j].index
  }

  function All(n: nat): (r: set<nat>)
    ensures |r| == n && forall i: nat :: i in r <==> i < n
  {
    if n == 0 then {} else All(n - 1) + {n - 1}
  }

  /** The places of a box that are filled. */
  function Kept(box: Box): set<nat>
  {
    set i: nat | i < |box.parts| && box.parts[i].Some?
  }

  /** A box of `n` places that lacks some. */
  predicate Open(box: Box, n: nat)
  {
    |box.parts| == box.total == n && box.filled == |Kept(box)| < n
  }

  function PartialParts(base: Box, slices: seq<seq<byte>>, got: set<nat>): (r: seq<Option<seq<byte>>>)
    requires |base.parts| == |slices|
    ensures |r| == |slices|
  {
    seq(|slices|, i requires 0 <= i < |slices| =>
      if base.parts[i].Some? then base.parts[i] else if i in got then Some(slices[i]) else None)
  }

  /** What the box `base` has become when exactly the frames `got` of a packet have arrived since. */
  function Partial(base: Box, a: Addr, slices: seq<seq<byte>>, got: set<nat>): Box
    requires |base.parts| == |slices|
  {
    Box(|slices|, PartialParts(base, slices, got), |Kept(base) + got|, if 0 in got then a else base.address)
  }

  /** The slices as they come out of `base`: what it held already stays. */
  function Mixed(base: Box, slices: seq<seq<byte>>): (r: seq<seq<byte>>)
    requires |base.parts| == |slices|
    ensures |r| == |slices|
  {
    seq(|slices|, i requires 0 <= i < |slices| => if base.parts[i].Some? then base.parts[i].value else slices[i])
  }

  predicate Holds(frags: map<nat, Box>, p: nat, base: Box, a: Addr, slices: seq<seq<byte>>, got: set<nat>)
    requires |base.parts| == |slices|
  {
    Partial(base, a, slices, got) == if p in frags then frags[p] else NewBox(|slices|)
  }

  // ---------------------------------------------------------------- lemmas

  lemma {:induction false} JoinAll(slices: seq<seq<byte>>)
    ensures Join(seq(|slices|, i requires 0 <= i < |slices| => Some(slices[i]))) == Concat(slices)
  {
    var parts := seq(|slices|, i requires 0 <= i < |slices| => Some(slices[i]));
    if slices != [] {
      var tail := slices[1..];
      JoinAll(tail);
      assert parts[1..] == seq(|tail|, i requires 0 <= i < |tail| => Some(tail[i]));
    }
  }

  lemma FullIff(got: set<nat>, n: nat)
    requires got <= All(n)
    ensures |got| == n <==> got == All(n)
  {
    if got != All(n) {
      assert All(n) == got + (All(n) - got);
    }
  }

  /** Datagrams that parse to the frames of packet `p` for `a`, slice by slice. */
  ghost predicate FramesOf(frames: seq<seq<byte>>, p: nat, a: Addr, slices: seq<seq<byte>>)
  {
    && Typed(a) && EncodeAddr(a).Some? && |frames| == |slices|
    && forall i :: 0 <= i < |frames| ==> Incoming(frames[i]) == Some((FrameHead(p, a, slices, i), slices[i]))
  }

  lemma SentFrames(p: nat, a: Addr, payload: seq<byte>, budget: nat)
    requires p < 0x1_0000 && Typed(a) && budget <= MAX_DGRAM_PAYLOAD && Sendable(a, payload, budget)
    ensures FramesOf(Frames(p, a, payload, budget), p, a, Cut(a, payload, budget))
    ensures Concat(Cut(a, payload, budget)) == payload && |Cut(a, payload, budget)| >= 1
  {
    var slices := Cut(a, payload, budget);
    var frames := Frames(p, a, payload, budget);
    FramesFit(p, a, payload, budget, 0);
    forall i | 0 <= i < |frames| ensures Incoming(frames[i]) == Some((FrameHead(p, a, slices, i), slices[i])) {
      FramesFit(p, a, payload, budget, i);
      CarriedComesIn(frames[i], FrameHead(p, a, slices, i), slices[i]);
    }
  }

  lemma CarriedComesIn(frame: seq<byte>, head: Head, slice: seq<byte>)
    requires Carries(frame, head, slice)
    ensures Incoming(frame) == Some((head, slice))
  {
    assert frame[head.consumed..|frame|] == frame[head.consumed..];
  }

  lemma PlacePart(base: Box, slices: seq<seq<byte>>, got: set<nat>, i: nat)
    requires |base.parts| == |slices| && i < |slices|
    ensures var parts := PartialParts(base, slices, got);
      && parts[i].Some? == (i in Kept(base) + got)
      && PartialParts(base, slices, got + {i}) == if parts[i].Some? then parts else parts[i := Some(slices[i])]
  {
  }

  /** Placing frame `i` adds it to the frames that have arrived. */
  lemma PlaceFrame(base: Box, p: nat, a: Addr, slices: seq<seq<byte>>, got: set<nat>, i: nat)
    requires Typed(a) && EncodeAddr(a).Some? && |base.parts| == |slices| && i < |slices|
    ensures Place(Partial(base, a, slices, got), FrameHead(p, a, slices, i), slices[i])
         == Partial(base, a, slices, got + {i})
  {
    PlacePart(base, slices, got, i);
    if i in Kept(base) + got {
      assert Kept(base) + (got + {i}) == Kept(base) + got;
    } else {
      assert Kept(base) + (got + {i}) == (Kept(base) + got) + {i};
    }
  }

  /** A new box keeps nothing. */
  lemma FreshBox(a: Addr, slices: seq<seq<byte>>)
    ensures Kept(NewBox(|slices|)) == {} && Mixed(NewBox(|slices|), slices) == slices
    ensures Partial(NewBox(|slices|), a, slices, {}) == NewBox(|slices|)
  {
    var base := NewBox(|slices|);
    assert Kept(base) == {} && Kept(base) + {} == {};
    assert PartialParts(base, slices, {}) == base.parts;
  }

  /** A box that is there already keeps what it has. */
  lemma OldBox(base: Box, a: Addr, slices: seq<seq<byte>>)
    requires Open(base, |slices|)
    ensures Partial(base, a, slices, {}) == base
  {
    assert Kept(base) + {} == Kept(base);
    assert PartialParts(base, slices, {}) == base.parts;
  }

  lemma AcceptFragment(frags: map<nat, Box>, d: seq<byte>, head: Head, payload: seq<byte>, placed: Box)
    requires Incoming(d) == Some((head, payload)) && head.index < head.total && head.total >= 2
    requires head.index < |BoxFor(frags, head).parts| && placed == Place(BoxFor(frags, head), head, payload)
    ensures Accept(frags, d) ==
      if placed.filled == placed.total then
        (frags - {head.packet}, Delivered(head.packet, placed.address, Join(placed.parts)))
      else (frags[head.packet := placed], Stored)
  {
  }

  lemma WholeBox(base: Box, slices: seq<seq<byte>>, got: set<nat>)
    requires |base.parts| == |slices| && Kept(base) + got == All(|slices|)
    ensures Join(PartialParts(base, slices, got)) == Concat(Mixed(base, slices))
  {
    var mixed, parts := Mixed(base, slices), PartialParts(base, slices, got);
    forall i | 0 <= i < |parts|
      ensures parts[i] == Some(mixed[i])
    {
      assert i in Kept(base) + got;
    }
    assert parts == seq(|mixed|, j requires 0 <= j < |mixed| => Some(mixed[j]));
    JoinAll(mixed);
  }

  lemma OursStep(frags: map<nat, Box>, p: nat, base: Box, a: Addr, slices: seq<seq<byte>>, got: set<nat>,
                 d: seq<byte>, i: nat)
    requires Typed(a) && EncodeAddr(a).Some? && 2 <= |slices| && i < |slices|
    requires |base.parts| == |slices| && got <= All(|slices|) && Holds(frags, p, base, a, slices, got)
    requires Incoming(d) == Some((FrameHead(p, a, slices, i), slices[i]))
    ensures var (frags', o) := Accept(frags, d);
      if Kept(base) + (got + {i}) == All(|slices|) then
        && o == Delivered(p, if 0 in got + {i} then a else base.address, Concat(Mixed(base, slices)))
        && p !in frags'
      else o == Stored && Holds(frags', p, base, a, slices, got + {i})
  {
    var head := FrameHead(p, a, slices, i);
    assert BoxFor(frags, head) == Partial(base, a, slices, got);
    PlaceFrame(base, p, a, slices, got, i);
    AcceptFragment(frags, d, head, slices[i], Partial(base, a, slices, got + {i}));
    FullIff(Kept(base) + (got + {i}), |slices|);
    if Kept(base) + (got + {i}) == All(|slices|) {
      WholeBox(base, slices, got + {i});
    }
  }

  lemma OtherStep(frags: map<nat, Box>, p: nat, base: Box, a: Addr, slices: seq<seq<byte>>, got: set<nat>, d: seq<byte>)
    requires |base.parts| == |slices| && Foreign(d, p) && Holds(frags, p, base, a, slices, got)
    ensures var (frags', o) := Accept(frags, d);
      Holds(frags', p, base, a, slices, got) && (o.Delivered? ==> o.packet != p)
  {
  }

  predicate About(o: Outcome, p: nat) { o.Delivered? && o.packet == p }

  /** What the receiver of packet `p` sees in a list of outcomes. */
  function Received(os: seq<Outcome>, p: nat): seq<Outcome>
  {
    if os == [] then [] else (if About(os[0], p) then [os[0]] else []) + Received(os[1..], p)
  }

  lemma ArrivedHead(tr: seq<Arrival>)
    requires tr != []
    ensures Arrived(tr) == (if tr[0].Ours? then {tr[0].index} else {}) + Arrived(tr[1..])
  {
    var tail := tr[1..];
    forall x | x in Arrived(tr) ensures x in (if tr[0].Ours? then {tr[0].index} else {}) + Arrived(tail) {
      var j :| 0 <= j < |tr| && tr[j].Ours? && tr[j].index == x;
      if j > 0 {
        assert tail[j - 1] == tr[j];
      }
    }
    forall x | x in Arrived(tail) ensures x in Arrived(tr) {
      var j :| 0 <= j < |tail| && tail[j].Ours? && tail[j].index == x;
      assert tr[j + 1] == tail[j];
    }
  }

  /** The run so far has not panicked. */
  predicate Survives(frags: map<nat, Box>, ds: seq<seq<byte>>)
  {
    Panicked !in Pump(frags, ds).1
  }

  function With(got: set<nat>, e: Arrival): set<nat>
  {
    if e.Ours? then got + {e.index} else got
  }

  lemma WithHead(got: set<nat>, tr: seq<Arrival>)
    requires tr != []
    ensures got + Arrived(tr) == With(got, tr[0]) + Arrived(tr[1..])
  {
    ArrivedHead(tr);
  }

  lemma Lacking(kept: set<nat>, got: set<nat>, more: set<nat>, n: nat)
    requires kept + (got + more) < All(n)
    ensures kept + got < All(n) && got <= All(n)
  {
    var x :| x in All(n) && x !in kept + (got + more);
    assert x !in kept + got;
  }

  lemma TraceStep(frags: map<nat, Box>, p: nat, base: Box, a: Addr, slices: seq<seq<byte>>,
                  frames: seq<seq<byte>>, got: set<nat>, e: Arrival, d: seq<byte>)
    requires FramesOf(frames, p, a, slices) && |slices| >= 2
    requires |base.parts| == |slices| && Holds(frags, p, base, a, slices, got)
    requires got <= All(|slices|) && Kept(base) + With(got, e) < All(|slices|)
    requires match e case Ours(i) => i < |slices| && d == frames[i] case Other(x) => d == x && Foreign(d, p)
    ensures var (frags', o) := Accept(frags, d); Holds(frags', p, base, a, slices, With(got, e)) && !About(o, p)
  {
    if e.Ours? {
      OursStep(frags, p, base, a, slices, got, d, e.index);
    } else {
      OtherStep(frags, p, base, a, slices, got, d);
    }
  }

  /** The first arrival of a trace that leaves the packet incomplete. */
  lemma IncompleteStep(frags: map<nat, Box>, p: nat, base: Box, a: Addr, slices: seq<seq<byte>>,
                       frames: seq<seq<byte>>, got: set<nat>, tr: seq<Arrival>, ds: seq<seq<byte>>)
    requires FramesOf(frames, p, a, slices) && |slices| >= 2
    requires |base.parts| == |slices| && Holds(frags, p, base, a, slices, got)
    requires tr != [] && Trace(tr, |slices|, p) && Kept(base) + (got + Arrived(tr)) < All(|slices|)
    requires ds == Wire(tr, frames)
    ensures var (frags', o) := Accept(frags, ds[0]);
      Holds(frags', p, base, a, slices, With(got, tr[0])) && !About(o, p)
    ensures Kept(base) + (With(got, tr[0]) + Arrived(tr[1..])) < All(|slices|)
  {
    WithHead(got, tr);
    Lacking(Kept(base), With(got, tr[0]), Arrived(tr[1..]), |slices|);
    Lacking(Kept(base), got, Arrived(tr), |slices|);
    TraceStep(frags, p, base, a, slices, frames, got, tr[0], ds[0]);
  }

  lemma WireTail(tr: seq<Arrival>, frames: seq<seq<byte>>, n: nat, p: nat)
    requires tr != [] && Trace(tr, n, p) && n == |frames|
    ensures Trace(tr[1..], n, p) && Wire(tr, frames)[1..] == Wire(tr[1..], frames)
  {
  }

  /** Nothing is delivered for a packet until its last missing frame is in. */
  lemma {:induction false} Incomplete(frags: map<nat, Box>, p: nat, base: Box, a: Addr, slices: seq<seq<byte>>,
                                     frames: seq<seq<byte>>, got: set<nat>, tr: seq<Arrival>, ds: seq<seq<byte>>)
    requires FramesOf(frames, p, a, slices) && |slices| >= 2
    requires |base.parts| == |slices| && Holds(frags, p, base, a, slices, got)
    requires Trace(tr, |slices|, p) && Kept(base) + (got + Arrived(tr)) < All(|slices|)
    requires ds == Wire(tr, frames) && Survives(frags, ds)
    ensures Holds(Pump(frags, ds).0, p, base, a, slices, got + Arrived(tr)) && Received(Pump(frags, ds).1, p) == []
    decreases |tr|
  {
    if tr == [] {
      assert got + Arrived(tr) == got;
    } else {
      WireTail(tr, frames, |slices|, p);
      IncompleteStep(frags, p, base, a, slices, frames, got, tr, ds);
      PumpHead(frags, ds, p);
      WithHead(got, tr);
      Incomplete(Accept(frags, ds[0]).0, p, base, a, slices, frames, With(got, tr[0]), tr[1..], ds[1..]);
    }
  }

  lemma PumpHead(frags: map<nat, Box>, ds: seq<seq<byte>>, p: nat)
    requires ds != [] && Survives(frags, ds)
    ensures var (frags1, o) := Accept(frags, ds[0]);
      && o != Panicked && Survives(frags1, ds[1..])
      && Pump(frags, ds) == (Pump(frags1, ds[1..]).0, [o] + Pump(frags1, ds[1..]).1)
      && Received(Pump(frags, ds).1, p) == (if About(o, p) then [o] else []) + Received(Pump(frags1, ds[1..]).1, p)
  {
    var (frags1, o) := Accept(frags, ds[0]);
    assert Pump(frags, ds).1[0] == o;
    if o != Panicked {
      var rest := Pump(frags1, ds[1..]).1;
      assert ([o] + rest)[1..] == rest;
      assert forall x :: x in rest ==> x in [o] + rest;
    }
  }

  /**
    The round trip. Frames of one packet arrive in any order, repeated at will and mixed with any
    other datagrams; the moment the last missing one is in, exactly the payload that was sent is
    delivered, once, with the address of the first frame.
   */
  lemma Reassembled(frags: map<nat, Box>, p: nat, a: Addr, payload: seq<byte>, budget: nat,
                    tr: seq<Arrival>, last: nat)
    requires p < 0x1_0000 && Typed(a) && budget <= MAX_DGRAM_PAYLOAD && Sendable(a, payload, budget)
    requires var n := |Cut(a, payload, budget)|;
      && n >= 2 && last < n && Trace(tr, n, p) && p !in frags
      && Arrived(tr) < All(n) && Arrived(tr) + {last} == All(n)
    requires |Frames(p, a, payload, budget)| == |Cut(a, payload, budget)|
    requires Survives(frags, Wire(tr, Frames(p, a, payload, budget)))
    ensures var frames := Frames(p, a, payload, budget);
      var (frags1, before) := Pump(frags, Wire(tr, frames));
      var (frags2, o) := Accept(frags1, frames[last]);
      Received(before, p) == [] && o == Delivered(p, a, payload) && p !in frags2
  {
    SentFrames(p, a, payload, budget);
    PutTogether(frags, p, a, Cut(a, payload, budget), Frames(p, a, payload, budget), tr, last);
  }

  /** The same for any datagrams that parse to the frames of the slices. */
  lemma PutTogether(frags: map<nat, Box>, p: nat, a: Addr, slices: seq<seq<byte>>, frames: seq<seq<byte>>,
                    tr: seq<Arrival>, last: nat)
    requires FramesOf(frames, p, a, slices) && |slices| >= 2 && last < |slices| && p !in frags
    requires Trace(tr, |slices|, p) && Arrived(tr) < All(|slices|) && Arrived(tr) + {last} == All(|slices|)
    requires Survives(frags, Wire(tr, frames))
    ensures var (frags1, before) := Pump(frags, Wire(tr, frames));
      var (frags2, o) := Accept(frags1, frames[last]);
      Received(before, p) == [] && o == Delivered(p, a, Concat(slices)) && p !in frags2
  {
    FreshBox(a, slices);
    NothingKept(Arrived(tr));
    NothingKept(Arrived(tr) + {last});
    FillsBox(frags, p, NewBox(|slices|), a, slices, frames, tr, last, {}, slices);
  }

  lemma NothingKept(got: set<nat>)
    ensures {} + got == got
  {
  }

  /** The same from any box the packet id may have: what it holds is delivered in place of the packet's own. */
  lemma FillsBox(frags: map<nat, Box>, p: nat, base: Box, a: Addr, slices: seq<seq<byte>>, frames: seq<seq<byte>>,
                 tr: seq<Arrival>, last: nat, kept: set<nat>, mixed: seq<seq<byte>>)
    requires FramesOf(frames, p, a, slices) && |slices| >= 2 && last < |slices|
    requires |base.parts| == |slices| && Holds(frags, p, base, a, slices, {})
    requires kept == Kept(base) && mixed == Mixed(base, slices)
    requires Trace(tr, |slices|, p) && kept + Arrived(tr) < All(|slices|)
    requires kept + (Arrived(tr) + {last}) == All(|slices|) && Survives(frags, Wire(tr, frames))
    ensures var (frags1, before) := Pump(frags, Wire(tr, frames));
      var (frags2, o) := Accept(frags1, frames[last]);
      && Received(before, p) == [] && p !in frags2
      && o == Delivered(p, if 0 in Arrived(tr) + {last} then a else base.address, Concat(mixed))
  {
    NothingKept(Arrived(tr));
    Incomplete(frags, p, base, a, slices, frames, {}, tr, Wire(tr, frames));
    OursStep(Pump(frags, Wire(tr, frames)).0, p, base, a, slices, Arrived(tr), frames[last], last);
  }

  /** A packet that fits one frame is delivered on arrival, whatever the table holds. */
  lemma DeliveredAtOnce(frags: map<nat, Box>, p: nat, a: Addr, payload: seq<byte>, budget: nat)
    requires p < 0x1_0000 && Typed(a) && budget <= MAX_DGRAM_PAYLOAD && Sendable(a, payload, budget)
    requires |Cut(a, payload, budget)| == 1
    ensures |Frames(p, a, payload, budget)| == 1
    ensures Accept(frags, Frames(p, a, payload, budget)[0]) == (frags, Delivered(p, a, payload))
  {
    SentFrames(p, a, payload, budget);
    var slices := Cut(a, payload, budget);
    assert slices == [slices[0]] && Concat(slices) == slices[0] + Concat(slices[1..]);
  }

  // ---------------------------------------------------------------- when the loop cannot panic

  /** All fragments of a packet id announce one total, as `totals` says. */
  predicate Agrees(d: seq<byte>, totals: map<nat, nat>)
  {
    Incoming(d).Some? ==>
      var head := Incoming(d).value.0;
      head.total >= 2 ==> head.packet in totals && totals[head.packet] == head.total
  }

  ghost predicate Sized(frags: map<nat, Box>, totals: map<nat, nat>)
  {
    forall q :: q in frags ==> q in totals && |frags[q].parts| == frags[q].total == totals[q]
  }

  /** One datagram panics the loop exactly when its index is past the box its packet already has. */
  lemma PanicsIff(frags: map<nat, Box>, d: seq<byte>)
    ensures Accept(frags, d).1 == Panicked <==>
      && Incoming(d).Some?
      && var head := Incoming(d).value.0;
      && 2 <= head.total && head.index < head.total
      && head.packet in frags && |frags[head.packet].parts| <= head.index
  {
  }

  /** When every packet id keeps to one total, no run of datagrams panics. */
  lemma {:induction false} AgreeingTotalsSurvive(frags: map<nat, Box>, ds: seq<seq<byte>>, totals: map<nat, nat>)
    requires Sized(frags, totals) && forall j :: 0 <= j < |ds| ==> Agrees(ds[j], totals)
    ensures Survives(frags, ds) && Sized(Pump(frags, ds).0, totals)
    decreases |ds|
  {
    if ds != [] {
      assert Agrees(ds[0], totals);
      PanicsIff(frags, ds[0]);
      AgreeingTotalsSurvive(Accept(frags, ds[0]).0, ds[1..], totals);
    }
  }

  lemma WireAgrees(frames: seq<seq<byte>>, p: nat, a: Addr, slices: seq<seq<byte>>, tr: seq<Arrival>,
                   totals: map<nat, nat>)
    requires FramesOf(frames, p, a, slices) && Trace(tr, |slices|, p)
    requires forall j :: 0 <= j < |tr| && tr[j].Other? ==> Agrees(tr[j].datagram, totals)
    ensures forall j :: 0 <= j < |tr| ==> Agrees(Wire(tr, frames)[j], totals[p := |slices|])
  {
    forall j | 0 <= j < |tr| ensures Agrees(Wire(tr, frames)[j], totals[p := |slices|]) {
      if tr[j].Ours? {
        var i := tr[j].index;
        assert Incoming(frames[i]) == Some((FrameHead(p, a, slices, i), slices[i]));
      } else {
        assert Foreign(tr[j].datagram, p) && Agrees(tr[j].datagram, totals);
      }
    }
  }

  /**
    The round trip under a condition on what is received alone: when the other packets in flight
    keep to one total each, as those of any sender do, nothing panics on the way.
   */
  lemma ReassembledAmong(frags: map<nat, Box>, p: nat, a: Addr, payload: seq<byte>, budget: nat,
                         tr: seq<Arrival>, last: nat, totals: map<nat, nat>)
    requires p < 0x1_0000 && Typed(a) && budget <= MAX_DGRAM_PAYLOAD && Sendable(a, payload, budget)
    requires var n := |Cut(a, payload, budget)|;
      && n >= 2 && last < n && Trace(tr, n, p) && p !in frags
      && Arrived(tr) < All(n) && Arrived(tr) + {last} == All(n)
    requires |Frames(p, a, payload, budget)| == |Cut(a, payload, budget)|
    requires Sized(frags, totals) && forall j :: 0 <= j < |tr| && tr[j].Other? ==> Agrees(tr[j].datagram, totals)
    ensures var frames := Frames(p, a, payload, budget);
      var (frags1, before) := Pump(frags, Wire(tr, frames));
      var (frags2, o) := Accept(frags1, frames[last]);
      Received(before, p) == [] && o == Delivered(p, a, payload) && p !in frags2
  {
    var frames, slices := Frames(p, a, payload, budget), Cut(a, payload, budget);
    SentFrames(p, a, payload, budget);
    WireAgrees(frames, p, a, slices, tr, totals);
    AgreeingTotalsSurvive(frags, Wire(tr, frames), totals[p := |slices|]);
    Reassembled(frags, p, a, payload, budget, tr, last);
  }

  // ---------------------------------------------------------------- exactly when a run panics

  /** The datagram is a fragment of packet `p` that the loop takes up. */
  predicate Fragment(d: seq<byte>, p: nat)
  {
    Incoming(d).Some? && var head := Incoming(d).value.0; head.packet == p && head.index < head.total && 2 <= head.total
  }

  function HeadOf(d: seq<byte>): Head
    requires Incoming(d).Some?
  {
    Incoming(d).value.0
  }

  /** The indices of packet `p` among the datagrams from `i` up to `j`. */
  function Seen(ds: seq<seq<byte>>, i: nat, j: nat, p: nat): set<nat>
    requires j <= |ds|
  {
    if j <= i then {}
    else Seen(ds, i, j - 1, p) + if Fragment(ds[j - 1], p) then {HeadOf(ds[j - 1]).index} else {}
  }

  /**
    Which of the first `j` datagrams opened the box packet `p` has now, if it has one: the first
    fragment after the last time as many different indices had come as its opener announced.
   */
  function Opener(ds: seq<seq<byte>>, j: nat, p: nat): (r: Option<nat>)
    requires j <= |ds|
    ensures r.Some? ==> r.value < j && Fragment(ds[r.value], p)
  {
    if j == 0 then None
    else
      var before := Opener(ds, j - 1, p);
      if !Fragment(ds[j - 1], p) then before
      else if before.None? then Some(j - 1)
      else if |Seen(ds, before.value, j, p)| == HeadOf(ds[before.value]).total then None
      else before
  }

  /** Datagram `j` is a fragment past the total of the one that opened its packet's box. */
  predicate Misfit(ds: seq<seq<byte>>, j: nat)
    requires j < |ds|
  {
    && Incoming(ds[j]).Some?
    && var head := HeadOf(ds[j]);
    && Fragment(ds[j], head.packet)
    && var opener := Opener(ds, j, head.packet);
    opener.Some? && HeadOf(ds[opener.value]).total <= head.index
  }

  /** The box of packet `p` has `total` places, of which exactly those in `seen` are filled. */
  ghost predicate BoxIs(frags: map<nat, Box>, p: nat, total: nat, seen: set<nat>)
  {
    && p in frags && frags[p].total == total && |frags[p].parts| == total
    && (forall x: nat :: x < total ==> (frags[p].parts[x].Some? <==> x in seen))
    && (forall x :: x in seen ==> x < total)
    && frags[p].filled == |seen| < total
  }

  ghost predicate Tracks(ds: seq<seq<byte>>, j: nat, frags: map<nat, Box>, p: nat)
    requires j <= |ds|
  {
    var opener := Opener(ds, j, p);
    if opener.None? then p !in frags
    else BoxIs(frags, p, HeadOf(ds[opener.value]).total, Seen(ds, opener.value, j, p))
  }

  lemma PassesBy(frags: map<nat, Box>, d: seq<byte>, p: nat)
    requires !Fragment(d, p)
    ensures var frags' := Accept(frags, d).0;
      (p in frags' <==> p in frags) && (p in frags ==> frags'[p] == frags[p])
  {
  }

  lemma OpensBox(frags: map<nat, Box>, d: seq<byte>, p: nat)
    requires Fragment(d, p) && p !in frags
    ensures Accept(frags, d).1 == Stored && BoxIs(Accept(frags, d).0, p, HeadOf(d).total, {HeadOf(d).index})
  {
    var (head, payload) := Incoming(d).value;
    AcceptFragment(frags, d, head, payload, Place(NewBox(head.total), head, payload));
  }

  lemma AddsToBox(frags: map<nat, Box>, d: seq<byte>, p: nat, total: nat, seen: set<nat>)
    requires Fragment(d, p) && BoxIs(frags, p, total, seen) && HeadOf(d).index < total
    ensures var (frags', o) := Accept(frags, d); var now := seen + {HeadOf(d).index};
      o != Panicked && if |now| == total then p !in frags' else BoxIs(frags', p, total, now)
  {
    var (head, payload) := Incoming(d).value;
    var placed := Place(frags[p], head, payload);
    AcceptFragment(frags, d, head, payload, placed);
    if head.index in seen {
      assert seen + {head.index} == seen;
    } else {
      Below(seen + {head.index}, total);
    }
  }

  lemma {:induction false} Below(seen: set<nat>, n: nat)
    requires forall x :: x in seen ==> x < n
    ensures |seen| <= n
  {
    if n > 0 {
      Below(seen - {n - 1}, n - 1);
    } else {
      assert seen == {};
    }
  }

  /** One datagram of a run, from the place its packet has to the next. */
  lemma TracksStep(ds: seq<seq<byte>>, j: nat, frags: map<nat, Box>, p: nat)
    requires j < |ds| && Tracks(ds, j, frags, p) && Accept(frags, ds[j]).1 != Panicked
    ensures Tracks(ds, j + 1, Accept(frags, ds[j]).0, p)
  {
    var opener := Opener(ds, j, p);
    if !Fragment(ds[j], p) {
      PassesBy(frags, ds[j], p);
    } else if opener.None? {
      OpensBox(frags, ds[j], p);
      FirstSeen(ds, j, p);
    } else {
      TracksOpen(ds, j, frags, p, opener.value);
    }
  }

  lemma FirstSeen(ds: seq<seq<byte>>, j: nat, p: nat)
    requires j < |ds| && Fragment(ds[j], p) && Opener(ds, j, p).None?
    ensures Opener(ds, j + 1, p) == Some(j) && Seen(ds, j, j + 1, p) == {HeadOf(ds[j]).index}
  {
    assert Seen(ds, j, j, p) == {};
  }

  lemma TracksOpen(ds: seq<seq<byte>>, j: nat, frags: map<nat, Box>, p: nat, i: nat)
    requires j < |ds| && Fragment(ds[j], p) && Opener(ds, j, p) == Some(i) && Accept(frags, ds[j]).1 != Panicked
    requires BoxIs(frags, p, HeadOf(ds[i]).total, Seen(ds, i, j, p))
    ensures Tracks(ds, j + 1, Accept(frags, ds[j]).0, p)
  {
    PanicsIff(frags, ds[j]);
    AddsToBox(frags, ds[j], p, HeadOf(ds[i]).total, Seen(ds, i, j, p));
    OpenerNext(ds, j, p, i);
  }

  lemma OpenerNext(ds: seq<seq<byte>>, j: nat, p: nat, i: nat)
    requires j < |ds| && Fragment(ds[j], p) && Opener(ds, j, p) == Some(i)
    ensures Seen(ds, i, j + 1, p) == Seen(ds, i, j, p) + {HeadOf(ds[j]).index}
    ensures Opener(ds, j + 1, p) == if |Seen(ds, i, j + 1, p)| == HeadOf(ds[i]).total then None else Some(i)
  {
  }

  lemma PumpOne(frags: map<nat, Box>, d: seq<byte>)
    ensures var (frags', o) := Accept(frags, d); Pump(frags, [d]) == (frags', [o])
  {
    var ds := [d];
    var (frags', o) := Accept(frags, d);
    assert ds[1..] == [];
    assert Pump(frags', ds[1..]) == (frags', []) && [o] + [] == [o];
  }

  lemma {:induction false} PumpSnoc(frags: map<nat, Box>, ds: seq<seq<byte>>, d: seq<byte>)
    ensures Survives(frags, ds) ==>
      var (frags', o) := Accept(Pump(frags, ds).0, d);
      Pump(frags, ds + [d]) == (frags', Pump(frags, ds).1 + [o])
    ensures !Survives(frags, ds) ==> !Survives(frags, ds + [d])
    decreases |ds|
  {
    if ds == [] {
      PumpOne(frags, d);
      assert ds + [d] == [d] && Pump(frags, ds) == (frags, []);
      assert [] + [Accept(frags, d).1] == [Accept(frags, d).1];
    } else {
      var (frags1, o) := Accept(frags, ds[0]);
      assert (ds + [d])[0] == ds[0] && (ds + [d])[1..] == ds[1..] + [d];
      if o != Panicked {
        PumpSnoc(frags1, ds[1..], d);
        var rest := Pump(frags1, ds[1..]).1;
        SameMembers(o, rest);
        SameMembers(o, Pump(frags1, ds[1..] + [d]).1);
        assert ([o] + rest) + [Accept(Pump(frags, ds).0, d).1] == [o] + (rest + [Accept(Pump(frags, ds).0, d).1]);
      } else {
        assert Pump(frags, ds).1 == [o] && Pump(frags, ds + [d]).1 == [o];
      }
    }
  }

  lemma SameMembers(o: Outcome, rest: seq<Outcome>)
    requires o != Panicked
    ensures Panicked in [o] + rest <==> Panicked in rest
  {
  }

  lemma TakeOne(ds: seq<seq<byte>>, n: nat)
    requires n < |ds|
    ensures Pump(map[], ds[..n + 1]) == Pump(map[], ds[..n] + [ds[n]])
  {
    assert ds[..n + 1] == ds[..n] + [ds[n]];
  }

  lemma {:induction false} RunTracks(ds: seq<seq<byte>>, n: nat, p: nat)
    requires n <= |ds| && Survives(map[], ds[..n])
    ensures Tracks(ds, n, Pump(map[], ds[..n]).0, p)
  {
    if n > 0 {
      TakeOne(ds, n - 1);
      PumpSnoc(map[], ds[..n - 1], ds[n - 1]);
      var o := Accept(Pump(map[], ds[..n - 1]).0, ds[n - 1]).1;
      assert o in Pump(map[], ds[..n - 1]).1 + [o];
      RunTracks(ds, n - 1, p);
      TracksStep(ds, n - 1, Pump(map[], ds[..n - 1]).0, p);
    }
  }

  /** A run that has come as far as datagram `j` panics there exactly when the datagram is a misfit. */
  lemma PanicsAtIff(ds: seq<seq<byte>>, j: nat)
    requires j < |ds| && Survives(map[], ds[..j])
    ensures Accept(Pump(map[], ds[..j]).0, ds[j]).1 == Panicked <==> Misfit(ds, j)
  {
    var frags := Pump(map[], ds[..j]).0;
    PanicsIff(frags, ds[j]);
    if Incoming(ds[j]).Some? {
      RunTracks(ds, j, HeadOf(ds[j]).packet);
    }
  }

  lemma {:induction false} SurvivesUpTo(ds: seq<seq<byte>>, n: nat)
    requires n <= |ds|
    ensures Survives(map[], ds[..n]) <==> forall j :: 0 <= j < n ==> !Misfit(ds, j)
  {
    if n > 0 {
      SurvivesUpTo(ds, n - 1);
      TakeOne(ds, n - 1);
      PumpSnoc(map[], ds[..n - 1], ds[n - 1]);
      if Survives(map[], ds[..n - 1]) {
        PanicsAtIff(ds, n - 1);
      }
    }
  }

  /** A run of datagrams from the start panics exactly when one of them is a misfit. */
  lemma RunPanicsIff(ds: seq<seq<byte>>)
    ensures Survives(map[], ds) <==> forall j :: 0 <= j < |ds| ==> !Misfit(ds, j)
  {
    SurvivesUpTo(ds, |ds|);
    assert ds[..|ds|] == ds;
  }

  /** Such runs exist: two fragments of one packet id, the second past the total of the first. */
  lemma MixedTotalsPanic(p: nat, index: nat, total: nat, index': nat, total': nat, x: seq<byte>, y: seq<byte>)
    requires p < 0x1_0000 && |x| < 0x1_0000 && |y| < 0x1_0000
    requires 2 <= total && index < total <= index' < total' < 256
    ensures var d, d' := BuildPacket(p, index, total, [ADDR_NONE], x), BuildPacket(p, index', total', [ADDR_NONE], y);
      Pump(map[], [d, d']).1 == [Stored, Panicked]
  {
    var d, d' := BuildPacket(p, index, total, [ADDR_NONE], x), BuildPacket(p, index', total', [ADDR_NONE], y);
    BareFragment(p, index, total, x);
    BareFragment(p, index', total', y);
    OpensBox(map[], d, p);
    PanicsIff(Accept(map[], d).0, d');
    var ds: seq<seq<byte>> := [d, d'];
    assert ds[0] == d && ds[1..] == [d'];
  }

  lemma BareFragment(p: nat, index: nat, total: nat, payload: seq<byte>)
    requires p < 0x1_0000 && index < total < 256 && 2 <= total && |payload| < 0x1_0000
    ensures var d := BuildPacket(p, index, total, [ADDR_NONE], payload);
      Fragment(d, p) && HeadOf(d).index == index && HeadOf(d).total == total
  {
    assert EncodeAddr(NoAddr) == Some([ADDR_NONE]);
    PacketRoundTrip(p, index, total, NoAddr, payload);
  }

  // ---------------------------------------------------------------- fragments that come too late

  /** The box a run has left packet `p` lacks some places, and keeps the indices seen since it was opened. */
  lemma StaleBox(ds: seq<seq<byte>>, p: nat, i: nat)
    requires Survives(map[], ds) && Opener(ds, |ds|, p) == Some(i)
    ensures var frags := Pump(map[], ds).0;
      p in frags && Open(frags[p], HeadOf(ds[i]).total) && Kept(frags[p]) == Seen(ds, i, |ds|, p)
  {
    assert ds[..|ds|] == ds;
    RunTracks(ds, |ds|, p);
    assert Kept(Pump(map[], ds).0[p]) == Seen(ds, i, |ds|, p);
  }

  /** The indices that are in the box of packet `p` after a run. */
  function Stale(ds: seq<seq<byte>>, p: nat): set<nat>
  {
    var opener := Opener(ds, |ds|, p);
    if opener.None? then {} else Seen(ds, opener.value, |ds|, p)
  }

  /**
    The round trip after any run of datagrams. With no box open for its id, the packet comes out as
    it was sent; with one open for as many fragments, the places filled there are not its own.
   */
  lemma ReassembledAfter(ds: seq<seq<byte>>, p: nat, a: Addr, slices: seq<seq<byte>>, frames: seq<seq<byte>>,
                         tr: seq<Arrival>, last: nat)
    requires Survives(map[], ds) && FramesOf(frames, p, a, slices) && |slices| >= 2 && last < |slices|
    requires var opener := Opener(ds, |ds|, p); opener.Some? ==> HeadOf(ds[opener.value]).total == |slices|
    requires Trace(tr, |slices|, p) && Stale(ds, p) + Arrived(tr) < All(|slices|)
    requires Stale(ds, p) + (Arrived(tr) + {last}) == All(|slices|)
    requires Survives(Pump(map[], ds).0, Wire(tr, frames))
    ensures var frags := Pump(map[], ds).0; var (frags1, before) := Pump(frags, Wire(tr, frames));
      var o := Accept(frags1, frames[last]).1;
      && Received(before, p) == []
      && if Opener(ds, |ds|, p).None? then p !in frags && o == Delivered(p, a, Concat(slices))
         else
           && p in frags && |frags[p].parts| == |slices|
           && o.Delivered? && o.payload == Concat(Mixed(frags[p], slices))
           && o.address == if 0 in Arrived(tr) + {last} then a else frags[p].address
  {
    var frags, opener := Pump(map[], ds).0, Opener(ds, |ds|, p);
    if opener.None? {
      assert ds[..|ds|] == ds;
      RunTracks(ds, |ds|, p);
      assert Stale(ds, p) + Arrived(tr) == Arrived(tr);
      assert Stale(ds, p) + (Arrived(tr) + {last}) == Arrived(tr) + {last};
      PutTogether(frags, p, a, slices, frames, tr, last);
    } else {
      StaleBox(ds, p, opener.value);
      OldBox(frags[p], a, slices);
      FillsBox(frags, p, frags[p], a, slices, frames, tr, last, Stale(ds, p), Mixed(frags[p], slices));
    }
  }

  /** A fragment whose id has no box opens one that holds it alone. */
  lemma OpensWith(frags: map<nat, Box>, d: seq<byte>, p: nat, slices: seq<seq<byte>>)
    requires Fragment(d, p) && p !in frags && HeadOf(d).total == |slices|
    ensures var (head, payload) := Incoming(d).value; var box := Place(NewBox(head.total), head, payload);
      && Accept(frags, d) == (frags[p := box], Stored)
      && Open(box, |slices|) && Kept(box) == {head.index} && Mixed(box, slices) == slices[head.index := payload]
      && box.address == if head.index == 0 then head.address else NoAddr
  {
    var (head, payload) := Incoming(d).value;
    var box := Place(NewBox(head.total), head, payload);
    AcceptFragment(frags, d, head, payload, box);
    assert Kept(box) == {head.index};
    assert Mixed(box, slices) == slices[head.index := payload];
  }

  lemma {:induction false} ConcatWith(slices: seq<seq<byte>>, k: nat, y: seq<byte>)
    requires k < |slices|
    ensures Concat(slices[k := y]) == Concat(slices[..k]) + (y + Concat(slices[k + 1..]))
  {
    var now := slices[k := y];
    if k == 0 {
      assert now[1..] == slices[1..] && slices[..0] == [];
      assert [] + (y + Concat(slices[1..])) == y + Concat(slices[1..]);
    } else {
      assert now[1..] == slices[1..][k - 1 := y] && slices[1..][..k - 1] == slices[..k][1..];
      assert slices[1..][k..] == slices[k + 1..];
      ConcatWith(slices[1..], k - 1, y);
      Assoc(slices[0], Concat(slices[..k][1..]), y + Concat(slices[k + 1..]));
    }
  }

  lemma SameMiddle(before: seq<byte>, x: seq<byte>, y: seq<byte>, after: seq<byte>)
    ensures before + (x + after) == before + (y + after) <==> x == y
  {
    var u, v := before + (x + after), before + (y + after);
    if u == v {
      assert |x| == |y|;
      assert u[|before|..|before| + |x|] == x && v[|before|..|before| + |y|] == y;
    }
  }

  lemma ConcatWithIff(slices: seq<seq<byte>>, k: nat, y: seq<byte>)
    requires k < |slices|
    ensures Concat(slices[k := y]) == Concat(slices) <==> y == slices[k]
  {
    ConcatWith(slices, k, y);
    ConcatWith(slices, k, slices[k]);
    assert slices[k := slices[k]] == slices;
    SameMiddle(Concat(slices[..k]), y, slices[k], Concat(slices[k + 1..]));
  }

  /**
    A duplicate that comes after its packet was delivered opens a box of its own. A later packet with
    that id and as many fragments is then delivered with the duplicate in place of its own slice: it
    comes out as it was sent exactly when the two are the same.
   */
  lemma LateDuplicate(frags: map<nat, Box>, d: seq<byte>, p: nat, a: Addr, slices: seq<seq<byte>>,
                      frames: seq<seq<byte>>, tr: seq<Arrival>, last: nat)
    requires FramesOf(frames, p, a, slices) && |slices| >= 2 && last < |slices| && p !in frags
    requires Fragment(d, p) && HeadOf(d).total == |slices| && Trace(tr, |slices|, p)
    requires {HeadOf(d).index} + Arrived(tr) < All(|slices|)
    requires {HeadOf(d).index} + (Arrived(tr) + {last}) == All(|slices|)
    requires Survives(Accept(frags, d).0, Wire(tr, frames))
    ensures var (head, late) := Incoming(d).value; var (frags1, o1) := Accept(frags, d);
      var (frags2, before) := Pump(frags1, Wire(tr, frames)); var (frags3, o) := Accept(frags2, frames[last]);
      var address := if 0 in Arrived(tr) + {last} then a else head.address;
      && o1 == Stored && Received(before, p) == [] && p !in frags3
      && o == Delivered(p, address, Concat(slices[head.index := late]))
      && (o == Delivered(p, a, Concat(slices)) <==> late == slices[head.index] && address == a)
  {
    var (head, late) := Incoming(d).value;
    var box := Place(NewBox(head.total), head, late);
    OpensWith(frags, d, p, slices);
    OldBox(box, a, slices);
    FillsBox(frags[p := box], p, box, a, slices, frames, tr, last, {head.index}, slices[head.index := late]);
    assert head.index != 0 ==> 0 in {head.index} + (Arrived(tr) + {last});
    ConcatWithIff(slices, head.index, late);
  }

  /** Two fragments with no address. */
  function Pair(p: nat, x: seq<byte>, y: seq<byte>): (r: seq<seq<byte>>)
    requires p < 0x1_0000 && |x| < 0x1_0000 && |y| < 0x1_0000
  {
    [BuildPacket(p, 0, 2, [ADDR_NONE], x), BuildPacket(p, 1, 2, [ADDR_NONE], y)]
  }

  lemma PairFrames(p: nat, x: seq<byte>, y: seq<byte>)
    requires p < 0x1_0000 && |x| < 0x1_0000 && |y| < 0x1_0000
    ensures FramesOf(Pair(p, x, y), p, NoAddr, [x, y])
  {
    var frames, slices := Pair(p, x, y), [x, y];
    assert EncodeAddr(NoAddr) == Some([ADDR_NONE]);
    FrameParses(p, NoAddr, slices, 0);
    CarriedComesIn(frames[0], FrameHead(p, NoAddr, slices, 0), x);
    FrameParses(p, NoAddr, slices, 1);
    CarriedComesIn(frames[1], FrameHead(p, NoAddr, slices, 1), y);
  }

  lemma ConcatPair(x: seq<byte>, y: seq<byte>)
    ensures Concat([x, y]) == x + y
  {
    assert [x, y][1..] == [y] && [y][1..] == [];
    assert Concat([y]) == y + [] == y;
  }

  lemma OneOfTwo()
    ensures {} + ({} + {0}) == {} + {0} == {0} != All(2)
    ensures {} + ({0} + {1}) == {0} + {1} == All(2)
    ensures {1} + {} == {1} < All(2) && {1} + ({} + {0}) == All(2) && {} <= All(2) && {0} <= All(2)
  {
    assert 1 in All(2) && 0 in All(2);
  }

  lemma PairDelivered(p: nat, x: seq<byte>, y: seq<byte>, table: map<nat, Box>)
    requires p < 0x1_0000 && |x| < 0x1_0000 && |y| < 0x1_0000 && p !in table
    ensures var (frags, o) := Accept(table, Pair(p, x, y)[0]); var (frags', o') := Accept(frags, Pair(p, x, y)[1]);
      o == Stored && o' == Delivered(p, NoAddr, x + y) && p !in frags'
  {
    var frames, base := Pair(p, x, y), NewBox(2);
    PairFrames(p, x, y);
    FreshBox(NoAddr, [x, y]);
    ConcatPair(x, y);
    OneOfTwo();
    OursStep(table, p, base, NoAddr, [x, y], {}, frames[0], 0);
    OursStep(Accept(table, frames[0]).0, p, base, NoAddr, [x, y], {0}, frames[1], 1);
  }

  lemma DuplicateKept(p: nat, y: seq<byte>, z: seq<byte>, table: map<nat, Box>)
    requires p < 0x1_0000 && |y| < 0x1_0000 && |z| < 0x1_0000 && p !in table
    ensures var (frags, o) := Accept(table, Pair(p, z, y)[1]); var (frags', o') := Accept(frags, Pair(p, z, y)[0]);
      o == Stored && o' == Delivered(p, NoAddr, z + y)
  {
    var frames, tr: seq<Arrival> := Pair(p, z, y), [];
    PairFrames(p, z, y);
    ConcatPair(z, y);
    assert Wire(tr, frames) == [] && Arrived(tr) == {};
    assert Incoming(frames[1]) == Some((FrameHead(p, NoAddr, [z, y], 1), y));
    OneOfTwo();
    assert [z, y][1 := y] == [z, y];
    LateDuplicate(table, frames[1], p, NoAddr, [z, y], frames, tr, 0);
  }

  lemma PumpCons(frags: map<nat, Box>, d: seq<byte>, rest: seq<seq<byte>>)
    requires Accept(frags, d).1 != Panicked
    ensures Pump(frags, [d] + rest).1 == [Accept(frags, d).1] + Pump(Accept(frags, d).0, rest).1
  {
    assert ([d] + rest)[1..] == rest;
  }

  /** Such runs exist: the second fragment of one packet, repeated, ends up in the next with its id. */
  lemma DuplicateMixes(p: nat, x: seq<byte>, y: seq<byte>, z: seq<byte>)
    requires p < 0x1_0000 && |x| < 0x1_0000 && |y| < 0x1_0000 && |z| < 0x1_0000
    ensures var a0, a1, b0 := Pair(p, x, y)[0], Pair(p, x, y)[1], Pair(p, z, y)[0];
      Pump(map[], [a0, a1, a1, b0]).1 == [Stored, Delivered(p, NoAddr, x + y), Stored, Delivered(p, NoAddr, z + y)]
  {
    var a0, a1, b0 := Pair(p, x, y)[0], Pair(p, x, y)[1], Pair(p, z, y)[0];
    var frags := Accept(map[], a0).0;
    var emptied := Accept(frags, a1).0;
    PairDelivered(p, x, y, map[]);
    DuplicateKept(p, y, z, emptied);
    PumpOne(Accept(emptied, a1).0, b0);
    PumpCons(emptied, a1, [b0]);
    PumpCons(frags, a1, [a1] + [b0]);
    PumpCons(map[], a0, [a1] + ([a1] + [b0]));
    assert [a0, a1, a1, b0] == [a0] + ([a1] + ([a1] + [b0]));
  }

  // ---------------------------------------------------------------- what is dropped

  /** The datagram is a packet frame with its whole payload: version five, command two, an address, enough bytes. */
  predicate IsFrame(d: seq<byte>)
  {
    && |d| >= 10 && d[0] == 5 && d[1] == 2
    && var a := DecodeAddr(d[10..]);
    a.Some? && 10 + a.value.1 + (d[8] as int * 256 + d[9] as int) <= |d|
  }

  /**
    A datagram is dropped exactly when it is no such frame, or is a fragment whose index is not below
    its own total; a frame of a total below two is delivered as it is.
   */
  lemma DroppedIff(frags: map<nat, Box>, d: seq<byte>)
    ensures Accept(frags, d).1 == Dropped <==> !IsFrame(d) || (d[6] >= 2 && d[7] >= d[6])
    ensures Accept(frags, d).1 == Dropped ==> Accept(frags, d).0 == frags
    ensures IsFrame(d) && d[6] <= 1 ==>
      var (a, n) := DecodeAddr(d[10..]).value; var size := d[8] as int * 256 + d[9] as int;
      Accept(frags, d) == (frags, Delivered(d[4] as int * 256 + d[5] as int, a, d[10 + n..10 + n + size]))
  {
    HeadIff(d);
  }
}
