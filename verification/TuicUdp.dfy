/**
  UDP over TUIC: cutting a payload into packet frames, and putting frames that arrive in any order
  back together.
 */
module TuicUdp {
  import opened Bytes
  import opened TuicCodec

  const MAX_DGRAM_PAYLOAD: nat := 65535

  // ---------------------------------------------------------------- cutting

  /** Consecutive pieces of at most `n` bytes. */
  function Chunks(p: seq<byte>, n: nat): (r: seq<seq<byte>>)
    requires n > 0
    decreases |p|
  {
    if p == [] then [] else [p[..Min(n, |p|)]] + Chunks(p[Min(n, |p|)..], n)
  }

  /** The pieces `send_udp` cuts a payload into: the first shares its frame with the address. */
  function Slices(payload: seq<byte>, first: nat, rest: nat): (r: seq<seq<byte>>)
    requires rest > 0
  {
    if |payload| <= first then [payload] else [payload[..first]] + Chunks(payload[first..], rest)
  }

  function DivCeil(a: nat, b: nat): nat
    requires b > 0
  {
    (a + b - 1) / b
  }

  function FrameAddress(address: seq<byte>, index: nat): seq<byte>
  {
    if index == 0 then address else [ADDR_NONE]
  }

  /** `budget` as `send_udp` takes it from the connection. */
  function Budget(writable: Option<nat>): nat
  {
    Min(if writable.Some? then writable.value else MAX_DGRAM_PAYLOAD, MAX_DGRAM_PAYLOAD)
  }

  function Packets(packet: nat, address: seq<byte>, slices: seq<seq<byte>>): (r: seq<seq<byte>>)
    requires packet < 0x1_0000 && |slices| <= 255
    ensures |r| == |slices|
  {
    PacketsUpTo(packet, address, slices, |slices|)
  }

  /** The frames of the first `n` slices. */
  function PacketsUpTo(packet: nat, address: seq<byte>, slices: seq<seq<byte>>, n: nat): (r: seq<seq<byte>>)
    requires packet < 0x1_0000 && n <= |slices| <= 255
    ensures |r| == n
  {
    if n == 0 then []
    else
      PacketsUpTo(packet, address, slices, n - 1)
      + [BuildPacket(packet, n - 1, |slices|, FrameAddress(address, n - 1), slices[n - 1])]
  }

  lemma {:induction false} PacketAt(packet: nat, address: seq<byte>, slices: seq<seq<byte>>, n: nat, i: nat)
    requires packet < 0x1_0000 && i < n <= |slices| <= 255
    ensures PacketsUpTo(packet, address, slices, n)[i]
         == BuildPacket(packet, i, |slices|, FrameAddress(address, i), slices[i])
    ensures PacketsUpTo(packet, address, slices, n)[..i] == PacketsUpTo(packet, address, slices, i)
  {
    var before := PacketsUpTo(packet, address, slices, n - 1);
    var all := PacketsUpTo(packet, address, slices, n);
    if i < n - 1 {
      PacketAt(packet, address, slices, n - 1, i);
      assert all[..i] == before[..i];
    } else {
      assert all[..i] == before;
    }
  }

  /** The pieces a payload for `a` is cut into under a datagram budget. */
  function Cut(a: Addr, payload: seq<byte>, budget: nat): (r: seq<seq<byte>>)
    requires Typed(a) && EncodeAddr(a).Some? && budget > HEADER + |EncodeAddr(a).value|
  {
    Slices(payload, budget - HEADER - |EncodeAddr(a).value|, budget - HEADER - 1)
  }

  predicate Sendable(a: Addr, payload: seq<byte>, budget: nat)
    requires Typed(a)
  {
    EncodeAddr(a).Some? && budget > HEADER + |EncodeAddr(a).value| && |Cut(a, payload, budget)| <= 255
  }

  /** The frames of the slices, unless they are too many. */
  function Numbered(packet: nat, address: seq<byte>, slices: seq<seq<byte>>): seq<seq<byte>>
    requires packet < 0x1_0000
  {
    if |slices| > 255 then [] else Packets(packet, address, slices)
  }

  /** The frames for a target encoded as `e`; none when the packet cannot be sent. */
  function FramesFor(packet: nat, e: Option<seq<byte>>, payload: seq<byte>, budget: nat): seq<seq<byte>>
    requires packet < 0x1_0000 && (e.Some? ==> 0 < |e.value|)
  {
    if e.None? || budget <= HEADER + |e.value| then []
    else Numbered(packet, e.value, Slices(payload, budget - HEADER - |e.value|, budget - HEADER - 1))
  }

  /** All frames `send_udp` would hand to the connection. */
  function Frames(packet: nat, a: Addr, payload: seq<byte>, budget: nat): (r: seq<seq<byte>>)
    requires packet < 0x1_0000 && Typed(a)
  {
    FramesFor(packet, EncodeAddr(a), payload, budget)
  }

  lemma EmptyIff(packet: nat, address: seq<byte>, payload: seq<byte>, first: nat, rest: nat)
    requires packet < 0x1_0000 && rest > 0
    ensures Numbered(packet, address, Slices(payload, first, rest)) == [] <==> |Slices(payload, first, rest)| > 255
  {
    var slices := Slices(payload, first, rest);
    assert |slices| > 0;
    if |slices| <= 255 {
      assert |Packets(packet, address, slices)| == |slices|;
    }
  }

  lemma SlicesCount(payload: seq<byte>, first: nat, rest: nat)
    requires rest > 0 && |payload| > first
    ensures |Slices(payload, first, rest)| == 1 + DivCeil(|payload| - first, rest)
  {
    ChunksCount(payload[first..], rest);
  }

  lemma OneFrame(packet: nat, address: seq<byte>, payload: seq<byte>, first: nat, rest: nat)
    requires packet < 0x1_0000 && rest > 0 && |payload| <= first
    ensures Numbered(packet, address, Slices(payload, first, rest)) == [BuildPacket(packet, 0, 1, address, payload)]
  {
    var slices := [payload];
    assert PacketsUpTo(packet, address, slices, 0) == [];
    assert PacketsUpTo(packet, address, slices, 1) == [BuildPacket(packet, 0, 1, address, payload)];
  }

  method CountFragments(payload: seq<byte>, maxFirst: nat, maxRest: nat) returns (total: nat)
    requires maxRest > 0 && |payload| > maxFirst
    ensures total == |Slices(payload, maxFirst, maxRest)|
  {
    var extra := DivCeil(|payload| - maxFirst, maxRest);
    total := 1 + extra;
    SlicesCount(payload, maxFirst, maxRest);
  }

  /** `send_udp`: `accepts` is how many datagrams the connection takes before one fails. */
  method SendUdp(packet: nat, a: Addr, payload: seq<byte>, writable: Option<nat>, accepts: nat)
    returns (sent: seq<seq<byte>>)
    requires packet < 0x1_0000 && Typed(a)
    ensures var all := Frames(packet, a, payload, Budget(writable)); sent == all[..Min(accepts, |all|)]
  {
    sent := SendTo(packet, EncodeAddr(a), payload, Budget(writable), accepts);
  }

  method SendTo(packet: nat, encoded: Option<seq<byte>>, payload: seq<byte>, budget: nat, accepts: nat)
    returns (sent: seq<seq<byte>>)
    requires packet < 0x1_0000 && (encoded.Some? ==> 0 < |encoded.value|)
    ensures var all := FramesFor(packet, encoded, payload, budget); sent == all[..Min(accepts, |all|)]
  {
    sent := [];
    if encoded.None? {
      return;
    }
    var address := encoded.value;
    if budget <= HEADER + |address| {
      return;
    }
    sent := SendWithin(packet, address, payload, budget, accepts, FramesFor(packet, encoded, payload, budget));
  }

  /** The rest of `send_udp`, once the address fits: one frame, or fragments. */
  method SendWithin(packet: nat, address: seq<byte>, payload: seq<byte>, budget: nat, accepts: nat,
                    ghost all: seq<seq<byte>>)
    returns (sent: seq<seq<byte>>)
    requires packet < 0x1_0000 && 0 < |address| && HEADER + |address| < budget
    requires all == Numbered(packet, address, Slices(payload, budget - HEADER - |address|, budget - HEADER - 1))
    ensures sent == all[..Min(accepts, |all|)]
  {
    var maxFirst, maxRest := budget - HEADER - |address|, budget - HEADER - 1;
    sent := [];
    if |payload| <= maxFirst {
      OneFrame(packet, address, payload, maxFirst, maxRest);
      sent := SendWhole(packet, address, payload, accepts);
      return;
    }
    var total := CountFragments(payload, maxFirst, maxRest);
    if total > 255 {
      return;
    }
    sent := SendFragments(packet, address, payload, maxFirst, maxRest, total, accepts);
  }

  method SendWhole(packet: nat, address: seq<byte>, payload: seq<byte>, accepts: nat) returns (sent: seq<seq<byte>>)
    requires packet < 0x1_0000
    ensures sent == [BuildPacket(packet, 0, 1, address, payload)][..Min(accepts, 1)]
  {
    var frame := BuildPacket(packet, 0, 1, address, payload);
    sent := if accepts > 0 then [frame] else [];
  }

  /** Where the fragment loop stands before fragment `index`. */
  predicate AtSlice(payload: seq<byte>, first: nat, rest: nat, index: nat, offset: nat)
    requires rest > 0
  {
    var slices := Slices(payload, first, rest);
    && offset <= |payload| && index <= |slices|
    && if index == 0 then offset == 0 else Chunks(payload[offset..], rest) == slices[index..]
  }

  lemma NextSlice(payload: seq<byte>, first: nat, rest: nat, index: nat, offset: nat)
    requires rest > 0 && first < |payload| && AtSlice(payload, first, rest, index, offset)
    requires index < |Slices(payload, first, rest)|
    ensures var want := Min(if index == 0 then first else rest, |payload| - offset);
      && Slices(payload, first, rest)[index] == payload[offset..offset + want]
      && AtSlice(payload, first, rest, index + 1, offset + want)
  {
    var slices := Slices(payload, first, rest);
    var want := Min(if index == 0 then first else rest, |payload| - offset);
    if index > 0 {
      assert slices[index] == slices[index..][0] && slices[index + 1..] == slices[index..][1..];
    }
    assert payload[offset..][want..] == payload[offset + want..];
  }

  /** The fragment loop of `send_udp`. */
  method SendFragments(packet: nat, address: seq<byte>, payload: seq<byte>, maxFirst: nat, maxRest: nat,
                       total: nat, accepts: nat)
    returns (sent: seq<seq<byte>>)
    requires packet < 0x1_0000 && maxRest > 0 && maxFirst < |payload|
    requires |Slices(payload, maxFirst, maxRest)| == total <= 255
    ensures sent == Packets(packet, address, Slices(payload, maxFirst, maxRest))[..Min(accepts, total)]
  {
    ghost var slices := Slices(payload, maxFirst, maxRest);
    sent := [];
    var offset: nat := 0;
    for index: nat := 0 to total
      invariant AtSlice(payload, maxFirst, maxRest, index, offset)
      invariant index <= accepts && sent == PacketsUpTo(packet, address, slices, index)
    {
      NextSlice(payload, maxFirst, maxRest, index, offset);
      var want := Min(if index == 0 then maxFirst else maxRest, |payload| - offset);
      var frame := BuildPacket(packet, index, total, FrameAddress(address, index), payload[offset..offset + want]);
      if index == accepts {
        PacketAt(packet, address, slices, total, index);
        return;
      }
      sent := sent + [frame];
      offset := offset + want;
    }
    assert sent[..total] == sent;
  }

  lemma DivAdd(x: nat, n: nat)
    requires n > 0
    ensures (x + n) / n == x / n + 1
  {
    var q, q' := x / n, (x + n) / n;
    assert q * n + x % n + n == q' * n + (x + n) % n;
    Close(q' - q - 1, n, x % n - (x + n) % n);
  }

  lemma DivSmall(x: nat, n: nat)
    requires x < n
    ensures x / n == 0
  {
  }

  lemma {:induction false} ChunksCount(p: seq<byte>, n: nat)
    requires n > 0
    ensures |Chunks(p, n)| == DivCeil(|p|, n)
    decreases |p|
  {
    if p == [] {
    } else if |p| <= n {
      assert p[|p|..] == [];
      DivAdd(|p| - 1, n);
      DivSmall(|p| - 1, n);
    } else {
      ChunksCount(p[n..], n);
      DivAdd(|p| - 1, n);
    }
  }

  // ---------------------------------------------------------------- what cutting promises

  lemma {:induction false} ChunksJoin(p: seq<byte>, n: nat)
    requires n > 0
    ensures Concat(Chunks(p, n)) == p
    ensures forall i :: 0 <= i < |Chunks(p, n)| ==> 0 < |Chunks(p, n)[i]| <= n
    decreases |p|
  {
    if p != [] {
      var m := Min(n, |p|);
      ChunksJoin(p[m..], n);
      assert p == p[..m] + p[m..];
    }
  }

  /** The slices partition the payload, and each fits the room its frame leaves. */
  lemma SlicesPartition(payload: seq<byte>, first: nat, rest: nat)
    requires rest > 0 && first > 0
    ensures var s := Slices(payload, first, rest);
      && Concat(s) == payload
      && |s| >= 1 && |s[0]| <= first
      && (forall i :: 1 <= i < |s| ==> 0 < |s[i]| <= rest)
  {
    if |payload| <= first {
      assert Concat([payload]) == payload;
    } else {
      ChunksJoin(payload[first..], rest);
      assert payload == payload[..first] + payload[first..];
    }
  }

  /** The header frame `i` of a packet should parse to. */
  function FrameHead(packet: nat, a: Addr, slices: seq<seq<byte>>, i: nat): Head
    requires Typed(a) && EncodeAddr(a).Some? && i < |slices|
  {
    Head(packet, |slices|, i, |slices[i]|, if i == 0 then a else NoAddr,
         HEADER + if i == 0 then |EncodeAddr(a).value| else 1)
  }

  lemma CutFits(a: Addr, payload: seq<byte>, budget: nat, i: nat)
    requires Typed(a) && EncodeAddr(a).Some? && budget > HEADER + |EncodeAddr(a).value|
    requires i < |Cut(a, payload, budget)|
    ensures Concat(Cut(a, payload, budget)) == payload
    ensures HEADER + |FrameAddress(EncodeAddr(a).value, i)| + |Cut(a, payload, budget)[i]| <= budget
  {
    SlicesFit(payload, |EncodeAddr(a).value|, budget - HEADER, i);
  }

  lemma SlicesFit(payload: seq<byte>, address: nat, room: nat, i: nat)
    requires room > address && room > 1 && i < |Slices(payload, room - address, room - 1)|
    ensures Concat(Slices(payload, room - address, room - 1)) == payload
    ensures (if i == 0 then address else 1) + |Slices(payload, room - address, room - 1)[i]| <= room
  {
    SlicesPartition(payload, room - address, room - 1);
  }

  lemma FrameIs(packet: nat, a: Addr, payload: seq<byte>, budget: nat, i: nat)
    requires packet < 0x1_0000 && Typed(a) && Sendable(a, payload, budget) && i < |Cut(a, payload, budget)|
    ensures var slices := Cut(a, payload, budget);
      && |Frames(packet, a, payload, budget)| == |slices|
      && Frames(packet, a, payload, budget)[i]
         == BuildPacket(packet, i, |slices|, FrameAddress(EncodeAddr(a).value, i), slices[i])
  {
    FramesCut(packet, a, payload, budget);
    var slices := Cut(a, payload, budget);
    PacketAt(packet, EncodeAddr(a).value, slices, |slices|, i);
  }

  lemma FramesCut(packet: nat, a: Addr, payload: seq<byte>, budget: nat)
    requires packet < 0x1_0000 && Typed(a) && Sendable(a, payload, budget)
    ensures var slices := Cut(a, payload, budget);
      Frames(packet, a, payload, budget) == PacketsUpTo(packet, EncodeAddr(a).value, slices, |slices|)
  {
  }

  /** A frame parses to a header, and what follows the header is the slice it announces. */
  predicate Carries(frame: seq<byte>, head: Head, slice: seq<byte>)
  {
    && ParseHead(frame) == Some(head)
    && head.size == |slice| && head.consumed + |slice| == |frame| && frame[head.consumed..] == slice
  }

  /** Any of the frames of a packet parses back to its own header and slice. */
  lemma FrameParses(packet: nat, a: Addr, slices: seq<seq<byte>>, i: nat)
    requires packet < 0x1_0000 && Typed(a) && EncodeAddr(a).Some? && i < |slices| <= 255 && |slices[i]| < 0x1_0000
    ensures var frame := BuildPacket(packet, i, |slices|, FrameAddress(EncodeAddr(a).value, i), slices[i]);
      Carries(frame, FrameHead(packet, a, slices, i), slices[i])
  {
    if i == 0 {
      PacketRoundTrip(packet, i, |slices|, a, slices[i]);
    } else {
      assert EncodeAddr(NoAddr) == Some([ADDR_NONE]);
      PacketRoundTrip(packet, i, |slices|, NoAddr, slices[i]);
    }
  }

  /**
    The slices partition the payload, there are at most 255 frames, each fits the budget, and each
    parses back to its own header and slice.
   */
  lemma FramesFit(packet: nat, a: Addr, payload: seq<byte>, budget: nat, i: nat)
    requires packet < 0x1_0000 && Typed(a) && budget <= MAX_DGRAM_PAYLOAD && Sendable(a, payload, budget)
    requires i < |Cut(a, payload, budget)|
    ensures var slices := Cut(a, payload, budget); var fs := Frames(packet, a, payload, budget);
      && Concat(slices) == payload
      && |fs| == |slices| <= 255 && |fs[i]| <= budget
      && Carries(fs[i], FrameHead(packet, a, slices, i), slices[i])
  {
    CutFits(a, payload, budget, i);
    FrameIs(packet, a, payload, budget, i);
    FrameParses(packet, a, Cut(a, payload, budget), i);
  }

  lemma TooManyIff(payload: seq<byte>, first: nat, rest: nat)
    requires rest > 0
    ensures |Slices(payload, first, rest)| > 255 <==> |payload| > first + 254 * rest
  {
    if |payload| > first {
      SlicesCount(payload, first, rest);
      CeilBound(|payload| - first, rest, 254);
    }
  }

  lemma NothingWithinIff(packet: nat, address: seq<byte>, payload: seq<byte>, first: nat, rest: nat)
    requires packet < 0x1_0000 && rest > 0
    ensures Numbered(packet, address, Slices(payload, first, rest)) == [] <==> |payload| > first + 254 * rest
  {
    EmptyIff(packet, address, payload, first, rest);
    TooManyIff(payload, first, rest);
  }

  lemma FramesForWithin(packet: nat, e: seq<byte>, payload: seq<byte>, budget: nat, first: nat, rest: nat)
    requires packet < 0x1_0000 && 0 < |e| && first > 0 && first + HEADER + |e| == budget && rest + HEADER + 1 == budget
    ensures FramesFor(packet, Some(e), payload, budget) == Numbered(packet, e, Slices(payload, first, rest))
  {
  }

  lemma NothingForIff(packet: nat, e: seq<byte>, payload: seq<byte>, budget: nat)
    requires packet < 0x1_0000 && 0 < |e| && HEADER + |e| < budget
    ensures FramesFor(packet, Some(e), payload, budget) == [] <==>
      |payload| > budget - HEADER - |e| + 254 * (budget - HEADER - 1)
  {
    var first, rest := budget - HEADER - |e|, budget - HEADER - 1;
    FramesForWithin(packet, e, payload, budget, first, rest);
    NothingWithinIff(packet, e, payload, first, rest);
  }

  /** `send_udp` sends nothing exactly when the name is too long, there is no room, or 255 are not enough. */
  lemma SendsNothingIff(packet: nat, a: Addr, payload: seq<byte>, budget: nat)
    requires packet < 0x1_0000 && Typed(a)
    ensures Frames(packet, a, payload, budget) == [] <==>
      var e := EncodeAddr(a);
      || e.None?
      || budget <= HEADER + |e.value|
      || |payload| > budget - HEADER - |e.value| + 254 * (budget - HEADER - 1)
  {
    var e := EncodeAddr(a);
    if e.Some? && HEADER + |e.value| < budget {
      NothingForIff(packet, e.value, payload, budget);
    }
  }

  lemma CeilBound(x: nat, n: nat, k: nat)
    requires n > 0
    ensures DivCeil(x, n) > k <==> x > k * n
  {
    var q := DivCeil(x, n);
    assert q * n <= x + n - 1 < (q + 1) * n by {
      assert x + n - 1 == q * n + (x + n - 1) % n;
    }
    if q > k {
      assert q * n >= (k + 1) * n;
    } else {
      assert q * n <= k * n;
    }
  }

  lemma {:induction false} ChunksAreFull(p: seq<byte>, n: nat, i: nat)
    requires n > 0 && i + 1 < |Chunks(p, n)|
    ensures |Chunks(p, n)[i]| == n
    decreases |p|
  {
    if i > 0 {
      ChunksAreFull(p[Min(n, |p|)..], n, i - 1);
    }
  }

  /** No frame is wasted: every slice but the last fills the room its frame has. */
  lemma SlicesAreFull(payload: seq<byte>, first: nat, rest: nat, i: nat)
    requires rest > 0 && i + 1 < |Slices(payload, first, rest)|
    ensures |Slices(payload, first, rest)[i]| == if i == 0 then first else rest
  {
    if i > 0 {
      ChunksAreFull(payload[first..], rest, i - 1);
    }
  }

  /** The budget is what the connection can write, at most the largest datagram, which also stands for no answer. */
  lemma BudgetIs(writable: Option<nat>)
    ensures Budget(writable) <= 65535
    ensures writable.None? ==> Budget(writable) == 65535
    ensures writable.Some? ==> Budget(writable) <= writable.value
    ensures writable.Some? && writable.value <= 65535 ==> Budget(writable) == writable.value
  {
  }
}
