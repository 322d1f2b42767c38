/** IP packets in HTTP datagrams (section 2.1 of RFC 9297) and in datagram capsules. */
module Datagrams {
  import opened Bytes
  import Varint

  const CONTEXT_ID: nat := 0

  datatype Decoded = Malformed | NotOurs | Packet(bytes: seq<byte>)

  function QuarterStreamId(stream: nat): (q: nat)
    requires stream < U64
    ensures q <= Varint.MAX_VARINT
  {
    stream / 4
  }

  /** `encode_ip_datagram`. */
  function EncodeIp(stream: nat, packet: seq<byte>): (r: seq<byte>)
    requires stream < U64
  {
    Varint.Encode(QuarterStreamId(stream)) + Varint.Encode(CONTEXT_ID) + packet
  }

  /** `decode_ip_datagram`. */
  function DecodeIp(d: seq<byte>, stream: nat): (r: Decoded)
    requires stream < U64
  {
    var q := Varint.Get(d);
    if q.None? then Malformed
    else if q.value.0 != QuarterStreamId(stream) then NotOurs
    else
      var rest := d[q.value.1..];
      var ctx := Varint.Get(rest);
      if ctx.None? then Malformed
      else if ctx.value.0 != CONTEXT_ID then NotOurs
      else Packet(rest[ctx.value.1..])
  }

  /** A datagram is decoded exactly by the streams that share its quarter stream id. */
  lemma DecodeEncode(stream: nat, packet: seq<byte>, expected: nat)
    requires stream < U64 && expected < U64
    ensures DecodeIp(EncodeIp(stream, packet), expected) ==
      if stream / 4 == expected / 4 then Packet(packet) else NotOurs
  {
    var q, c := Varint.Encode(QuarterStreamId(stream)), Varint.Encode(CONTEXT_ID);
    var d := EncodeIp(stream, packet);
    assert d == q + (c + packet);
    Varint.GetEncode(QuarterStreamId(stream), c + packet);
    assert d[|q|..] == c + packet;
    Varint.GetEncode(CONTEXT_ID, packet);
    assert (c + packet)[|c|..] == packet;
  }

  /** The datagram is the quarter stream id `q` in `n` bytes, a zero context id in `m`, and the packet. */
  predicate IsDatagram(d: seq<byte>, q: nat, n: nat, m: nat, packet: seq<byte>)
  {
    Varint.Holds(q, n) && Varint.IsLen(m) && d == Varint.Put(q, n) + (Varint.Put(CONTEXT_ID, m) + packet)
  }

  lemma DecodesOne(d: seq<byte>, stream: nat, packet: seq<byte>, n: nat, m: nat)
    requires stream < U64 && IsDatagram(d, stream / 4, n, m, packet)
    ensures DecodeIp(d, stream) == Packet(packet)
  {
    var q, c := Varint.Put(stream / 4, n), Varint.Put(CONTEXT_ID, m);
    Varint.GetPut(stream / 4, n, c + packet);
    assert d[n..] == c + packet;
    Varint.GetPut(CONTEXT_ID, m, packet);
    assert (c + packet)[m..] == packet;
  }

  lemma DecodedParts(d: seq<byte>, stream: nat, packet: seq<byte>) returns (n: nat, m: nat)
    requires stream < U64 && DecodeIp(d, stream) == Packet(packet)
    ensures IsDatagram(d, stream / 4, n, m, packet)
  {
    n := Varint.Get(d).value.1;
    Varint.GetIff(d, stream / 4, n);
    var rest := d[n..];
    m := Varint.Get(rest).value.1;
    Varint.GetIff(rest, CONTEXT_ID, m);
    Halves(rest, m);
    Halves(d, n);
  }

  /** A packet is decoded exactly from its datagrams, whatever lengths the two integers are written in. */
  lemma DecodesIff(d: seq<byte>, stream: nat, packet: seq<byte>)
    requires stream < U64
    ensures DecodeIp(d, stream) == Packet(packet) <==> exists n: nat, m: nat :: IsDatagram(d, stream / 4, n, m, packet)
  {
    if DecodeIp(d, stream) == Packet(packet) {
      var n, m := DecodedParts(d, stream, packet);
    }
    if n: nat, m: nat :| IsDatagram(d, stream / 4, n, m, packet) {
      DecodesOne(d, stream, packet, n, m);
    }
  }

  /** The input ends before the integer its first byte announces. */
  predicate CutShort(d: seq<byte>)
  {
    d == [] || |d| < (if d[0] < 0x40 then 1 else if d[0] < 0x80 then 2 else if d[0] < 0xC0 then 4 else 8)
  }

  /** The input begins with `v` written in `n` bytes. */
  predicate BeginsWith(d: seq<byte>, v: nat, n: nat)
  {
    Varint.Holds(v, n) && n <= |d| && d[..n] == Varint.Put(v, n)
  }

  /** A datagram is malformed exactly when it ends inside its first integer, or is ours and ends inside the second. */
  lemma MalformedIff(d: seq<byte>, stream: nat)
    requires stream < U64
    ensures DecodeIp(d, stream) == Malformed <==>
      || CutShort(d)
      || exists n: nat :: BeginsWith(d, stream / 4, n) && CutShort(d[n..])
  {
    forall n: nat
      ensures Varint.Get(d) == Some((stream / 4, n)) <==> BeginsWith(d, stream / 4, n)
    {
      Varint.GetIff(d, stream / 4, n);
    }
    assert CutShort(d) <==> Varint.Get(d).None?;
    if Varint.Get(d).Some? {
      var n := Varint.Get(d).value.1;
      assert CutShort(d[n..]) <==> Varint.Get(d[n..]).None?;
    }
  }

  /** `looks_like_ip_packet`. */
  predicate LooksLikeIp(data: seq<byte>)
  {
    |data| >= 20 && (data[0] / 16 == 4 || data[0] / 16 == 6)
  }

  /** `strip_datagram_context`. */
  function Strip(payload: seq<byte>): (r: Option<seq<byte>>)
  {
    var ctx := Varint.Get(payload);
    if payload != [] && ctx.Some? && ctx.value.0 == CONTEXT_ID && LooksLikeIp(payload[ctx.value.1..]) then
      Some(payload[ctx.value.1..])
    else if LooksLikeIp(payload) then Some(payload)
    else None
  }

  /** At least an IPv4 header's worth of bytes, with the version nibble of IPv4 or IPv6. */
  predicate IpShaped(packet: seq<byte>)
  {
    |packet| >= 20 && (0x40 <= packet[0] < 0x50 || 0x60 <= packet[0] < 0x70)
  }

  /** After any of the four encodings of the zero context id, the packet comes back unchanged. */
  lemma StripsContext(packet: seq<byte>, n: nat)
    requires IpShaped(packet) && Varint.IsLen(n)
    ensures Strip(Varint.Put(CONTEXT_ID, n) + packet) == Some(packet)
  {
    Varint.GetPut(CONTEXT_ID, n, packet);
    assert (Varint.Put(CONTEXT_ID, n) + packet)[n..] == packet;
  }

  /**
    A bare packet comes back unchanged unless its first two bytes happen to read as a context id
    and an IP packet seems to follow: an IPv4 header length of zero, a zero second byte, and a
    version nibble in the third.
   */
  lemma BareUnchangedIff(packet: seq<byte>)
    requires IpShaped(packet)
    ensures Strip(packet) == Some(packet) <==> !(packet[0] == 0x40 && packet[1] == 0 && IpShaped(packet[2..]))
  {
    assert Varint.LenOfFirst(packet[0]) == 2;
    var pair := [packet[0] % 64] + packet[1..2];
    assert pair == [packet[0] % 64, packet[1]] && pair[..1] == [packet[0] % 64];
    assert Varint.FromBe(pair) == (packet[0] % 64) as int * 256 + packet[1] as int by {
      assert Varint.FromBe(pair[..1]) == (packet[0] % 64) as int by {
        assert pair[..1][..0] == [];
        assert Varint.FromBe([]) == 0;
      }
    }
  }

  /** So every IPv6 packet, and every IPv4 packet with a header length field, is unambiguous. */
  lemma RealPacketsUnchanged(packet: seq<byte>, n: nat)
    requires |packet| >= 20 && Varint.IsLen(n)
    requires packet[0] / 16 == 6 || (packet[0] / 16 == 4 && packet[0] % 16 >= 5)
    ensures Strip(packet) == Some(packet) && Strip(Varint.Put(CONTEXT_ID, n) + packet) == Some(packet)
  {
    BareUnchangedIff(packet);
    StripsContext(packet, n);
  }

  /** The payload starts with the context id zero, in `n` bytes. */
  predicate HasContext(payload: seq<byte>, n: nat)
  {
    Varint.IsLen(n) && n <= |payload| && payload[..n] == Varint.Put(CONTEXT_ID, n)
  }

  /**
    A payload yields nothing exactly when neither it, nor what follows a zero context id in it, has
    the shape of an IP packet.
   */
  lemma StripsNothingIff(payload: seq<byte>)
    ensures Strip(payload).None? <==>
      !IpShaped(payload) && forall n: nat :: HasContext(payload, n) ==> !IpShaped(payload[n..])
  {
    forall n: nat
      ensures HasContext(payload, n) <==> Varint.Get(payload) == Some((0, n))
    {
      Varint.GetIff(payload, 0, n);
    }
    if Varint.Get(payload).Some? && Varint.Get(payload).value.0 == 0 {
      assert HasContext(payload, Varint.Get(payload).value.1);
    }
  }

  /** The four forms a zero context id can take on the wire. */
  lemma ContextForms(n: nat)
    requires Varint.IsLen(n)
    ensures Varint.Put(CONTEXT_ID, n) ==
      if n == 1 then [0] else if n == 2 then [0x40, 0] else if n == 4 then [0x80, 0, 0, 0]
      else [0xC0, 0, 0, 0, 0, 0, 0, 0]
  {
    ZeroBytes(n);
  }

  lemma {:induction false} ZeroBytes(n: nat)
    ensures Varint.ToBe(0, n) == seq(n, _ => 0)
  {
    if n > 0 {
      ZeroBytes(n - 1);
    }
  }

  /** A packet that is taken for another: the two leading bytes are lost. */
  lemma AmbiguousPacket(tail: seq<byte>)
    requires |tail| >= 20 && tail[0] / 16 == 4
    ensures Strip([0x40, 0x00] + tail) == Some(tail)
  {
    var p := [0x40, 0x00] + tail;
    assert Varint.Put(CONTEXT_ID, 2) == [0x40, 0x00] by {
      assert Varint.ToBe(0, 2) == [0, 0];
    }
    StripsContext(tail, 2);
  }
}
