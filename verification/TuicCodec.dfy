/** TUIC v5 addresses and packet headers on the wire. */
module TuicCodec {
  import opened Bytes

  const VERSION: byte := 5
  const CMD_CONNECT: byte := 1
  const CMD_PACKET: byte := 2
  const ADDR_NAME: byte := 0
  const ADDR_V4: byte := 1
  const ADDR_V6: byte := 2
  const ADDR_NONE: byte := 255
  const HEADER: nat := 10
  const ASSOC_ID: nat := 1

  /** `PeerAddr`; a name is kept as its bytes. */
  datatype Addr =
    | NoAddr
    | V4(ip: seq<byte>, port: nat)
    | V6(ip: seq<byte>, port: nat)
    | Name(name: seq<byte>, port: nat)

  /** The addresses there are: octet counts and ports as their Rust types bound them. */
  predicate Typed(a: Addr)
  {
    match a
    case NoAddr => true
    case V4(ip, port) => |ip| == 4 && port < 0x1_0000
    case V6(ip, port) => |ip| == 16 && port < 0x1_0000
    case Name(_, port) => port < 0x1_0000
  }

  /** `encode_target`, and the one-byte marker that stands for no address; long names do not encode. */
  function EncodeAddr(a: Addr): (r: Option<seq<byte>>)
    requires Typed(a)
  {
    match a
    case NoAddr => Some([ADDR_NONE])
    case V4(ip, port) => Some([ADDR_V4] + ip + Be16(port))
    case V6(ip, port) => Some([ADDR_V6] + ip + Be16(port))
    case Name(name, port) =>
      if |name| > 255 then None else Some([ADDR_NAME, |name|] + name + Be16(port))
  }

  function FromBe16(hi: byte, lo: byte): (n: nat)
    ensures n < 0x1_0000
  {
    (hi as int) * 256 + lo as int
  }

  /** `decode_address`: the address and the bytes it took; `None` is the error return. */
  function DecodeAddr(buf: seq<byte>): (r: Option<(Addr, nat)>)
  {
    if buf == [] then None
    else if buf[0] == ADDR_NONE then Some((NoAddr, 1))
    else if buf[0] == ADDR_V4 then
      if |buf| < 7 then None else Some((V4(buf[1..5], FromBe16(buf[5], buf[6])), 7))
    else if buf[0] == ADDR_V6 then
      if |buf| < 19 then None else Some((V6(buf[1..17], FromBe16(buf[17], buf[18])), 19))
    else if buf[0] == ADDR_NAME then
      if |buf| < 2 then None
      else
        var len := buf[1] as int;
        if |buf| < 4 + len then None
        else Some((Name(buf[2..2 + len], FromBe16(buf[2 + len], buf[3 + len])), 4 + len))
    else None
  }

  lemma Be16Inverse(hi: byte, lo: byte, n: nat)
    requires n < 0x1_0000
    ensures Be16(FromBe16(hi, lo)) == [hi, lo]
    ensures FromBe16(Be16(n)[0], Be16(n)[1]) == n
  {
  }

  /**
    Decoding is the exact inverse of encoding: it succeeds with `(a, n)` precisely when the first
    `n` bytes are the encoding of the well-typed address `a`, whatever follows them.
   */
  lemma DecodeIff(buf: seq<byte>, a: Addr, n: nat)
    ensures DecodeAddr(buf) == Some((a, n)) <==> n <= |buf| && Typed(a) && EncodeAddr(a) == Some(buf[..n])
  {
    if DecodeAddr(buf) == Some((a, n)) {
      DecodeSound(buf);
    }
    if n <= |buf| && Typed(a) && EncodeAddr(a) == Some(buf[..n]) {
      DecodeComplete(buf, a, n);
    }
  }

  lemma DecodeSound(buf: seq<byte>)
    requires DecodeAddr(buf).Some?
    ensures var (a, n) := DecodeAddr(buf).value;
      n <= |buf| && Typed(a) && EncodeAddr(a) == Some(buf[..n])
  {
    if buf[0] == ADDR_V4 {
      Split(buf, 1, 5);
      assert buf[..1] == [ADDR_V4];
    } else if buf[0] == ADDR_V6 {
      Split(buf, 1, 17);
      assert buf[..1] == [ADDR_V6];
    } else if buf[0] == ADDR_NAME {
      Split(buf, 2, 2 + buf[1] as int);
      assert buf[..2] == [ADDR_NAME, buf[1]];
    } else {
      assert buf[..1] == [ADDR_NONE];
    }
  }

  /** The first `hi + 2` bytes: a tag, a body from `lo` to `hi`, and a port. */
  lemma Split(buf: seq<byte>, lo: nat, hi: nat)
    requires lo <= hi && hi + 2 <= |buf|
    ensures buf[..hi + 2] == buf[..lo] + buf[lo..hi] + Be16(FromBe16(buf[hi], buf[hi + 1]))
  {
    Be16Inverse(buf[hi], buf[hi + 1], 0);
  }

  lemma DecodeComplete(buf: seq<byte>, a: Addr, n: nat)
    requires n <= |buf| && Typed(a) && EncodeAddr(a) == Some(buf[..n])
    ensures DecodeAddr(buf) == Some((a, n))
  {
    var e := buf[..n];
    match a
    case NoAddr => assert e == [ADDR_NONE] && buf[0] == e[0];
    case V4(ip, port) =>
      assert e == [ADDR_V4] + ip + Be16(port) && buf[0] == e[0] && e[1..5] == ip && e[5..7] == Be16(port);
      assert buf[1..5] == e[1..5] && buf[5] == e[5] && buf[6] == e[6];
    case V6(ip, port) =>
      assert e == [ADDR_V6] + ip + Be16(port) && buf[0] == e[0] && e[1..17] == ip && e[17..19] == Be16(port);
      assert buf[1..17] == e[1..17] && buf[17] == e[17] && buf[18] == e[18];
    case Name(name, port) =>
      var len := |name|;
      assert e == [ADDR_NAME, len] + name + Be16(port) && buf[0] == e[0] && buf[1] == e[1];
      assert e[2..2 + len] == name && e[2 + len..4 + len] == Be16(port);
      assert buf[2..2 + len] == e[2..2 + len] && buf[2 + len] == e[2 + len] && buf[3 + len] == e[3 + len];
  }

  // ---------------------------------------------------------------- packet headers

  datatype Head = Head(packet: nat, total: nat, index: nat, size: nat, address: Addr, consumed: nat)

  /** `build_packet`; the size field is the payload length cut to 16 bits. */
  function BuildPacket(packet: nat, index: nat, total: nat, address: seq<byte>, payload: seq<byte>): (r: seq<byte>)
    requires packet < 0x1_0000 && index < 256 && total < 256
    ensures |r| == HEADER + |address| + |payload|
  {
    [VERSION, CMD_PACKET] + Be16(ASSOC_ID) + Be16(packet) + [total, index] + Be16(|payload| % 0x1_0000)
      + address + payload
  }

  /** `parse_packet_head`; `None` is the error return. */
  function ParseHead(buf: seq<byte>): (r: Option<Head>)
  {
    if |buf| < HEADER || buf[0] != VERSION || buf[1] != CMD_PACKET then None
    else
      var a := DecodeAddr(buf[HEADER..]);
      if a.None? then None
      else Some(Head(FromBe16(buf[4], buf[5]), buf[6], buf[7], FromBe16(buf[8], buf[9]), a.value.0, HEADER + a.value.1))
  }

  /** A packet that was built is parsed back: every header field, the address and the payload. */
  lemma PacketRoundTrip(packet: nat, index: nat, total: nat, a: Addr, payload: seq<byte>)
    requires packet < 0x1_0000 && index < 256 && total < 256 && |payload| < 0x1_0000
    requires Typed(a) && EncodeAddr(a).Some?
    ensures var e := EncodeAddr(a).value; var buf := BuildPacket(packet, index, total, e, payload);
      && ParseHead(buf) == Some(Head(packet, total, index, |payload|, a, HEADER + |e|))
      && buf[HEADER + |e|..] == payload
  {
    var e := EncodeAddr(a).value;
    var buf := BuildPacket(packet, index, total, e, payload);
    assert buf[HEADER..] == e + payload;
    assert (e + payload)[..|e|] == e;
    DecodeIff(buf[HEADER..], a, |e|);
    Be16Inverse(0, 0, packet);
    Be16Inverse(0, 0, |payload|);
  }

  // ---------------------------------------------------------------- the bytes themselves

  /** How each address looks on the wire: a tag, the octets or the counted name, and the port, high byte first. */
  lemma AddressBytes(a: Addr)
    requires Typed(a)
    ensures a.NoAddr? ==> EncodeAddr(a) == Some([255])
    ensures a.V4? ==> EncodeAddr(a) == Some([1] + a.ip + [a.port / 256, a.port % 256])
    ensures a.V6? ==> EncodeAddr(a) == Some([2] + a.ip + [a.port / 256, a.port % 256])
    ensures a.Name? && |a.name| <= 255 ==>
      EncodeAddr(a) == Some([0, |a.name|] + a.name + [a.port / 256, a.port % 256])
    ensures a.Name? && |a.name| > 255 ==> EncodeAddr(a) == None
  {
  }

  /** An address is refused exactly when its tag is none of the four, or when it is cut short. */
  lemma AddressRefusedIff(buf: seq<byte>)
    ensures DecodeAddr(buf).None? <==>
      || buf == []
      || (buf[0] != 0 && buf[0] != 1 && buf[0] != 2 && buf[0] != 255)
      || (buf[0] == 1 && |buf| < 7) || (buf[0] == 2 && |buf| < 19)
      || (buf[0] == 0 && (|buf| < 2 || |buf| < 4 + buf[1] as int))
  {
  }

  /** Where each field of a packet stands. */
  lemma PacketBytes(packet: nat, index: nat, total: nat, address: seq<byte>, payload: seq<byte>)
    requires packet < 0x1_0000 && index < 256 && total < 256
    ensures var r := BuildPacket(packet, index, total, address, payload);
      && |r| == 10 + |address| + |payload|
      && r[0] == 5 && r[1] == 2 && r[2] == 0 && r[3] == 1
      && r[4] as int * 256 + r[5] as int == packet && r[6] as int == total && r[7] as int == index
      && r[8] as int * 256 + r[9] as int == |payload| % 0x1_0000
      && r[10..10 + |address|] == address && r[10 + |address|..] == payload
  {
    var r := BuildPacket(packet, index, total, address, payload);
    var head := r[..10];
    assert r == head + (address + payload);
    MiddleSlice(head, address, payload);
  }

  /** A header is read exactly from ten bytes of version five and command two with an address behind them. */
  lemma HeadIff(buf: seq<byte>)
    ensures ParseHead(buf).Some? <==> |buf| >= 10 && buf[0] == 5 && buf[1] == 2 && DecodeAddr(buf[10..]).Some?
    ensures ParseHead(buf).Some? ==>
      var h := ParseHead(buf).value;
      && h.packet == buf[4] as int * 256 + buf[5] as int && h.total == buf[6] as int && h.index == buf[7] as int
      && h.size == buf[8] as int * 256 + buf[9] as int
      && DecodeAddr(buf[10..]) == Some((h.address, h.consumed - 10))
  {
  }
}
