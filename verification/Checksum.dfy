/** The Internet checksum (RFC 1071) of an IPv4 header, and the DNS probe packet that carries one. */
module Checksum {
  import opened Bytes

  const U32: nat := 0x1_0000_0000

  function Word(hi: byte, lo: byte): nat
  {
    (hi as int) * 256 + lo as int
  }

  /** The sum of the 16-bit words, an odd last byte counting as a high byte. */
  function WordSum(h: seq<byte>): (s: nat)
  {
    if |h| == 0 then 0
    else if |h| == 1 then Word(h[0], 0)
    else Word(h[0], h[1]) + WordSum(h[2..])
  }

  /** The carries are added back until none is left. */
  function Fold(x: nat): (r: nat)
    ensures r < 0x1_0000
    decreases x
  {
    if x < 0x1_0000 then x else Fold(x % 0x1_0000 + x / 0x1_0000)
  }

  function Sum16(h: seq<byte>): (r: nat)
    ensures r < 0x1_0000
  {
    0xffff - Fold(WordSum(h))
  }

  lemma {:induction false} WordSumBound(h: seq<byte>)
    ensures WordSum(h) <= 0xffff * ((|h| + 1) / 2)
  {
    if |h| >= 2 {
      WordSumBound(h[2..]);
      assert (|h| + 1) / 2 == (|h[2..]| + 1) / 2 + 1;
    }
  }

  lemma {:induction false} WordSumPrefix(h: seq<byte>, i: nat)
    requires i % 2 == 0 && i + 2 <= |h|
    ensures WordSum(h[..i + 2]) == WordSum(h[..i]) + Word(h[i], h[i + 1])
  {
    if i == 0 {
      assert h[..2][2..] == [];
    } else {
      WordSumPrefix(h[2..], i - 2);
      assert h[..i + 2][2..] == h[2..][..i] && h[..i][2..] == h[2..][..i - 2];
    }
  }

  lemma {:induction false} WordSumGrows(h: seq<byte>, i: nat)
    requires i % 2 == 0 && i <= |h|
    ensures WordSum(h[..i]) <= WordSum(h)
  {
    if i >= 2 {
      WordSumGrows(h[2..], i - 2);
      assert h[..i][2..] == h[2..][..i - 2];
    }
  }

  /** The summing loop; `None` when the sum leaves 32 bits. */
  method SumWords(header: seq<byte>) returns (sum: Option<nat>)
    ensures sum == if WordSum(header) < U32 then Some(WordSum(header)) else None
  {
    var total, i := 0, 0;
    while i + 1 < |header|
      invariant 0 <= i <= |header| && i % 2 == 0
      invariant total == WordSum(header[..i]) < U32
    {
      WordSumPrefix(header, i);
      WordSumGrows(header, i + 2);
      total := total + Word(header[i], header[i + 1]);
      if total >= U32 {
        return None;
      }
      i := i + 2;
    }
    if i < |header| {
      OddTail(header);
      total := total + (header[i] as int) * 256;
    } else {
      assert header[..i] == header;
    }
    sum := if total < U32 then Some(total) else None;
  }

  /** The folding loop. */
  method FoldCarries(total: nat) returns (sum: nat)
    requires total < U32
    ensures sum == Fold(total)
  {
    sum := total;
    while sum / 0x1_0000 != 0
      invariant sum < U32 && Fold(sum) == Fold(total)
      decreases sum
    {
      FoldStep(sum);
      sum := sum % 0x1_0000 + sum / 0x1_0000;
    }
  }

  lemma FoldStep(x: nat)
    ensures x / 0x1_0000 == 0 <==> x < 0x1_0000
    ensures x >= 0x1_0000 ==> x % 0x1_0000 + x / 0x1_0000 < x && Fold(x) == Fold(x % 0x1_0000 + x / 0x1_0000)
  {
  }

  /** `ipv4_header_checksum`; `None` exactly when the sum leaves the 32 bits of its accumulator. */
  method HeaderChecksum(header: seq<byte>) returns (c: Option<nat>)
    ensures c == if WordSum(header) < U32 then Some(Sum16(header)) else None
  {
    var sum := SumWords(header);
    if sum.None? {
      return None;
    }
    var folded := FoldCarries(sum.value);
    c := Some(0xffff - folded);
  }

  /** No header of up to 131072 bytes does that. */
  lemma HeadersFit(h: seq<byte>)
    requires |h| <= 0x2_0000
    ensures WordSum(h) < U32
  {
    WordSumBound(h);
  }

  lemma {:induction false} OddTail(h: seq<byte>)
    requires |h| % 2 == 1
    ensures WordSum(h) == WordSum(h[..|h| - 1]) + (h[|h| - 1] as int) * 256
  {
    if |h| == 1 {
      assert h[..0] == [];
    } else {
      OddTail(h[2..]);
      assert h[..|h| - 1][2..] == h[2..][..|h| - 3];
    }
  }

  // ---------------------------------------------------------------- what the checksum means

  /** Dropping a carry and adding it back changes the number by a multiple of 65535. */
  lemma CarryCongruent(x: nat)
    ensures var y := x % 0x1_0000 + x / 0x1_0000; y % 0xffff == x % 0xffff && (y == 0 <==> x == 0)
  {
    var q, r := x / 0x1_0000, x % 0x1_0000;
    assert x == (r + q) + 0xffff * q;
    AddMultiple(r + q, q);
  }

  lemma {:induction false} AddMultiple(y: nat, q: nat)
    ensures (y + 0xffff * q) % 0xffff == y % 0xffff
  {
    if q > 0 {
      AddMultiple(y, q - 1);
      assert y + 0xffff * q == (y + 0xffff * (q - 1)) + 0xffff;
    }
  }

  lemma {:induction false} FoldCongruent(x: nat)
    ensures Fold(x) % 0xffff == x % 0xffff && (Fold(x) == 0 <==> x == 0)
    decreases x
  {
    if x >= 0x1_0000 {
      FoldStep(x);
      CarryCongruent(x);
      FoldCongruent(x % 0x1_0000 + x / 0x1_0000);
    }
  }

  /** A checksum of zero means exactly that the words add up to a positive multiple of 65535. */
  lemma ZeroIff(h: seq<byte>)
    ensures Sum16(h) == 0 <==> WordSum(h) % 0xffff == 0 && WordSum(h) > 0
  {
    FoldCongruent(WordSum(h));
  }

  function WithField(h: seq<byte>, at: nat, c: nat): seq<byte>
    requires at + 2 <= |h| && c < 0x1_0000
  {
    h[at := c / 256][at + 1 := c % 256]
  }

  lemma {:induction false} FieldAdds(h: seq<byte>, at: nat, c: nat)
    requires at % 2 == 0 && at + 2 <= |h| && h[at] == 0 && h[at + 1] == 0 && c < 0x1_0000
    ensures WordSum(WithField(h, at, c)) == WordSum(h) + c
  {
    var h' := WithField(h, at, c);
    if at == 0 {
      assert h'[2..] == h[2..];
    } else {
      FieldAdds(h[2..], at - 2, c);
      assert h'[2..] == WithField(h[2..], at - 2, c);
    }
  }

  /**
    Writing the checksum of a header into its zeroed checksum field makes the checksum of the
    header zero, which is what a receiver verifies.
   */
  lemma Verifies(h: seq<byte>, at: nat)
    requires at % 2 == 0 && at + 2 <= |h| && h[at] == 0 && h[at + 1] == 0
    ensures Sum16(WithField(h, at, Sum16(h))) == 0
  {
    FieldAdds(h, at, Sum16(h));
    FoldCongruent(WordSum(h));
    ZeroIff(WithField(h, at, Sum16(h)));
    Complement(WordSum(h), Fold(WordSum(h)));
  }

  lemma Complement(x: nat, f: nat)
    requires f <= 0xffff && f % 0xffff == x % 0xffff && (f == 0 <==> x == 0)
    ensures (x + (0xffff - f)) % 0xffff == 0 && x + (0xffff - f) > 0
  {
  }

  // ---------------------------------------------------------------- the probe packet

  const DNS_NAME: seq<byte> := [10, 99, 108, 111, 117, 100, 102, 108, 97, 114, 101, 3, 99, 111, 109, 0]

  function DnsQuery(id: nat): (r: seq<byte>)
    requires id < 0x1_0000
    ensures |r| == 32
  {
    Be16(id) + [1, 0] + [0, 1] + [0, 0, 0, 0, 0, 0] + DNS_NAME + [0, 1] + [0, 1]
  }

  function ProbeHeader(src: seq<byte>, id: nat, total: nat): (r: seq<byte>)
    requires |src| == 4 && id < 0x1_0000 && total < 0x1_0000
    ensures |r| == 20 && r[10] == 0 && r[11] == 0 && r[2..4] == Be16(total)
  {
    [0x45, 0] + Be16(total) + Be16(id) + [0, 0] + [64, 17] + [0, 0] + src + [8, 8, 8, 8]
  }

  /** `build_dns_probe_packet`; the three random fields are parameters. */
  function Probe(src: seq<byte>, id: nat, port: nat, dnsId: nat): (r: seq<byte>)
    requires |src| == 4 && id < 0x1_0000 && port < 0x1_0000 && dnsId < 0x1_0000
  {
    var dns := DnsQuery(dnsId);
    var header := ProbeHeader(src, id, 20 + 8 + |dns|);
    WithField(header, 10, Sum16(header)) + Be16(port) + Be16(53) + Be16(8 + |dns|) + [0, 0] + dns
  }

  /** The probe's header verifies, and both its length fields say how long it really is. */
  lemma ProbeIsWellFormed(src: seq<byte>, id: nat, port: nat, dnsId: nat)
    requires |src| == 4 && id < 0x1_0000 && port < 0x1_0000 && dnsId < 0x1_0000
    ensures var p := Probe(src, id, port, dnsId);
      && |p| == 60
      && Sum16(p[..20]) == 0
      && p[2..4] == Be16(|p|)
      && p[24..26] == Be16(|p| - 20)
  {
    var header := ProbeHeader(src, id, 60);
    Verifies(header, 10);
    var p, filled := Probe(src, id, port, dnsId), WithField(header, 10, Sum16(header));
    assert p[..20] == filled;
    assert p[2..4] == filled[2..4] == header[2..4];
    assert p[24..26] == Be16(40);
  }

  /**
    The checksum is the one number that makes the words and it add up to a multiple of 65535, all
    ones standing for words that are all zero.
   */
  lemma SumIs(h: seq<byte>)
    ensures (WordSum(h) + Sum16(h)) % 0xffff == 0 && (Sum16(h) == 0xffff <==> WordSum(h) == 0)
  {
    FoldCongruent(WordSum(h));
    Complement(WordSum(h), Fold(WordSum(h)));
  }

  /** What the probe says: an IPv4 header without options, UDP to 8.8.8.8 port 53, one question. */
  lemma ProbeFields(src: seq<byte>, id: nat, port: nat, dnsId: nat)
    requires |src| == 4 && id < 0x1_0000 && port < 0x1_0000 && dnsId < 0x1_0000
    ensures var p := Probe(src, id, port, dnsId);
      && |p| == 60 && p[0] == 0x45 && p[8] == 64 && p[9] == 17
      && p[4] as int * 256 + p[5] as int == id && p[12..16] == src && p[16..20] == [8, 8, 8, 8]
      && p[20] as int * 256 + p[21] as int == port && p[22] == 0 && p[23] == 53 && p[26] == 0 && p[27] == 0
      && p[28] as int * 256 + p[29] as int == dnsId && p[30] == 1 && p[31] == 0 && p[32] == 0 && p[33] == 1
      && p[40..56] == DNS_NAME && p[56..60] == [0, 1, 0, 1]
  {
    var header := ProbeHeader(src, id, 60);
    var p, filled := Probe(src, id, port, dnsId), WithField(header, 10, Sum16(header));
    assert p[..20] == filled;
    assert header[12..16] == src && header[16..20] == [8, 8, 8, 8];
    assert filled[12..20] == header[12..20];
    assert p[12..16] == filled[12..16] && p[16..20] == filled[16..20];
    assert p[28..] == DnsQuery(dnsId);
    ProbeQuestion(p, dnsId);
  }

  lemma ProbeQuestion(p: seq<byte>, dnsId: nat)
    requires |p| == 60 && dnsId < 0x1_0000 && p[28..] == DnsQuery(dnsId)
    ensures p[28] as int * 256 + p[29] as int == dnsId && p[30] == 1 && p[31] == 0 && p[32] == 0 && p[33] == 1
    ensures p[40..56] == DNS_NAME && p[56..60] == [0, 1, 0, 1]
  {
    var q := DnsQuery(dnsId);
    assert forall i :: 0 <= i < 32 ==> p[28 + i] == q[i];
    assert q[12..28] == DNS_NAME && q[28..32] == [0, 1, 0, 1];
    SliceOfSlice(p, 28, 12, 28);
    SliceOfSlice(p, 28, 28, 32);
  }
}
