/** Variable-length integers, section 16 of RFC 9000, as the `octets` cursor reads and writes them. */
module Varint {
  import opened Bytes

  const MAX_VARINT: nat := 0x3fff_ffff_ffff_ffff

  function Pow256(n: nat): (r: nat)
    ensures r > 0
  {
    if n == 0 then 1 else 256 * Pow256(n - 1)
  }

  /** `n` bytes, most significant first. */
  function ToBe(v: nat, n: nat): (r: seq<byte>)
    ensures |r| == n
  {
    if n == 0 then [] else ToBe(v / 256, n - 1) + [v % 256]
  }

  function FromBe(b: seq<byte>): (r: nat)
  {
    if b == [] then 0 else FromBe(b[..|b| - 1]) * 256 + b[|b| - 1] as int
  }

  lemma {:induction false} BeInverse(v: nat, n: nat)
    requires v < Pow256(n)
    ensures FromBe(ToBe(v, n)) == v
  {
    if n > 0 {
      BeInverse(v / 256, n - 1);
      assert ToBe(v, n)[..n - 1] == ToBe(v / 256, n - 1);
    }
  }

  lemma {:induction false} FirstByte(v: nat, n: nat)
    requires n > 0 && v < 64 * Pow256(n - 1)
    ensures ToBe(v, n)[0] < 64
  {
    if n > 1 {
      FirstByte(v / 256, n - 1);
    } else {
      assert ToBe(v, 1) == [v % 256];
    }
  }

  predicate IsLen(n: nat) { n == 1 || n == 2 || n == 4 || n == 8 }

  /** The two leading bits that announce a length. */
  function Tag(n: nat): (t: nat)
    requires IsLen(n)
    ensures t <= 3
  {
    if n == 1 then 0 else if n == 2 then 1 else if n == 4 then 2 else 3
  }

  function LenOfFirst(first: byte): (n: nat)
    ensures IsLen(n) && Tag(n) == first / 64
  {
    if first / 64 == 0 then 1 else if first / 64 == 1 then 2 else if first / 64 == 2 then 4 else 8
  }

  function VarintLen(v: nat): (n: nat)
    ensures IsLen(n)
  {
    if v < 64 then 1 else if v < 16384 then 2 else if v < 1_073_741_824 then 4 else 8
  }

  /** `n` is one of the lengths that can hold `v`. */
  predicate Holds(v: nat, n: nat)
  {
    IsLen(n) && v < 64 * Pow256(n - 1)
  }

  /** `put_varint_with_len`: the big-endian bytes with the length bits set in the first. */
  function Put(v: nat, n: nat): (r: seq<byte>)
    requires Holds(v, n)
    ensures |r| == n
  {
    FirstByte(v, n);
    var b := ToBe(v, n);
    [b[0] + 64 * Tag(n)] + b[1..]
  }

  lemma LenFits(v: nat)
    requires v <= MAX_VARINT
    ensures Holds(v, VarintLen(v))
  {
    assert Pow256(0) == 1;
    assert Pow256(1) == 256;
    assert Pow256(2) == 0x1_0000;
    assert Pow256(3) == 0x100_0000;
    assert Pow256(4) == 0x1_0000_0000;
    assert Pow256(5) == 0x100_0000_0000;
    assert Pow256(6) == 0x1_0000_0000_0000;
    assert Pow256(7) == 0x100_0000_0000_0000;
  }

  function Encode(v: nat): (r: seq<byte>)
    requires v <= MAX_VARINT
    ensures |r| == VarintLen(v)
  {
    LenFits(v);
    Put(v, VarintLen(v))
  }

  /** `get_varint` at the start of `buf`: the value and the bytes it took. */
  function Get(buf: seq<byte>): (r: Option<(nat, nat)>)
    ensures r.Some? ==> 1 <= r.value.1 <= |buf|
  {
    if buf == [] then None
    else
      var n := LenOfFirst(buf[0]);
      if n > |buf| then None else Some((FromBe([buf[0] % 64] + buf[1..n]), n))
  }

  /** Whatever length a value was written with, reading gives it back and stops where it ends. */
  lemma GetPut(v: nat, n: nat, rest: seq<byte>)
    requires Holds(v, n)
    ensures Get(Put(v, n) + rest) == Some((v, n))
  {
    FirstByte(v, n);
    var b, buf := ToBe(v, n), Put(v, n) + rest;
    assert buf[0] == b[0] + 64 * Tag(n);
    assert LenOfFirst(buf[0]) == n;
    assert [buf[0] % 64] + buf[1..n] == b;
    assert v < Pow256(n);
    BeInverse(v, n);
  }

  lemma GetEncode(v: nat, rest: seq<byte>)
    requires v <= MAX_VARINT
    ensures Get(Encode(v) + rest) == Some((v, VarintLen(v)))
  {
    LenFits(v);
    GetPut(v, VarintLen(v), rest);
  }

  /** More input never changes an integer that was already complete. */
  lemma GetStable(buf: seq<byte>, more: seq<byte>)
    requires Get(buf).Some?
    ensures Get(buf + more) == Get(buf)
  {
    var n := LenOfFirst(buf[0]);
    assert (buf + more)[1..n] == buf[1..n];
  }

  lemma {:induction false} FromBeBelow(b: seq<byte>)
    requires b != []
    ensures FromBe(b) < (b[0] + 1) * Pow256(|b| - 1)
  {
    var n := |b| - 1;
    if n > 0 {
      FromBeBelow(b[..n]);
      assert b[..n][0] == b[0];
      var top: nat := b[0] as int + 1;
      NextPower(FromBe(b[..n]), b[n], top, n - 1);
    } else {
      assert FromBe(b[..0]) == 0;
    }
  }

  lemma NextPower(v: nat, x: byte, top: nat, n: nat)
    requires v < top * Pow256(n)
    ensures v * 256 + x < top * Pow256(n + 1)
  {
    assert top * Pow256(n + 1) == 256 * (top * Pow256(n));
  }

  lemma {:induction false} ToBeInverse(b: seq<byte>)
    ensures ToBe(FromBe(b), |b|) == b
  {
    if b != [] {
      ToBeInverse(b[..|b| - 1]);
    }
  }

  /** What is read first is `v` in `n` bytes exactly when the input starts with `v` written in `n` bytes. */
  lemma GetIff(buf: seq<byte>, v: nat, n: nat)
    ensures Get(buf) == Some((v, n)) <==> Holds(v, n) && n <= |buf| && buf[..n] == Put(v, n)
  {
    if Get(buf) == Some((v, n)) {
      var b := [buf[0] % 64] + buf[1..n];
      FromBeBelow(b);
      Within(b[0] + 1, Pow256(n - 1));
      ToBeInverse(b);
      assert buf[..n] == [b[0] + 64 * Tag(n)] + b[1..];
    }
    if Holds(v, n) && n <= |buf| && buf[..n] == Put(v, n) {
      GetPut(v, n, buf[n..]);
      assert buf == Put(v, n) + buf[n..];
    }
  }

  lemma Within(x: nat, power: nat)
    requires x <= 64
    ensures x * power <= 64 * power
  {
  }

  lemma FromBeSnoc(b: seq<byte>, x: byte)
    ensures FromBe(b + [x]) == FromBe(b) * 256 + x as int
  {
    assert (b + [x])[..|b|] == b;
  }

  lemma FromTwo(a: byte, b: byte)
    ensures FromBe([a]) == a as int && FromBe([a, b]) == a as int * 0x100 + b as int
  {
    FromBeSnoc([], a);
    FromBeSnoc([a], b);
    assert [] + [a] == [a] && [a] + [b] == [a, b];
  }

  lemma FromFour(a: byte, b: byte, c: byte, d: byte)
    ensures FromBe([a, b, c, d]) == a as int * 0x100_0000 + b as int * 0x1_0000 + c as int * 0x100 + d as int
  {
    FromTwo(a, b);
    FromBeSnoc([a, b], c);
    FromBeSnoc([a, b, c], d);
    assert [a, b] + [c] == [a, b, c] && [a, b, c] + [d] == [a, b, c, d];
  }

  lemma FromEight(b: seq<byte>)
    requires |b| == 8
    ensures FromBe(b) == FromBe(b[..4]) * 0x1_0000_0000 + FromBe(b[4..])
  {
    FromFour(b[4], b[5], b[6], b[7]);
    assert b[4..] == [b[4], b[5], b[6], b[7]];
    FromBeSnoc(b[..4], b[4]);
    FromBeSnoc(b[..5], b[5]);
    FromBeSnoc(b[..6], b[6]);
    FromBeSnoc(b[..7], b[7]);
    assert b[..4] + [b[4]] == b[..5] && b[..5] + [b[5]] == b[..6] && b[..6] + [b[6]] == b[..7] && b[..7] + [b[7]] == b;
  }

  /** A big-endian integer of four bytes from place `i` on. */
  function Word(buf: seq<byte>, i: nat): nat
    requires i + 4 <= |buf|
  {
    buf[i] as int * 0x100_0000 + buf[i + 1] as int * 0x1_0000 + buf[i + 2] as int * 0x100 + buf[i + 3] as int
  }

  lemma ReadsEight(buf: seq<byte>)
    requires |buf| >= 8
    ensures FromBe([buf[0] % 64] + buf[1..8])
         == (Word(buf, 0) - (buf[0] / 64) as int * 0x4000_0000) * 0x1_0000_0000 + Word(buf, 4)
  {
    var b := [buf[0] % 64] + buf[1..8];
    FromEight(b);
    FromFour(b[0], b[1], b[2], b[3]);
    FromFour(b[4], b[5], b[6], b[7]);
    assert b[..4] == [b[0], b[1], b[2], b[3]] && b[4..] == [b[4], b[5], b[6], b[7]];
  }

  lemma ReadsFour(buf: seq<byte>)
    requires |buf| >= 4
    ensures FromBe([buf[0] % 64] + buf[1..4]) == Word(buf, 0) - (buf[0] / 64) as int * 0x4000_0000
  {
    var b := [buf[0] % 64] + buf[1..4];
    FromFour(b[0], b[1], b[2], b[3]);
    assert b == [b[0], b[1], b[2], b[3]];
  }

  lemma ReadsOneOrTwo(buf: seq<byte>)
    requires buf != []
    ensures FromBe([buf[0] % 64] + buf[1..1]) == (buf[0] % 64) as int
    ensures |buf| >= 2 ==> FromBe([buf[0] % 64] + buf[1..2]) == (buf[0] % 64) as int * 0x100 + buf[1] as int
  {
    FromTwo(buf[0] % 64, 0);
    assert [buf[0] % 64] + buf[1..1] == [buf[0] % 64];
    if |buf| >= 2 {
      FromTwo(buf[0] % 64, buf[1]);
      assert [buf[0] % 64] + buf[1..2] == [buf[0] % 64, buf[1]];
    }
  }

  /**
    The integer byte by byte: the two leading bits give its length, 1, 2, 4 or 8 bytes, and the rest
    of those bytes its value, most significant first.
   */
  lemma GetBytes(buf: seq<byte>)
    ensures Get(buf) ==
      if buf == [] then None
      else if buf[0] < 0x40 then Some((buf[0] as int, 1))
      else if buf[0] < 0x80 then
        if |buf| < 2 then None else Some(((buf[0] as int - 0x40) * 0x100 + buf[1] as int, 2))
      else if buf[0] < 0xC0 then
        if |buf| < 4 then None else Some((Word(buf, 0) - 0x8000_0000, 4))
      else if |buf| < 8 then None
      else Some(((Word(buf, 0) - 0xC000_0000) * 0x1_0000_0000 + Word(buf, 4), 8))
  {
    if buf != [] {
      ReadsOneOrTwo(buf);
      if |buf| >= 4 {
        ReadsFour(buf);
      }
      if |buf| >= 8 {
        ReadsEight(buf);
      }
    }
  }

  lemma Powers()
    ensures Pow256(0) == 1 && Pow256(1) == 0x100 && Pow256(3) == 0x100_0000 && Pow256(7) == 0x100_0000_0000_0000
  {
    assert Pow256(2) == 0x1_0000;
    assert Pow256(4) == 0x1_0000_0000;
    assert Pow256(5) == 0x100_0000_0000;
    assert Pow256(6) == 0x1_0000_0000_0000;
  }

  /** The length an integer is written in is the least of those that hold it. */
  lemma ShortestLength(v: nat, n: nat)
    requires v <= MAX_VARINT
    ensures Holds(v, VarintLen(v)) && (Holds(v, n) ==> VarintLen(v) <= n)
  {
    LenFits(v);
    Powers();
  }
}
