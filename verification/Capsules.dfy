/**
  The capsule stream of an HTTP tunnel (section 3.2 of RFC 9297): an incremental parser that is fed
  pieces of the stream, and the connect-ip capsules of section 4.7 of RFC 9484 inside it.
 */
module Capsules {
  import opened Bytes
  import Varint

  const MAX_CAPSULE_BUF: nat := 256 * 1024

  /** A capsule before its value is interpreted. */
  datatype Raw = Raw(kind: nat, value: seq<byte>)

  /** `encode_capsule`. */
  function Encode(c: Raw): (r: seq<byte>)
    requires c.kind <= Varint.MAX_VARINT && |c.value| <= Varint.MAX_VARINT
    ensures |r| == Varint.VarintLen(c.kind) + Varint.VarintLen(|c.value|) + |c.value|
  {
    Varint.Encode(c.kind) + Varint.Encode(|c.value|) + c.value
  }

  /** The capsule at the start of the buffer, once all of it is there, and its length. */
  function Take(buf: seq<byte>): (r: Option<(Raw, nat)>)
    ensures r.Some? ==> 2 <= r.value.1 <= |buf|
  {
    var kind := Varint.Get(buf);
    if kind.None? then None
    else
      var rest := buf[kind.value.1..];
      var len := Varint.Get(rest);
      if len.None? || |rest| - len.value.1 < len.value.0 then None
      else
        var end: nat := len.value.1 + len.value.0;
        var total: nat := kind.value.1 + end;
        Some((Raw(kind.value.0, rest[len.value.1..end]), total))
  }

  /** Parsing a stream at once: its complete capsules and the incomplete tail. */
  function Parse(buf: seq<byte>): (r: (seq<Raw>, seq<byte>))
    decreases |buf|
  {
    var t := Take(buf);
    if t.None? then ([], buf)
    else
      var (cs, tail) := Parse(buf[t.value.1..]);
      ([t.value.0] + cs, tail)
  }

  // ---------------------------------------------------------------- parsing is incremental

  lemma TakeStable(buf: seq<byte>, more: seq<byte>)
    requires Take(buf).Some?
    ensures Take(buf + more) == Take(buf)
  {
    Varint.GetStable(buf, more);
    var k := Varint.Get(buf).value.1;
    var rest := buf[k..];
    SliceOfPrefix(buf, more, k, |buf|);
    Varint.GetStable(rest, more);
    var len := Varint.Get(rest).value;
    SliceOfPrefix(rest, more, len.1, len.1 + len.0);
  }

  /** What has been parsed stays parsed; the tail and the new input are parsed together. */
  lemma {:induction false} ParseAppend(buf: seq<byte>, more: seq<byte>)
    ensures var (cs, tail) := Parse(buf);
      Parse(buf + more) == (cs + Parse(tail + more).0, Parse(tail + more).1)
    decreases |buf|
  {
    var t := Take(buf);
    if t.Some? {
      TakeStable(buf, more);
      var n := t.value.1;
      SliceOfPrefix(buf, more, n, |buf|);
      ParseAppend(buf[n..], more);
      var (cs, tail) := Parse(buf[n..]);
      Assoc([t.value.0], cs, Parse(tail + more).0);
    } else {
      assert [] + Parse(buf + more).0 == Parse(buf + more).0;
    }
  }

  lemma TakeEncode(c: Raw, rest: seq<byte>)
    requires c.kind <= Varint.MAX_VARINT && |c.value| <= Varint.MAX_VARINT
    ensures Take(Encode(c) + rest) == Some((c, |Encode(c)|))
  {
    var k, l := Varint.Encode(c.kind), Varint.Encode(|c.value|);
    assert Encode(c) + rest == k + (l + (c.value + rest));
    Varint.GetEncode(c.kind, l + (c.value + rest));
    Varint.GetEncode(|c.value|, c.value + rest);
    TakeParts(k, l, c, rest);
  }

  lemma TakeParts(k: seq<byte>, l: seq<byte>, c: Raw, rest: seq<byte>)
    requires Varint.Get(k + (l + (c.value + rest))) == Some((c.kind, |k|))
    requires Varint.Get(l + (c.value + rest)) == Some((|c.value|, |l|))
    ensures Take(k + (l + (c.value + rest))) == Some((c, |k| + |l| + |c.value|))
  {
    MiddleSlice(k, l, c.value + rest);
    MiddleSlice(l, c.value, rest);
  }

  predicate Encodable(cs: seq<Raw>)
  {
    forall i :: 0 <= i < |cs| ==> cs[i].kind <= Varint.MAX_VARINT && |cs[i].value| <= Varint.MAX_VARINT
  }

  function EncodeAll(cs: seq<Raw>): seq<byte>
    requires Encodable(cs)
  {
    if cs == [] then [] else Encode(cs[0]) + EncodeAll(cs[1..])
  }

  /** Any sequence of capsules, whatever their kinds, is parsed back; what follows is left alone. */
  lemma {:induction false} ParseEncode(cs: seq<Raw>, rest: seq<byte>)
    requires Encodable(cs)
    ensures Parse(EncodeAll(cs) + rest) == (cs + Parse(rest).0, Parse(rest).1)
  {
    if cs == [] {
      assert EncodeAll(cs) + rest == rest;
      assert cs + Parse(rest).0 == Parse(rest).0;
    } else {
      var e, tail := Encode(cs[0]), EncodeAll(cs[1..]);
      assert EncodeAll(cs) + rest == e + (tail + rest);
      ParseFirst(cs[0], tail + rest);
      ParseEncode(cs[1..], rest);
      Shift(cs, Parse(rest).0);
    }
  }

  lemma ParseFirst(c: Raw, rest: seq<byte>)
    requires c.kind <= Varint.MAX_VARINT && |c.value| <= Varint.MAX_VARINT
    ensures Parse(Encode(c) + rest) == ([c] + Parse(rest).0, Parse(rest).1)
  {
    TakeEncode(c, rest);
    assert (Encode(c) + rest)[|Encode(c)|..] == rest;
  }

  lemma Shift<T>(a: seq<T>, b: seq<T>)
    requires a != []
    ensures [a[0]] + (a[1..] + b) == a + b
  {
  }

  // ---------------------------------------------------------------- the parser object

  predicate Overflows(buf: seq<byte>, data: seq<byte>)
  {
    |buf| + |data| > MAX_CAPSULE_BUF
  }

  function Pushed(buf: seq<byte>, data: seq<byte>): seq<byte>
  {
    if Overflows(buf, data) then [] else buf + data
  }

  class CapsuleParser {
    var buf: seq<byte>

    constructor ()
      ensures buf == []
    {
      buf := [];
    }

    method Push(data: seq<byte>)
      modifies this
      ensures buf == Pushed(old(buf), data)
      ensures buf == if |old(buf)| + |data| > 262144 then [] else old(buf) + data
    {
      if |buf| + |data| > MAX_CAPSULE_BUF {
        buf := [];
        return;
      }
      buf := buf + data;
    }

    /** The capsule at the start of the buffer. */
    method Peek() returns (t: Option<(Raw, nat)>)
      ensures t == Take(buf)
    {
      var kind := Varint.Get(buf);
      if kind.None? {
        return None;
      }
      var len := Varint.Get(buf[kind.value.1..]);
      if len.None? {
        return None;
      }
      var start := kind.value.1 + len.value.1;
      if |buf| - start < len.value.0 {
        return None;
      }
      SliceOfSlice(buf, kind.value.1, len.value.1, len.value.1 + len.value.0);
      var end: nat := start + len.value.0;
      t := Some((Raw(kind.value.0, buf[start..end]), end));
    }

    /** Takes the next capsule off the buffer and interprets it. */
    method Next() returns (r: Outcome)
      modifies this
      ensures Take(old(buf)).None? ==> r == Pending && buf == old(buf)
      ensures Take(old(buf)).Some? ==>
        buf == old(buf)[Take(old(buf)).value.1..] && r == Interpret(Take(old(buf)).value.0)
    {
      var t := Peek();
      if t.None? {
        return Pending;
      }
      var (capsule, length) := t.value;
      buf := buf[length..];
      match capsule.kind {
        case 1 =>
          var entries := ParseAssigns(capsule.value);
          r := if entries.None? then Bad else Got(AddressAssign(entries.value));
        case 2 => r := Got(AddressRequest);
        case 3 =>
          var routes := ParseRoutes(capsule.value);
          r := if routes.None? then Bad else Got(RouteAdvertisement(routes.value));
        case 0 => r := Got(Datagram(capsule.value));
        case _ => r := Got(Unknown(capsule.kind, capsule.value));
      }
    }
  }

  // ---------------------------------------------------------------- capsule values

  datatype Assigned = Assigned(requestId: nat, version: byte, address: seq<byte>, prefix: byte)
  datatype Route = Route(version: byte, start: seq<byte>, end: seq<byte>, protocol: byte)

  datatype Capsule =
    | AddressAssign(entries: seq<Assigned>)
    | AddressRequest
    | Datagram(payload: seq<byte>)
    | RouteAdvertisement(routes: seq<Route>)
    | Unknown(kind: nat, payload: seq<byte>)

  datatype Outcome = Pending | Bad | Got(capsule: Capsule)

  function Interpret(c: Raw): Outcome
  {
    if c.kind == 1 then
      var e := ReadAssigns(c.value);
      if e.None? then Bad else Got(AddressAssign(e.value))
    else if c.kind == 2 then Got(AddressRequest)
    else if c.kind == 3 then
      var e := ReadRoutes(c.value);
      if e.None? then Bad else Got(RouteAdvertisement(e.value))
    else if c.kind == 0 then Got(Datagram(c.value))
    else Got(Unknown(c.kind, c.value))
  }

  /** Octets of an address of this IP version; zero for versions there are not. */
  function AddrLen(version: byte): nat
  {
    if version == 4 then 4 else if version == 6 then 16 else 0
  }

  function ReadAssign(v: seq<byte>): (r: Option<(Assigned, nat)>)
    ensures r.Some? ==> 0 < r.value.1 <= |v|
  {
    var id := Varint.Get(v);
    if id.None? then None
    else
      var at := id.value.1;
      if at >= |v| || AddrLen(v[at]) == 0 then None
      else
        var n := AddrLen(v[at]);
        if |v| < at + n + 2 then None
        else Some((Assigned(id.value.0, v[at], v[at + 1..at + 1 + n], v[at + 1 + n]), at + n + 2))
  }

  function ReadRoute(v: seq<byte>): (r: Option<(Route, nat)>)
    ensures r.Some? ==> 0 < r.value.1 <= |v|
  {
    if v == [] || AddrLen(v[0]) == 0 then None
    else
      var n := AddrLen(v[0]);
      if |v| < 2 + 2 * n then None
      else Some((Route(v[0], v[1..1 + n], v[1 + n..1 + 2 * n], v[1 + 2 * n]), 2 + 2 * n))
  }

  /** Reads one entry from the front of a value, and says how long it is. */
  type Reader<T> = seq<byte> -> Option<(T, nat)>

  /** Entries until the value is used up; `None` is the error return. A reader always moves on. */
  function ReadAll<T>(read: Reader<T>, v: seq<byte>): Option<seq<T>>
    decreases |v|
  {
    if v == [] then Some([])
    else
      var one := read(v);
      if one.None? || !(0 < one.value.1 <= |v|) then None
      else After([one.value.0], ReadAll(read, v[one.value.1..]))
  }

  /** `parse_address_assign`. */
  function ReadAssigns(v: seq<byte>): Option<seq<Assigned>>
  {
    ReadAll(ReadAssign, v)
  }

  /** `parse_route_advertisement`. */
  function ReadRoutes(v: seq<byte>): Option<seq<Route>>
  {
    ReadAll(ReadRoute, v)
  }

  function After<T>(done: seq<T>, rest: Option<seq<T>>): Option<seq<T>>
  {
    if rest.None? then None else Some(done + rest.value)
  }

  lemma AfterNext<T>(done: seq<T>, x: T, all: Option<seq<T>>, now: Option<seq<T>>, rest: Option<seq<T>>)
    requires all == After(done, now) && now == After([x], rest)
    ensures all == After(done + [x], rest)
  {
    if rest.Some? {
      Assoc(done, [x], rest.value);
    }
  }

  /** The loop of both parsers. */
  method ParseAll<T>(read: Reader<T>, v: seq<byte>) returns (r: Option<seq<T>>)
    ensures r == ReadAll(read, v)
  {
    var out: seq<T>, at := [], 0;
    assert v[0..] == v;
    assert ReadAll(read, v).Some? ==> [] + ReadAll(read, v).value == ReadAll(read, v).value;
    while at < |v|
      invariant 0 <= at <= |v|
      invariant ReadAll(read, v) == After(out, ReadAll(read, v[at..]))
      decreases |v| - at
    {
      var one := read(v[at..]);
      if one.None? || !(0 < one.value.1 <= |v| - at) {
        return None;
      }
      var (entry, n) := one.value;
      SliceOfSlice(v, at, 0, n);
      AfterNext(out, entry, ReadAll(read, v), ReadAll(read, v[at..]), ReadAll(read, v[at + n..]));
      out := out + [entry];
      at := at + n;
    }
    assert v[at..] == [] && out + [] == out;
    r := Some(out);
  }

  method ParseAssigns(v: seq<byte>) returns (r: Option<seq<Assigned>>)
    ensures r == ReadAssigns(v)
  {
    r := ParseAll(ReadAssign, v);
  }

  method ParseRoutes(v: seq<byte>) returns (r: Option<seq<Route>>)
    ensures r == ReadRoutes(v)
  {
    r := ParseAll(ReadRoute, v);
  }

  // ---------------------------------------------------------------- runs of the parser

  datatype Op = Feed(data: seq<byte>) | Pull

  /** A run of the parser: its buffer, the capsules taken, and all bytes fed and consumed so far. */
  datatype Progress = Progress(buf: seq<byte>, out: seq<Raw>, fed: seq<byte>, consumed: seq<byte>)

  function Do(p: Progress, op: Op): Progress
  {
    match op
    case Feed(data) => p.(buf := Pushed(p.buf, data), fed := p.fed + data)
    case Pull =>
      var t := Take(p.buf);
      if t.None? then p
      else p.(buf := p.buf[t.value.1..], out := p.out + [t.value.0], consumed := p.consumed + p.buf[..t.value.1])
  }

  function Run(p: Progress, ops: seq<Op>): Progress
    decreases |ops|
  {
    if ops == [] then p else Run(Do(p, ops[0]), ops[1..])
  }

  /** No push of the run trips the buffer limit. */
  predicate Fits(p: Progress, ops: seq<Op>)
    decreases |ops|
  {
    ops != [] ==> (ops[0].Feed? ==> !Overflows(p.buf, ops[0].data)) && Fits(Do(p, ops[0]), ops[1..])
  }

  /** What was taken, then what the buffer still parses to, is what the whole stream parses to. */
  ghost predicate Faithful(p: Progress)
  {
    && Parse(p.fed) == (p.out + Parse(p.buf).0, Parse(p.buf).1)
    && p.consumed + p.buf == p.fed
  }

  lemma FeedFaithful(p: Progress, data: seq<byte>)
    requires Faithful(p) && !Overflows(p.buf, data)
    ensures Faithful(Do(p, Feed(data)))
  {
    ParseAppend(p.fed, data);
    ParseAppend(p.buf, data);
    var (cs, tail) := Parse(p.buf);
    Assoc(p.out, cs, Parse(tail + data).0);
    Assoc(p.consumed, p.buf, data);
  }

  lemma PullFaithful(p: Progress)
    requires Faithful(p)
    ensures Faithful(Do(p, Pull))
  {
    var t := Take(p.buf);
    if t.Some? {
      var (c, n) := t.value;
      Assoc(p.out, [c], Parse(p.buf[n..]).0);
      Assoc(p.consumed, p.buf[..n], p.buf[n..]);
      assert p.buf[..n] + p.buf[n..] == p.buf;
    }
  }

  lemma {:induction false} RunFaithful(p: Progress, ops: seq<Op>)
    requires Faithful(p) && Fits(p, ops)
    ensures Faithful(Run(p, ops))
    decreases |ops|
  {
    if ops != [] {
      match ops[0] {
        case Feed(data) => FeedFaithful(p, data);
        case Pull => PullFaithful(p);
      }
      RunFaithful(Do(p, ops[0]), ops[1..]);
    }
  }

  /**
    Chunk invariance: however a stream is cut into pushes, and whenever capsules are pulled, the
    capsules that come out are a prefix of those of the stream parsed at once, all of them once a
    pull finds nothing; and no byte is lost, the consumed bytes and the buffer being the stream.
   */
  lemma ChunkInvariance(ops: seq<Op>)
    requires Fits(Progress([], [], [], []), ops)
    ensures var p := Run(Progress([], [], [], []), ops);
      && p.out <= Parse(p.fed).0
      && (Take(p.buf).None? ==> p.out == Parse(p.fed).0 && p.buf == Parse(p.fed).1)
      && p.consumed + p.buf == p.fed
  {
    var nothing: seq<Raw> := [];
    assert Parse([]) == (nothing, []) && nothing + nothing == nothing;
    RunFaithful(Progress([], [], [], []), ops);
    var p := Run(Progress([], [], [], []), ops);
    if Take(p.buf).None? {
      assert p.out + [] == p.out;
    }
  }

  /**
    End to end: the encodings of any capsules, cut into pushes in any way that fits the buffer, come
    out as exactly those capsules once a pull finds nothing more.
   */
  lemma CapsulesRoundTrip(cs: seq<Raw>, ops: seq<Op>)
    requires Encodable(cs) && Fits(Progress([], [], [], []), ops)
    requires Run(Progress([], [], [], []), ops).fed == EncodeAll(cs)
    requires Take(Run(Progress([], [], [], []), ops).buf).None?
    ensures Run(Progress([], [], [], []), ops).out == cs && Run(Progress([], [], [], []), ops).buf == []
  {
    ChunkInvariance(ops);
    ParseEncode(cs, []);
    assert EncodeAll(cs) + [] == EncodeAll(cs);
    assert Parse([]) == ([], []);
    assert cs + [] == cs;
  }

  // ---------------------------------------------------------------- the values, both ways

  /** A well-formed entry whose request id is written in `n` bytes. */
  predicate GoodAssigned(e: Assigned, n: nat)
  {
    Varint.Holds(e.requestId, n) && ((e.version == 4 && |e.address| == 4) || (e.version == 6 && |e.address| == 16))
  }

  predicate GoodAssigns(es: seq<Assigned>, ns: seq<nat>)
  {
    |ns| == |es| && forall i :: 0 <= i < |es| ==> GoodAssigned(es[i], ns[i])
  }

  predicate GoodRoute(e: Route)
  {
    (e.version == 4 && |e.start| == 4 == |e.end|) || (e.version == 6 && |e.start| == 16 == |e.end|)
  }

  function WriteAssign(e: Assigned, n: nat): seq<byte>
    requires GoodAssigned(e, n)
  {
    Varint.Put(e.requestId, n) + [e.version] + e.address + [e.prefix]
  }

  /** The entries one after another, the request id of each in as many bytes as `ns` says. */
  function WriteAssigns(es: seq<Assigned>, ns: seq<nat>): seq<byte>
    requires GoodAssigns(es, ns)
  {
    if es == [] then [] else WriteAssign(es[0], ns[0]) + WriteAssigns(es[1..], ns[1..])
  }

  function WriteRoute(e: Route): seq<byte>
  {
    [e.version] + e.start + e.end + [e.protocol]
  }

  function WriteRoutes(es: seq<Route>): seq<byte>
  {
    if es == [] then [] else WriteRoute(es[0]) + WriteRoutes(es[1..])
  }

  lemma ReadAssignWritten(e: Assigned, n: nat, rest: seq<byte>)
    requires GoodAssigned(e, n)
    ensures var b := WriteAssign(e, n); ReadAssign(b + rest) == Some((e, |b|)) && (b + rest)[|b|..] == rest
  {
    var id, b := Varint.Put(e.requestId, n), WriteAssign(e, n);
    var rest' := [e.version] + (e.address + ([e.prefix] + rest));
    assert b + rest == id + rest';
    Varint.GetPut(e.requestId, n, rest');
    AssignParts(id, e, rest);
  }

  lemma AssignParts(id: seq<byte>, e: Assigned, rest: seq<byte>)
    requires AddrLen(e.version) > 0 && |e.address| == AddrLen(e.version)
    requires Varint.Get(id + ([e.version] + (e.address + ([e.prefix] + rest)))) == Some((e.requestId, |id|))
    ensures var v := id + ([e.version] + (e.address + ([e.prefix] + rest)));
      ReadAssign(v) == Some((e, |id| + |e.address| + 2)) && v[|id| + |e.address| + 2..] == rest
  {
    AssignSlices(id, e.version, e.address, e.prefix, rest, id + ([e.version] + (e.address + ([e.prefix] + rest))));
  }

  lemma AssignSlices(id: seq<byte>, version: byte, address: seq<byte>, prefix: byte, rest: seq<byte>, v: seq<byte>)
    requires v == id + ([version] + (address + ([prefix] + rest)))
    ensures var at, n := |id|, |address|;
      && |v| == at + n + 2 + |rest| && v[at] == version && v[at + 1..at + 1 + n] == address
      && v[at + 1 + n] == prefix && v[at + n + 2..] == rest
  {
    assert v == (id + [version]) + (address + ([prefix] + rest));
    MiddleSlice(id + [version], address, [prefix] + rest);
    assert v == (id + [version] + address + [prefix]) + rest;
  }

  /** Address assignments round-trip, whatever lengths their request ids are written in. */
  lemma {:induction false} AssignsRoundTrip(es: seq<Assigned>, ns: seq<nat>)
    requires GoodAssigns(es, ns)
    ensures ReadAssigns(WriteAssigns(es, ns)) == Some(es)
  {
    if es != [] {
      ReadAssignWritten(es[0], ns[0], WriteAssigns(es[1..], ns[1..]));
      AssignsRoundTrip(es[1..], ns[1..]);
      assert [es[0]] + es[1..] == es;
    }
  }

  lemma AssignPieces(v: seq<byte>, at: nat, k: nat)
    requires at + k + 2 <= |v|
    ensures v[..at + k + 2] == v[..at] + [v[at]] + v[at + 1..at + 1 + k] + [v[at + 1 + k]]
  {
  }

  /** An entry that is read is there as it was written. */
  lemma ReadAssignSound(v: seq<byte>, e: Assigned, m: nat, n: nat)
    requires ReadAssign(v) == Some((e, m)) && n == Varint.Get(v).value.1
    ensures GoodAssigned(e, n) && m <= |v| && v[..m] == WriteAssign(e, n)
  {
    Varint.GetIff(v, e.requestId, n);
    AssignPieces(v, n, AddrLen(e.version));
  }

  lemma AssignsJoin(v: seq<byte>, m: nat, e: Assigned, n: nat, rest: seq<Assigned>, ns: seq<nat>)
    requires GoodAssigned(e, n) && m <= |v| && v[..m] == WriteAssign(e, n)
    requires GoodAssigns(rest, ns) && v[m..] == WriteAssigns(rest, ns)
    ensures GoodAssigns([e] + rest, [n] + ns) && v == WriteAssigns([e] + rest, [n] + ns)
  {
    assert ([e] + rest)[1..] == rest && ([n] + ns)[1..] == ns && v == v[..m] + v[m..];
  }

  lemma {:induction false} AssignsSound(v: seq<byte>, es: seq<Assigned>) returns (ns: seq<nat>)
    requires ReadAssigns(v) == Some(es)
    ensures IsAssigns(v, es, ns)
    decreases |v|
  {
    if v == [] {
      ns := [];
    } else {
      var (e, m) := ReadAssign(v).value;
      var n := Varint.Get(v).value.1;
      ReadAssignSound(v, e, m, n);
      var rest := ReadAssigns(v[m..]).value;
      var later := AssignsSound(v[m..], rest);
      AssignsJoin(v, m, e, n, rest, later);
      ns := [n] + later;
    }
  }

  /** The value is these entries, each request id in one of the lengths that hold it. */
  predicate IsAssigns(v: seq<byte>, es: seq<Assigned>, ns: seq<nat>)
  {
    GoodAssigns(es, ns) && v == WriteAssigns(es, ns)
  }

  /** Address assignments: reading succeeds with `es` exactly on the encodings of `es`. */
  lemma AssignsIff(v: seq<byte>, es: seq<Assigned>)
    ensures ReadAssigns(v) == Some(es) <==> exists ns :: IsAssigns(v, es, ns)
  {
    if ReadAssigns(v) == Some(es) {
      var ns := AssignsSound(v, es);
    }
    if ns :| IsAssigns(v, es, ns) {
      AssignsRoundTrip(es, ns);
    }
  }

  lemma FourParts(v: seq<byte>, k: nat, n: nat)
    requires n == 2 + 2 * k <= |v|
    ensures v[..n] == [v[0]] + v[1..1 + k] + v[1 + k..1 + 2 * k] + [v[1 + 2 * k]]
  {
  }

  lemma Quartered(a: byte, b: seq<byte>, c: seq<byte>, d: byte)
    ensures var w := [a] + b + c + [d];
      && w[0] == a && w[1..1 + |b|] == b && w[1 + |b|..1 + |b| + |c|] == c && w[1 + |b| + |c|] == d
  {
    assert [a] + b + c + [d] == [a] + (b + (c + [d]));
    MiddleSlice([a], b, c + [d]);
    assert [a] + b + c + [d] == ([a] + b) + (c + [d]);
    MiddleSlice([a] + b, c, [d]);
  }

  lemma ReadRouteIff(v: seq<byte>, e: Route, n: nat)
    ensures ReadRoute(v) == Some((e, n)) <==> n <= |v| && GoodRoute(e) && v[..n] == WriteRoute(e)
  {
    if ReadRoute(v) == Some((e, n)) {
      var k := AddrLen(e.version);
      FourParts(v, k, n);
    }
    if n <= |v| && GoodRoute(e) && v[..n] == WriteRoute(e) {
      var w, k := WriteRoute(e), AddrLen(e.version);
      Quartered(e.version, e.start, e.end, e.protocol);
      assert v[0] == w[0] && v[1 + 2 * k] == w[1 + 2 * k];
      SliceOfTake(v, n, 1, 1 + k);
      SliceOfTake(v, n, 1 + k, 1 + 2 * k);
    }
  }

  predicate GoodRoutes(es: seq<Route>)
  {
    forall i :: 0 <= i < |es| ==> GoodRoute(es[i])
  }

  lemma {:induction false} RoutesSound(v: seq<byte>, es: seq<Route>)
    requires ReadRoutes(v) == Some(es)
    ensures GoodRoutes(es) && v == WriteRoutes(es)
    decreases |v|
  {
    if v != [] {
      var (e, n) := ReadRoute(v).value;
      ReadRouteIff(v, e, n);
      var rest := ReadRoutes(v[n..]).value;
      RoutesSound(v[n..], rest);
      RoutesJoin(v, n, e, rest);
    }
  }

  lemma RoutesJoin(v: seq<byte>, n: nat, e: Route, rest: seq<Route>)
    requires n <= |v| && GoodRoute(e) && v[..n] == WriteRoute(e) && GoodRoutes(rest) && v[n..] == WriteRoutes(rest)
    ensures GoodRoutes([e] + rest) && v == WriteRoutes([e] + rest)
  {
    assert ([e] + rest)[1..] == rest && v == v[..n] + v[n..];
  }

  lemma {:induction false} RoutesComplete(es: seq<Route>)
    requires GoodRoutes(es)
    ensures ReadRoutes(WriteRoutes(es)) == Some(es)
  {
    if es != [] {
      var v, w, rest := WriteRoutes(es), WriteRoute(es[0]), WriteRoutes(es[1..]);
      assert v[..|w|] == w && v[|w|..] == rest;
      ReadRouteIff(v, es[0], |w|);
      RoutesComplete(es[1..]);
      assert [es[0]] + es[1..] == es;
    }
  }

  /** Route advertisements: reading succeeds with `es` exactly on the one encoding of `es`. */
  lemma RoutesIff(v: seq<byte>, es: seq<Route>)
    ensures ReadRoutes(v) == Some(es) <==> GoodRoutes(es) && v == WriteRoutes(es)
  {
    if ReadRoutes(v) == Some(es) {
      RoutesSound(v, es);
    }
    if GoodRoutes(es) {
      RoutesComplete(es);
    }
  }

  // ---------------------------------------------------------------- capsules on the wire

  /** The bytes are capsule `c`, its kind written in `i` bytes and its length in `j`. */
  predicate IsCapsule(b: seq<byte>, c: Raw, i: nat, j: nat)
  {
    && Varint.Holds(c.kind, i) && Varint.Holds(|c.value|, j)
    && b == Varint.Put(c.kind, i) + (Varint.Put(|c.value|, j) + c.value)
  }

  lemma TakesWritten(c: Raw, i: nat, j: nat, b: seq<byte>, rest: seq<byte>)
    requires IsCapsule(b, c, i, j)
    ensures Take(b + rest) == Some((c, |b|))
  {
    var k, l := Varint.Put(c.kind, i), Varint.Put(|c.value|, j);
    assert b + rest == k + (l + (c.value + rest));
    Varint.GetPut(c.kind, i, l + (c.value + rest));
    Varint.GetPut(|c.value|, j, c.value + rest);
    TakeParts(k, l, c, rest);
  }

  lemma TakenIsWritten(buf: seq<byte>, c: Raw, n: nat) returns (i: nat, j: nat)
    requires Take(buf) == Some((c, n))
    ensures n <= |buf| && IsCapsule(buf[..n], c, i, j)
  {
    i := Varint.Get(buf).value.1;
    Varint.GetIff(buf, c.kind, i);
    var rest := buf[i..];
    j := Varint.Get(rest).value.1;
    Varint.GetIff(rest, |c.value|, j);
    ThreeParts(buf, i, j, |c.value|);
  }

  lemma ThreeParts(buf: seq<byte>, i: nat, j: nat, m: nat)
    requires i + j + m <= |buf|
    ensures buf[..i + j + m] == buf[..i] + (buf[i..][..j] + buf[i..][j..j + m])
  {
  }

  /** A capsule is taken off the buffer exactly when the buffer begins with it, in whatever lengths it is written. */
  lemma TakeIff(buf: seq<byte>, c: Raw, n: nat)
    ensures Take(buf) == Some((c, n)) <==> n <= |buf| && exists i: nat, j: nat :: IsCapsule(buf[..n], c, i, j)
  {
    if Take(buf) == Some((c, n)) {
      var i, j := TakenIsWritten(buf, c, n);
    }
    if n <= |buf| {
      if i: nat, j: nat :| IsCapsule(buf[..n], c, i, j) {
        TakesWritten(c, i, j, buf[..n], buf[n..]);
        Halves(buf, n);
      }
    }
  }

  /**
    What each kind stands for: 0 a datagram, 1 the address assignments its value encodes, 2 an
    address request, 3 the routes its value encodes, any other something unknown, kept as it is.
   */
  lemma KindsMean(c: Raw, es: seq<Assigned>, rs: seq<Route>)
    ensures c.kind == 0 ==> Interpret(c) == Got(Datagram(c.value))
    ensures c.kind == 1 ==> (Interpret(c) == Got(AddressAssign(es)) <==> exists ns :: IsAssigns(c.value, es, ns))
    ensures c.kind == 2 ==> Interpret(c) == Got(AddressRequest)
    ensures c.kind == 3 ==>
      (Interpret(c) == Got(RouteAdvertisement(rs)) <==> GoodRoutes(rs) && c.value == WriteRoutes(rs))
    ensures c.kind > 3 ==> Interpret(c) == Got(Unknown(c.kind, c.value))
  {
    AssignsIff(c.value, es);
    RoutesIff(c.value, rs);
  }

  /** A capsule is refused exactly when its value encodes no list of what its kind stands for. */
  lemma BadIff(c: Raw)
    ensures Interpret(c) == Bad <==>
      || (c.kind == 1 && forall es, ns :: !IsAssigns(c.value, es, ns))
      || (c.kind == 3 && forall rs :: !(GoodRoutes(rs) && c.value == WriteRoutes(rs)))
  {
    if c.kind == 1 && ReadAssigns(c.value).None? {
      forall es, ns
        ensures !IsAssigns(c.value, es, ns)
      {
        AssignsIff(c.value, es);
      }
    } else if c.kind == 1 {
      var ns := AssignsSound(c.value, ReadAssigns(c.value).value);
    } else if c.kind == 3 && ReadRoutes(c.value).None? {
      forall rs
        ensures !(GoodRoutes(rs) && c.value == WriteRoutes(rs))
      {
        RoutesIff(c.value, rs);
      }
    } else if c.kind == 3 {
      RoutesIff(c.value, ReadRoutes(c.value).value);
    }
  }
}
