/** Undoing HTTP/1.1 chunked encoding (section 7.1 of RFC 9112) on a text that may be cut short. */
module Dechunk {
  import opened Bytes

  const CR: byte := 13
  const LF: byte := 10
  const CRLF: seq<byte> := [CR, LF]

  /**
   * A chunk whose end leaves the address range is a panic, whether the sum overflows or wraps to
   * before its start. So is slicing the text inside a character.
   */
  datatype Outcome = Done(body: seq<byte>) | Panicked

  // ---------------------------------------------------------------- the size line

  function HexValue(b: byte): (r: Option<nat>)
    ensures r.Some? ==> r.value < 16
  {
    if 48 <= b <= 57 then Some(b - 48)
    else if 65 <= b <= 70 then Some(b - 55)
    else if 97 <= b <= 102 then Some(b - 87)
    else None
  }

  function HexDigits(s: seq<byte>): Option<nat>
  {
    if s == [] then Some(0)
    else
      var high := HexDigits(s[..|s| - 1]);
      var low := HexValue(s[|s| - 1]);
      if high.None? || low.None? then None else Some(high.value * 16 + low.value)
  }

  /** `usize::from_str_radix(_, 16)`: an optional plus sign, at least one digit, and no overflow. */
  function ParseHex(s: seq<byte>): Option<nat>
  {
    var digits := if |s| > 1 && s[0] == 43 then s[1..] else s;
    if digits == [] then None
    else
      var n := HexDigits(digits);
      if n.None? || n.value >= USIZE then None else n
  }

  function UpToSemicolon(s: seq<byte>): seq<byte>
  {
    if s == [] || s[0] == 59 then [] else [s[0]] + UpToSemicolon(s[1..])
  }

  /** The chunk size a line announces; extensions after a semicolon do not count. */
  function SizeOf(line: seq<byte>): Option<nat>
  {
    ParseHex(Trim(UpToSemicolon(line)))
  }

  // ---------------------------------------------------------------- decoding

  /** Where the line starting at `from` ends. */
  function FindCrlf(body: seq<byte>, from: nat): (r: Option<nat>)
    ensures r.Some? ==> from <= r.value && r.value + 2 <= |body|
    decreases |body| - from
  {
    if from + 2 > |body| then None
    else if body[from] == CR && body[from + 1] == LF then Some(from)
    else FindCrlf(body, from + 1)
  }

  function Drop(s: seq<byte>, n: nat): seq<byte>
  {
    if n >= |s| then [] else s[n..]
  }

  /** How a size line is read. The framing results hold for every such reading; the loop uses `SizeOf`. */
  type SizeParser = seq<byte> -> Option<nat>

  /** A chunk that ends at `end`, and the cursor behind it, are not inside a character. */
  predicate Clean(rest: seq<byte>, end: nat)
    requires end <= |rest|
  {
    Boundary(rest, end) && Boundary(rest, Min(end + 2, |rest|))
  }

  /**
   * What one turn of the loop does: stop, panic on the sum, panic on a slice of this turn or the next,
   * or copy `data` and go on with `rest`, which begins at `at`.
   */
  datatype Next = Stop | Overflow | Split | Copy(data: seq<byte>, rest: seq<byte>, at: nat)

  /** The turn that finds `rest` left of the body, with the cursor at `at`. */
  function Turn(parse: SizeParser, rest: seq<byte>, at: nat): (r: Next)
    ensures r.Copy? ==> at < r.at && |r.rest| < |rest|
  {
    var line := FindCrlf(rest, 0);
    if line.None? then Stop
    else
      var size := parse(rest[..line.value]);
      if size.None? || size.value == 0 then Stop
      else
        var start := line.value + 2;
        var end := start + size.value;
        if at + end >= USIZE then Overflow
        else if end > |rest| then Stop
        else if !Clean(rest, end) then Split
        else Copy(rest[start..end], Drop(rest, end + 2), at + end + 2)
  }

  function Prepend(out: seq<byte>, r: Outcome): Outcome
  {
    if r.Panicked? then Panicked else Done(out + r.body)
  }

  function DecodeFrom(parse: SizeParser, rest: seq<byte>, at: nat): Outcome
    decreases |rest|
  {
    if rest == [] then Done([])
    else
      var next := Turn(parse, rest, at);
      if next.Stop? then Done([])
      else if !next.Copy? then Panicked
      else Prepend(next.data, DecodeFrom(parse, next.rest, next.at))
  }

  lemma PrependTwice(a: seq<byte>, b: seq<byte>, r: Outcome)
    ensures Prepend(a, Prepend(b, r)) == Prepend(a + b, r)
  {
    if r.Done? {
      assert a + (b + r.body) == (a + b) + r.body;
    }
  }

  lemma DropDrop(body: seq<byte>, cursor: nat, n: nat)
    requires cursor <= |body|
    ensures Drop(body[cursor..], n) == Drop(body, cursor + n)
  {
  }

  lemma TurnDrops(parse: SizeParser, rest: seq<byte>, at: nat)
    ensures var r := Turn(parse, rest, at);
      r.Copy? ==> r.rest == Drop(rest, r.at - at)
  {
  }

  method Decode(body: seq<byte>) returns (r: Outcome)
    ensures r == DecodeFrom(SizeOf, body, 0)
  {
    var out: seq<byte>, cursor: nat := [], 0;
    while cursor < |body|
      invariant Prepend(out, DecodeFrom(SizeOf, Drop(body, cursor), cursor)) == DecodeFrom(SizeOf, body, 0)
      decreases |body| - cursor
    {
      var next := Turn(SizeOf, body[cursor..], cursor);
      if next.Stop? {
        break;
      }
      if !next.Copy? {
        return Panicked;
      }
      TurnDrops(SizeOf, body[cursor..], cursor);
      DropDrop(body, cursor, next.at - cursor);
      PrependTwice(out, next.data, DecodeFrom(SizeOf, next.rest, next.at));
      out := out + next.data;
      cursor := next.at;
    }
    r := Done(out);
  }

  // ---------------------------------------------------------------- encoding

  /** A chunk as it is sent: its size line, whatever its form, and its data. */
  datatype Chunk = Chunk(line: seq<byte>, data: seq<byte>)

  predicate NoCrlf(line: seq<byte>)
  {
    forall i :: 0 <= i < |line| - 1 ==> !(line[i] == CR && line[i + 1] == LF)
  }

  predicate GoodChunk(parse: SizeParser, c: Chunk)
  {
    NoCrlf(c.line) && |c.data| > 0 && parse(c.line) == Some(|c.data|)
  }

  /** A line does not begin inside a character. */
  predicate Starts(line: seq<byte>)
  {
    Boundary(line, 0)
  }

  predicate GoodChunks(parse: SizeParser, cs: seq<Chunk>)
  {
    forall i :: 0 <= i < |cs| ==> GoodChunk(parse, cs[i]) && Starts(cs[i].line)
  }

  function EncodeChunk(c: Chunk): (r: seq<byte>)
    ensures |r| == |c.line| + |c.data| + 4
  {
    c.line + CRLF + c.data + CRLF
  }

  function Encode(cs: seq<Chunk>): seq<byte>
  {
    if cs == [] then [] else EncodeChunk(cs[0]) + Encode(cs[1..])
  }

  function Datas(cs: seq<Chunk>): seq<byte>
  {
    if cs == [] then [] else cs[0].data + Datas(cs[1..])
  }

  /** How many chunks have all their data within the first `m` bytes of the encoding. */
  function Complete(cs: seq<Chunk>, m: int): (n: nat)
    ensures n <= |cs|
  {
    if cs == [] || m < |cs[0].line| + 2 + |cs[0].data| then 0
    else 1 + Complete(cs[1..], m - |EncodeChunk(cs[0])|)
  }

  // ---------------------------------------------------------------- finding the line end

  lemma {:induction false} FindsFirst(body: seq<byte>, from: nat, at: nat)
    requires from <= at && at + 2 <= |body| && body[at] == CR && body[at + 1] == LF
    requires forall i :: from <= i < at ==> !(body[i] == CR && body[i + 1] == LF)
    ensures FindCrlf(body, from) == Some(at)
    decreases at - from
  {
    if from < at {
      FindsFirst(body, from + 1, at);
    }
  }

  lemma {:induction false} FindsNone(body: seq<byte>, from: nat)
    requires forall i :: from <= i < |body| - 1 ==> !(body[i] == CR && body[i + 1] == LF)
    ensures FindCrlf(body, from).None?
    decreases |body| - from
  {
    if from + 2 <= |body| {
      FindsNone(body, from + 1);
    }
  }

  /** A line without a line end inside, followed by one, is found whole. */
  lemma LineFound(line: seq<byte>, rest: seq<byte>)
    requires NoCrlf(line)
    ensures FindCrlf(line + CRLF + rest, 0) == Some(|line|)
    ensures (line + CRLF + rest)[..|line|] == line
  {
    FindsFirst(line + CRLF + rest, 0, |line|);
  }

  /** A line cut before the end of its line end is not found at all. */
  lemma LineCut(line: seq<byte>, k: nat)
    requires NoCrlf(line) && k < |line| + 2
    ensures FindCrlf((line + CRLF)[..k], 0).None?
  {
    FindsNone((line + CRLF)[..k], 0);
  }

  // ---------------------------------------------------------------- the round trip, cut anywhere

  lemma TurnCopies(parse: SizeParser, body: seq<byte>, at: nat, line: nat, size: nat)
    requires FindCrlf(body, 0) == Some(line) && parse(body[..line]) == Some(size) && 0 < size
    requires at + line + 2 + size < USIZE && (line + 2 + size <= |body| ==> Clean(body, line + 2 + size))
    ensures Turn(parse, body, at)
         == if |body| < line + 2 + size then Stop
            else Copy(body[line + 2..line + 2 + size], Drop(body, line + size + 4), at + line + size + 4)
  {
  }

  lemma TurnGives(parse: SizeParser, body: seq<byte>, at: nat, line: nat, data: seq<byte>, rest: seq<byte>)
    requires FindCrlf(body, 0) == Some(line) && parse(body[..line]) == Some(|data|) && 0 < |data|
    requires at + line + 2 + |data| < USIZE && line + 2 + |data| <= |body| && Clean(body, line + 2 + |data|)
    requires body[line + 2..line + 2 + |data|] == data && Drop(body, line + |data| + 4) == rest
    ensures Turn(parse, body, at) == Copy(data, rest, at + line + |data| + 4)
  {
  }

  lemma DataAt(head: seq<byte>, data: seq<byte>, rest: seq<byte>)
    ensures var body := head + data + rest;
      && body[|head|..|head| + |data|] == data
      && Drop(body, |head| + |data| + 2) == Drop(rest, 2)
      && Clean(body, |head| + |data|) == Clean(rest, 0)
  {
  }

  lemma ChunkLine(c: Chunk, rest: seq<byte>)
    requires NoCrlf(c.line)
    ensures FindCrlf(c.line + CRLF + c.data + rest, 0) == Some(|c.line|)
    ensures (c.line + CRLF + c.data + rest)[..|c.line|] == c.line
  {
    assert c.line + CRLF + c.data + rest == c.line + CRLF + (c.data + rest);
    LineFound(c.line, c.data + rest);
  }

  /** With a chunk's line and data there, the data is copied and what follows the line end is next. */
  lemma ChunkRead(parse: SizeParser, c: Chunk, rest: seq<byte>, at: nat)
    requires GoodChunk(parse, c) && at + |c.line| + 2 + |c.data| < USIZE && Clean(rest, 0)
    ensures Turn(parse, c.line + CRLF + c.data + rest, at)
         == Copy(c.data, Drop(rest, 2), at + |c.line| + |c.data| + 4)
  {
    var body := c.line + CRLF + c.data + rest;
    ChunkLine(c, rest);
    DataAt(c.line + CRLF, c.data, rest);
    TurnGives(parse, body, at, |c.line|, c.data, Drop(rest, 2));
  }

  /** With some of its data missing, nothing is copied. */
  lemma ChunkCut(parse: SizeParser, c: Chunk, k: nat, at: nat)
    requires GoodChunk(parse, c) && k < |c.line| + 2 + |c.data| && at + |c.line| + 2 + |c.data| < USIZE
    ensures Turn(parse, (c.line + CRLF + c.data)[..k], at) == Stop
  {
    if k < |c.line| + 2 {
      assert (c.line + CRLF + c.data)[..k] == (c.line + CRLF)[..k];
      LineCut(c.line, k);
    } else {
      var part := c.data[..k - |c.line| - 2];
      assert (c.line + CRLF + c.data)[..k] == c.line + CRLF + part;
      LineFound(c.line, part);
      TurnCopies(parse, c.line + CRLF + part, at, |c.line|, |c.data|);
    }
  }

  predicate EndsBody(parse: SizeParser, last: seq<byte>)
  {
    NoCrlf(last) && Starts(last) && (parse(last).None? || parse(last) == Some(0))
  }

  /** The line that ends the chunks, and what follows it. */
  function Ending(last: seq<byte>, trailer: seq<byte>): seq<byte>
  {
    last + CRLF + trailer
  }

  /** The last line, cut or not, stops the loop. */
  lemma LastLineStops(parse: SizeParser, last: seq<byte>, trailer: seq<byte>, k: nat, at: nat)
    requires EndsBody(parse, last) && k <= |Ending(last, trailer)|
    ensures Turn(parse, Ending(last, trailer)[..k], at) == Stop
  {
    if k < |last| + 2 {
      assert Ending(last, trailer)[..k] == (last + CRLF)[..k];
      LineCut(last, k);
    } else {
      var part := trailer[..k - |last| - 2];
      assert Ending(last, trailer)[..k] == last + CRLF + part;
      LineFound(last, part);
    }
  }

  /** The loop's turns copy the data of `cs` in order and then stop. */
  predicate Copies(parse: SizeParser, cs: seq<Chunk>, body: seq<byte>, at: nat)
    decreases |cs|
  {
    if cs == [] then body == [] || Turn(parse, body, at) == Stop
    else
      var next := Turn(parse, body, at);
      next.Copy? && next.data == cs[0].data && Copies(parse, cs[1..], next.rest, next.at)
  }

  lemma CopiesMore(parse: SizeParser, c: Chunk, cs: seq<Chunk>, body: seq<byte>, at: nat, rest: seq<byte>, next: nat)
    requires Turn(parse, body, at) == Copy(c.data, rest, next) && Copies(parse, cs, rest, next)
    ensures Copies(parse, [c] + cs, body, at)
  {
    assert ([c] + cs)[1..] == cs;
  }

  lemma {:induction false} CopiesDecodes(parse: SizeParser, cs: seq<Chunk>, body: seq<byte>, at: nat)
    requires Copies(parse, cs, body, at)
    ensures DecodeFrom(parse, body, at) == Done(Datas(cs))
    decreases |cs|
  {
    if cs != [] {
      var next := Turn(parse, body, at);
      CopiesDecodes(parse, cs[1..], next.rest, next.at);
    }
  }

  /** The first `k` bytes of an encoding, chunk by chunk. */
  function Cut(cs: seq<Chunk>, end: seq<byte>, k: nat): seq<byte>
    requires k <= |Encode(cs)| + |end|
  {
    if cs == [] then end[..k]
    else if k < |EncodeChunk(cs[0])| then EncodeChunk(cs[0])[..k]
    else EncodeChunk(cs[0]) + Cut(cs[1..], end, k - |EncodeChunk(cs[0])|)
  }

  lemma {:induction false} CutIsPrefix(cs: seq<Chunk>, end: seq<byte>, k: nat)
    requires k <= |Encode(cs)| + |end|
    ensures Cut(cs, end, k) == (Encode(cs) + end)[..k]
  {
    if cs == [] {
      assert Encode(cs) + end == end;
    } else {
      var first, rest := EncodeChunk(cs[0]), Encode(cs[1..]);
      assert Encode(cs) + end == first + (rest + end);
      if k >= |first| {
        CutIsPrefix(cs[1..], end, k - |first|);
      }
    }
  }

  /** A chunk cut short: its data counts when only its closing line end is incomplete. */
  lemma PartialChunk(parse: SizeParser, c: Chunk, k: nat, at: nat)
    requires GoodChunk(parse, c) && k < |EncodeChunk(c)| && at + |EncodeChunk(c)| < USIZE
    ensures Copies(parse, if k < |EncodeChunk(c)| - 2 then [] else [c], EncodeChunk(c)[..k], at)
  {
    var body := EncodeChunk(c)[..k];
    if k < |EncodeChunk(c)| - 2 {
      assert body == (c.line + CRLF + c.data)[..k];
      ChunkCut(parse, c, k, at);
    } else {
      var part := CRLF[..k - |c.line| - 2 - |c.data|];
      assert body == c.line + CRLF + c.data + part;
      ChunkRead(parse, c, part, at);
    }
  }

  lemma WholeChunk(parse: SizeParser, c: Chunk, rest: seq<byte>, at: nat)
    requires GoodChunk(parse, c) && at + |EncodeChunk(c)| < USIZE && Starts(rest)
    ensures Turn(parse, EncodeChunk(c) + rest, at) == Copy(c.data, rest, at + |EncodeChunk(c)|)
  {
    assert EncodeChunk(c) + rest == c.line + CRLF + c.data + (CRLF + rest);
    ChunkRead(parse, c, CRLF + rest, at);
    assert Drop(CRLF + rest, 2) == rest;
  }

  lemma WholeThen(parse: SizeParser, c: Chunk, cs: seq<Chunk>, rest: seq<byte>, at: nat, body: seq<byte>, to: nat)
    requires GoodChunk(parse, c) && Starts(rest) && body == EncodeChunk(c) + rest && to == at + |EncodeChunk(c)| < USIZE
    requires Copies(parse, cs, rest, to)
    ensures Copies(parse, [c] + cs, body, at)
  {
    WholeChunk(parse, c, rest, at);
    CopiesMore(parse, c, cs, body, at, rest, to);
  }

  lemma CompleteStep(cs: seq<Chunk>, k: nat)
    requires cs != []
    ensures var size := |EncodeChunk(cs[0])|;
      cs[..Complete(cs, k)]
      == if k < size - 2 then []
         else if k < size then [cs[0]]
         else [cs[0]] + cs[1..][..Complete(cs[1..], k - size)]
  {
  }

  lemma CutStep(cs: seq<Chunk>, end: seq<byte>, k: nat)
    requires cs != [] && |EncodeChunk(cs[0])| <= k <= |Encode(cs)| + |end|
    ensures k - |EncodeChunk(cs[0])| <= |Encode(cs[1..])| + |end|
    ensures Cut(cs, end, k) == EncodeChunk(cs[0]) + Cut(cs[1..], end, k - |EncodeChunk(cs[0])|)
  {
  }

  /** The chunks that have arrived in full, and the bytes that have. */
  predicate CutCopies(parse: SizeParser, cs: seq<Chunk>, end: seq<byte>, k: nat, at: nat)
    requires k <= |Encode(cs)| + |end|
  {
    Copies(parse, cs[..Complete(cs, k)], Cut(cs, end, k), at)
  }

  lemma CutInFirst(parse: SizeParser, cs: seq<Chunk>, end: seq<byte>, k: nat, at: nat)
    requires cs != [] && GoodChunk(parse, cs[0]) && at + |EncodeChunk(cs[0])| < USIZE
    requires k < |EncodeChunk(cs[0])| && k <= |Encode(cs)| + |end|
    ensures CutCopies(parse, cs, end, k, at)
  {
    CompleteStep(cs, k);
    PartialChunk(parse, cs[0], k, at);
  }

  /** What is left of an encoding after some chunks begins a line, or is empty. */
  lemma CutStarts(parse: SizeParser, cs: seq<Chunk>, last: seq<byte>, trailer: seq<byte>, k: nat)
    requires GoodChunks(parse, cs) && EndsBody(parse, last) && k <= |Encode(cs)| + |Ending(last, trailer)|
    ensures Starts(Cut(cs, Ending(last, trailer), k))
  {
    if cs == [] {
      LineStarts(last, trailer);
    } else {
      LineStarts(cs[0].line, cs[0].data + CRLF);
      assert EncodeChunk(cs[0]) == cs[0].line + CRLF + (cs[0].data + CRLF);
    }
  }

  lemma LineStarts(line: seq<byte>, rest: seq<byte>)
    requires Starts(line)
    ensures !Continues((line + CRLF + rest)[0])
  {
  }

  lemma CutBeyondFirst(parse: SizeParser, cs: seq<Chunk>, end: seq<byte>, k: nat, at: nat, taken: seq<Chunk>,
                       rest: seq<byte>, body: seq<byte>, to: nat)
    requires cs != [] && GoodChunk(parse, cs[0]) && k <= |Encode(cs)| + |end| && to == at + |EncodeChunk(cs[0])| < USIZE
    requires body == Cut(cs, end, k) && body == EncodeChunk(cs[0]) + rest && Starts(rest)
    requires [cs[0]] + taken == cs[..Complete(cs, k)] && Copies(parse, taken, rest, to)
    ensures CutCopies(parse, cs, end, k, at)
  {
    WholeThen(parse, cs[0], taken, rest, at, body, to);
  }

  /** The first chunk whole, given what comes after it. */
  lemma CutNext(parse: SizeParser, cs: seq<Chunk>, last: seq<byte>, trailer: seq<byte>, k: nat, at: nat, left: nat,
                to: nat)
    requires cs != [] && GoodChunks(parse, cs) && EndsBody(parse, last)
    requires k == |EncodeChunk(cs[0])| + left <= |Encode(cs)| + |Ending(last, trailer)|
    requires left <= |Encode(cs[1..])| + |Ending(last, trailer)| && to == at + |EncodeChunk(cs[0])| < USIZE
    requires CutCopies(parse, cs[1..], Ending(last, trailer), left, to)
    ensures CutCopies(parse, cs, Ending(last, trailer), k, at)
  {
    var end := Ending(last, trailer);
    CompleteStep(cs, k);
    CutStep(cs, end, k);
    CutStarts(parse, cs[1..], last, trailer, left);
    CutBeyondFirst(parse, cs, end, k, at, cs[1..][..Complete(cs[1..], left)], Cut(cs[1..], end, left),
                   Cut(cs, end, k), to);
  }

  lemma {:induction false} CutFrom(parse: SizeParser, cs: seq<Chunk>, last: seq<byte>, trailer: seq<byte>,
                                  k: nat, at: nat)
    requires GoodChunks(parse, cs) && EndsBody(parse, last)
    requires k <= |Encode(cs)| + |Ending(last, trailer)| && at + |Encode(cs)| + |Ending(last, trailer)| < USIZE
    ensures CutCopies(parse, cs, Ending(last, trailer), k, at)
    decreases |cs|
  {
    if cs == [] {
      LastLineStops(parse, last, trailer, k, at);
    } else if k < |EncodeChunk(cs[0])| {
      CutInFirst(parse, cs, Ending(last, trailer), k, at);
    } else {
      var left, to := k - |EncodeChunk(cs[0])|, at + |EncodeChunk(cs[0])|;
      CutFrom(parse, cs[1..], last, trailer, left, to);
      CutNext(parse, cs, last, trailer, k, at, left, to);
    }
  }

  /**
   * A chunked body cut after any number of bytes decodes to the data of exactly the chunks
   * that had arrived in full, whatever their data, size lines and extensions.
   */
  lemma CutAnywhere(parse: SizeParser, cs: seq<Chunk>, last: seq<byte>, trailer: seq<byte>, k: nat)
    requires GoodChunks(parse, cs) && EndsBody(parse, last)
    requires k <= |Encode(cs) + Ending(last, trailer)| < USIZE
    ensures DecodeFrom(parse, (Encode(cs) + Ending(last, trailer))[..k], 0) == Done(Datas(cs[..Complete(cs, k)]))
  {
    CutIsPrefix(cs, Ending(last, trailer), k);
    CutFrom(parse, cs, last, trailer, k, 0);
    CopiesDecodes(parse, cs[..Complete(cs, k)], Cut(cs, Ending(last, trailer), k), 0);
  }

  lemma {:induction false} AllComplete(cs: seq<Chunk>, k: nat)
    requires k >= |Encode(cs)|
    ensures Complete(cs, k) == |cs|
  {
    if cs != [] {
      AllComplete(cs[1..], k - |EncodeChunk(cs[0])|);
    }
  }

  /** An uncut body gives back all the data. */
  lemma RoundTrip(parse: SizeParser, cs: seq<Chunk>, last: seq<byte>, trailer: seq<byte>)
    requires GoodChunks(parse, cs) && EndsBody(parse, last)
    requires |Encode(cs) + Ending(last, trailer)| < USIZE
    ensures DecodeFrom(parse, Encode(cs) + Ending(last, trailer), 0) == Done(Datas(cs))
  {
    var full := Encode(cs) + Ending(last, trailer);
    CutAnywhere(parse, cs, last, trailer, |full|);
    AllComplete(cs, |full|);
    assert full[..|full|] == full && cs[..|cs|] == cs;
  }

  // ---------------------------------------------------------------- the usual size lines

  function HexDigit(d: nat): (b: byte)
    requires d < 16
    ensures HexValue(b) == Some(d)
  {
    if d < 10 then 48 + d as byte else 87 + d as byte
  }

  /** Lower-case hexadecimal, no leading zeros. */
  function ToHex(n: nat): (s: seq<byte>)
    ensures |s| > 0
    ensures forall i :: 0 <= i < |s| ==> HexValue(s[i]).Some?
  {
    if n < 16 then [HexDigit(n)] else ToHex(n / 16) + [HexDigit(n % 16)]
  }

  lemma {:induction false} HexRoundTrip(n: nat)
    ensures HexDigits(ToHex(n)) == Some(n)
  {
    var s := ToHex(n);
    if n < 16 {
      assert s[..0] == [];
    } else {
      HexRoundTrip(n / 16);
      assert s[..|s| - 1] == ToHex(n / 16);
    }
  }

  lemma {:induction false} NothingCutOff(s: seq<byte>, rest: seq<byte>)
    requires forall i :: 0 <= i < |s| ==> s[i] != 59
    requires rest == [] || rest[0] == 59
    ensures UpToSemicolon(s + rest) == s
  {
    if s == [] {
      assert s + rest == rest;
    } else {
      NothingCutOff(s[1..], rest);
      assert (s + rest)[1..] == s[1..] + rest;
    }
  }

  lemma HexUntrimmed(s: seq<byte>)
    requires |s| > 0 && HexValue(s[0]).Some? && HexValue(s[|s| - 1]).Some?
    ensures Trim(s) == s && s[0] != 43
  {
  }

  lemma {:induction false} HexDigitsOnly(s: seq<byte>)
    requires forall i :: 0 <= i < |s| ==> HexValue(s[i]).Some?
    ensures forall i :: 0 <= i < |s| ==> s[i] != 59 && s[i] != CR
  {
  }

  lemma HexSize(n: nat)
    requires n < USIZE
    ensures SizeOf(ToHex(n)) == Some(n) && NoCrlf(ToHex(n))
    ensures ParseHex(Trim(ToHex(n))) == Some(n)
  {
    var s := ToHex(n);
    assert s + [] == s;
    HexDigitsOnly(s);
    NothingCutOff(s, []);
    HexRoundTrip(n);
    HexUntrimmed(s);
  }

  /** The hexadecimal length, with any extension after a semicolon, announces that length. */
  lemma SizeLineReads(n: nat, extension: seq<byte>)
    requires n < USIZE && (extension == [] || extension[0] == 59)
    ensures SizeOf(ToHex(n) + extension) == Some(n)
  {
    HexDigitsOnly(ToHex(n));
    NothingCutOff(ToHex(n), extension);
    HexSize(n);
  }

  /** So any data under its hexadecimal length, with any extension that holds no line end, is a good chunk. */
  lemma HexChunkIsGood(data: seq<byte>, extension: seq<byte>)
    requires 0 < |data| < USIZE && (extension == [] || extension[0] == 59) && NoCrlf(extension)
    ensures GoodChunk(SizeOf, Chunk(ToHex(|data|) + extension, data)) && Starts(ToHex(|data|) + extension)
    ensures EndsBody(SizeOf, ToHex(0) + extension)
  {
    assert HexValue(ToHex(|data|)[0]).Some? && HexValue(ToHex(0)[0]).Some?;
    NoCrlfJoin(ToHex(|data|), extension);
    SizeLineReads(|data|, extension);
    NoCrlfJoin(ToHex(0), extension);
    SizeLineReads(0, extension);
  }

  lemma NoCrlfJoin(s: seq<byte>, t: seq<byte>)
    requires forall i :: 0 <= i < |s| ==> HexValue(s[i]).Some?
    requires NoCrlf(t)
    ensures NoCrlf(s + t)
  {
    var line := s + t;
    forall i | 0 <= i < |line| - 1
      ensures !(line[i] == CR && line[i + 1] == LF)
    {
      if i >= |s| {
        assert line[i] == t[i - |s|] && line[i + 1] == t[i - |s| + 1];
      }
    }
  }

  // ---------------------------------------------------------------- exactly when the loop panics

  /** The line announces a chunk. */
  predicate Announces(parse: SizeParser, line: seq<byte>)
  {
    NoCrlf(line) && parse(line).Some? && parse(line).value > 0
  }

  /** Its chunk would end outside the address range when the line starts at `at`. */
  predicate Overlong(parse: SizeParser, line: seq<byte>, at: nat)
    requires Announces(parse, line)
  {
    at + |line| + 2 + parse(line).value >= USIZE
  }

  /** Its chunk is all there, and ends inside a character or is followed by two bytes that do. */
  predicate Torn(parse: SizeParser, line: seq<byte>, rest: seq<byte>)
    requires Announces(parse, line)
  {
    parse(line).value <= |rest| && !Clean(rest, parse(line).value)
  }

  /** A size line panics on the sum exactly when cursor, line and size leave the address range. */
  lemma OverflowsIff(parse: SizeParser, line: seq<byte>, rest: seq<byte>, at: nat)
    requires Announces(parse, line)
    ensures Turn(parse, line + CRLF + rest, at).Overflow? <==> Overlong(parse, line, at)
  {
    LineFound(line, rest);
  }

  /** Short of that, it panics on a slice exactly when its chunk is torn. */
  lemma SplitsIff(parse: SizeParser, line: seq<byte>, rest: seq<byte>, at: nat)
    requires Announces(parse, line) && !Overlong(parse, line, at)
    ensures Turn(parse, line + CRLF + rest, at).Split? <==> Torn(parse, line, rest)
  {
    LineFound(line, rest);
    if parse(line).value <= |rest| {
      CleanShift(line + CRLF, rest, parse(line).value);
    }
  }

  lemma CleanShift(head: seq<byte>, rest: seq<byte>, n: nat)
    requires n <= |rest|
    ensures Clean(head + rest, |head| + n) == Clean(rest, n)
  {
  }

  /** What the loop skips over in one turn: a chunk, and whatever two bytes stand after its data. */
  datatype Skipped = Skipped(chunk: Chunk, gap: seq<byte>)

  function Raw(s: Skipped): (r: seq<byte>)
    ensures |r| == |s.chunk.line| + 2 + |s.chunk.data| + |s.gap|
  {
    s.chunk.line + CRLF + s.chunk.data + s.gap
  }

  function RawAll(ss: seq<Skipped>): seq<byte>
  {
    if ss == [] then [] else Raw(ss[0]) + RawAll(ss[1..])
  }

  predicate GoodSkips(parse: SizeParser, ss: seq<Skipped>)
  {
    forall i :: 0 <= i < |ss| ==> GoodChunk(parse, ss[i].chunk) && |ss[i].gap| == 2
  }

  /** The body is some chunks, a line that announces another, and anything. */
  predicate Reaches(parse: SizeParser, body: seq<byte>, ss: seq<Skipped>, line: seq<byte>, rest: seq<byte>)
  {
    GoodSkips(parse, ss) && body == RawAll(ss) + (line + CRLF + rest) && Announces(parse, line)
  }

  /** That line is overlong where it stands, or its chunk is torn. */
  predicate Bursts(parse: SizeParser, body: seq<byte>, at: nat, ss: seq<Skipped>, line: seq<byte>, rest: seq<byte>)
  {
    Reaches(parse, body, ss, line, rest) && (Overlong(parse, line, at + |RawAll(ss)|) || Torn(parse, line, rest))
  }

  lemma SkipRead(parse: SizeParser, s: Skipped, rest: seq<byte>, at: nat)
    requires GoodChunk(parse, s.chunk) && |s.gap| == 2
    ensures var next := Turn(parse, Raw(s) + rest, at);
      next.Overflow? || next.Split? || next == Copy(s.chunk.data, rest, at + |Raw(s)|)
  {
    var c := s.chunk;
    var tail := c.data + s.gap + rest;
    assert Raw(s) + rest == c.line + CRLF + tail;
    OverflowsIff(parse, c.line, tail, at);
    if !Overlong(parse, c.line, at) {
      SplitsIff(parse, c.line, tail, at);
      if !Torn(parse, c.line, tail) {
        SkipCopies(parse, s, rest, at);
      }
    }
  }

  lemma SkipCopies(parse: SizeParser, s: Skipped, rest: seq<byte>, at: nat)
    requires GoodChunk(parse, s.chunk) && |s.gap| == 2 && !Overlong(parse, s.chunk.line, at)
    requires !Torn(parse, s.chunk.line, s.chunk.data + s.gap + rest)
    ensures Turn(parse, Raw(s) + rest, at) == Copy(s.chunk.data, rest, at + |Raw(s)|)
  {
    var c := s.chunk;
    assert Raw(s) + rest == c.line + CRLF + c.data + (s.gap + rest);
    assert c.data + s.gap + rest == c.data + (s.gap + rest);
    CleanShift(c.data, s.gap + rest, 0);
    ChunkRead(parse, c, s.gap + rest, at);
    assert Drop(s.gap + rest, 2) == rest;
  }

  lemma TurnPanics(parse: SizeParser, body: seq<byte>, at: nat)
    requires Turn(parse, body, at).Overflow? || Turn(parse, body, at).Split?
    ensures DecodeFrom(parse, body, at) == Panicked
  {
  }

  lemma CopyPanics(parse: SizeParser, body: seq<byte>, at: nat, data: seq<byte>, rest: seq<byte>, to: nat)
    requires Turn(parse, body, at) == Copy(data, rest, to) && DecodeFrom(parse, rest, to) == Panicked
    ensures DecodeFrom(parse, body, at) == Panicked
  {
  }

  /** If what follows a chunk panics, so does the whole. */
  lemma SkipPanics(parse: SizeParser, s: Skipped, rest: seq<byte>, at: nat, body: seq<byte>, to: nat, r: Outcome)
    requires GoodChunk(parse, s.chunk) && |s.gap| == 2 && body == Raw(s) + rest && to == at + |Raw(s)|
    requires r == DecodeFrom(parse, rest, to) && r.Panicked?
    ensures DecodeFrom(parse, body, at) == Panicked
  {
    SkipRead(parse, s, rest, at);
    if Turn(parse, body, at).Copy? {
      CopyPanics(parse, body, at, s.chunk.data, rest, to);
    } else {
      TurnPanics(parse, body, at);
    }
  }

  lemma LinePanics(parse: SizeParser, line: seq<byte>, rest: seq<byte>, at: nat)
    requires Announces(parse, line) && (Overlong(parse, line, at) || Torn(parse, line, rest))
    ensures DecodeFrom(parse, line + CRLF + rest, at) == Panicked
  {
    OverflowsIff(parse, line, rest, at);
    if !Overlong(parse, line, at) {
      SplitsIff(parse, line, rest, at);
    }
    TurnPanics(parse, line + CRLF + rest, at);
  }

  lemma BurstsNow(parse: SizeParser, body: seq<byte>, at: nat, line: seq<byte>, rest: seq<byte>)
    requires Bursts(parse, body, at, [], line, rest)
    ensures DecodeFrom(parse, body, at) == Panicked
  {
    assert body == line + CRLF + rest;
    LinePanics(parse, line, rest, at);
  }

  lemma BurstsLater(parse: SizeParser, body: seq<byte>, at: nat, ss: seq<Skipped>, line: seq<byte>, rest: seq<byte>)
    returns (tail: seq<byte>)
    requires Bursts(parse, body, at, ss, line, rest) && ss != []
    ensures body == Raw(ss[0]) + tail && Bursts(parse, tail, at + |Raw(ss[0])|, ss[1..], line, rest)
    ensures GoodChunk(parse, ss[0].chunk) && |ss[0].gap| == 2
  {
    tail := RawAll(ss[1..]) + (line + CRLF + rest);
    Assoc(Raw(ss[0]), RawAll(ss[1..]), line + CRLF + rest);
  }

  lemma {:induction false} BurstsPanic(parse: SizeParser, body: seq<byte>, at: nat,
                                      ss: seq<Skipped>, line: seq<byte>, rest: seq<byte>)
    requires Bursts(parse, body, at, ss, line, rest)
    ensures DecodeFrom(parse, body, at) == Panicked
    decreases |ss|
  {
    if ss == [] {
      BurstsNow(parse, body, at, line, rest);
    } else {
      var tail := BurstsLater(parse, body, at, ss, line, rest);
      var to := at + |Raw(ss[0])|;
      var r := DecodeFrom(parse, tail, to);
      BurstsPanic(parse, tail, to, ss[1..], line, rest);
      SkipPanics(parse, ss[0], tail, at, body, to, r);
    }
  }

  lemma {:induction false} FoundIsFirst(body: seq<byte>, from: nat)
    requires FindCrlf(body, from).Some?
    ensures var at := FindCrlf(body, from).value;
      && body[at] == CR && body[at + 1] == LF
      && forall i :: from <= i < at ==> !(body[i] == CR && body[i + 1] == LF)
    decreases |body| - from
  {
    if !(body[from] == CR && body[from + 1] == LF) {
      FoundIsFirst(body, from + 1);
    }
  }

  /** The first line of a body that has one. */
  lemma FirstLine(body: seq<byte>) returns (line: seq<byte>, rest: seq<byte>)
    requires FindCrlf(body, 0).Some?
    ensures NoCrlf(line) && |line| == FindCrlf(body, 0).value && line == body[..|line|]
    ensures body == line + CRLF + rest
  {
    FoundIsFirst(body, 0);
    var at := FindCrlf(body, 0).value;
    line, rest := body[..at], body[at + 2..];
    assert body[at..at + 2] == CRLF;
    assert body == body[..at] + body[at..at + 2] + body[at + 2..];
  }

  /** What a turn that copies and leaves something has found. */
  lemma CopyFound(parse: SizeParser, body: seq<byte>, at: nat) returns (n: nat)
    requires Turn(parse, body, at).Copy? && Turn(parse, body, at).rest != []
    ensures FindCrlf(body, 0).Some?
    ensures var line := FindCrlf(body, 0).value; var end := line + 2 + n;
      && parse(body[..line]) == Some(n) && n > 0 && end + 2 <= |body|
      && Turn(parse, body, at).rest == body[end + 2..] && Turn(parse, body, at).at == at + end + 2
  {
    n := parse(body[..FindCrlf(body, 0).value]).value;
  }

  lemma CopiedChunk(parse: SizeParser, body: seq<byte>, at: nat) returns (s: Skipped)
    requires Turn(parse, body, at).Copy? && Turn(parse, body, at).rest != []
    ensures GoodChunk(parse, s.chunk) && |s.gap| == 2
    ensures body == Raw(s) + Turn(parse, body, at).rest && Turn(parse, body, at).at == at + |Raw(s)|
  {
    var n := CopyFound(parse, body, at);
    var line, rest := FirstLine(body);
    s := Skipped(Chunk(line, rest[..n]), rest[n..n + 2]);
    Regroup(body, line, rest, n);
  }

  lemma Regroup(body: seq<byte>, line: seq<byte>, rest: seq<byte>, n: nat)
    requires body == line + CRLF + rest && n + 2 <= |rest|
    ensures body == (line + CRLF + rest[..n] + rest[n..n + 2]) + body[|line| + 2 + n + 2..]
  {
    assert rest == rest[..n] + rest[n..n + 2] + rest[n + 2..];
    assert body[|line| + 2 + n + 2..] == rest[n + 2..];
  }

  /** The line at which a turn panics. */
  lemma PanickingLine(parse: SizeParser, body: seq<byte>, at: nat) returns (line: seq<byte>, rest: seq<byte>)
    requires Turn(parse, body, at).Overflow? || Turn(parse, body, at).Split?
    ensures body == line + CRLF + rest && Announces(parse, line)
    ensures Overlong(parse, line, at) || Torn(parse, line, rest)
  {
    line, rest := FirstLine(body);
    OverflowsIff(parse, line, rest, at);
    if !Overlong(parse, line, at) {
      SplitsIff(parse, line, rest, at);
    }
  }

  lemma {:induction false} PanicBursts(parse: SizeParser, body: seq<byte>, at: nat)
    returns (ss: seq<Skipped>, line: seq<byte>, rest: seq<byte>)
    requires DecodeFrom(parse, body, at) == Panicked
    ensures Bursts(parse, body, at, ss, line, rest)
    decreases |body|
  {
    var next := Turn(parse, body, at);
    if next.Copy? {
      var s := CopiedChunk(parse, body, at);
      ss, line, rest := PanicBursts(parse, next.rest, next.at);
      BurstsEarlier(parse, s, next.rest, at, ss, line, rest);
      ss := [s] + ss;
    } else {
      ss := [];
      line, rest := PanickingLine(parse, body, at);
      assert RawAll([]) + (line + CRLF + rest) == body;
    }
  }

  lemma BurstsEarlier(parse: SizeParser, s: Skipped, tail: seq<byte>, at: nat, ss: seq<Skipped>,
                      line: seq<byte>, rest: seq<byte>)
    requires GoodChunk(parse, s.chunk) && |s.gap| == 2 && Bursts(parse, tail, at + |Raw(s)|, ss, line, rest)
    ensures Bursts(parse, Raw(s) + tail, at, [s] + ss, line, rest)
  {
    assert ([s] + ss)[1..] == ss;
    Assoc(Raw(s), RawAll(ss), line + CRLF + rest);
  }

  /**
   * Decoding panics exactly on the bodies that are some complete chunks, whatever stands between
   * them, and then a size line which, where it stands, announces an end outside the address range,
   * or whose chunk, or the two bytes after it, ends inside a character.
   */
  lemma PanicsIff(body: seq<byte>)
    ensures DecodeFrom(SizeOf, body, 0) == Panicked <==>
      exists ss, line, rest :: Bursts(SizeOf, body, 0, ss, line, rest)
  {
    if DecodeFrom(SizeOf, body, 0) == Panicked {
      var ss, line, rest := PanicBursts(SizeOf, body, 0);
    }
    if exists ss, line, rest :: Bursts(SizeOf, body, 0, ss, line, rest) {
      var ss, line, rest :| Bursts(SizeOf, body, 0, ss, line, rest);
      BurstsPanic(SizeOf, body, 0, ss, line, rest);
    }
  }

  predicate Ascii(s: seq<byte>)
  {
    forall i :: 0 <= i < |s| ==> s[i] < 0x80
  }

  lemma AsciiNeverTorn(parse: SizeParser, head: seq<byte>, line: seq<byte>, rest: seq<byte>)
    requires Announces(parse, line) && Ascii(head + (line + CRLF + rest))
    ensures !Torn(parse, line, rest)
  {
    var body := head + (line + CRLF + rest);
    assert forall i :: 0 <= i < |rest| ==> rest[i] == body[|head| + |line| + 2 + i];
  }

  /** In ASCII only the sum can panic. */
  lemma AsciiPanicsIff(body: seq<byte>)
    requires Ascii(body)
    ensures DecodeFrom(SizeOf, body, 0) == Panicked <==>
      exists ss, line, rest :: Reaches(SizeOf, body, ss, line, rest) && Overlong(SizeOf, line, |RawAll(ss)|)
  {
    if DecodeFrom(SizeOf, body, 0) == Panicked {
      var ss, line, rest := PanicBursts(SizeOf, body, 0);
      AsciiNeverTorn(SizeOf, RawAll(ss), line, rest);
      assert Reaches(SizeOf, body, ss, line, rest) && Overlong(SizeOf, line, |RawAll(ss)|);
    }
    if exists ss, line, rest :: Reaches(SizeOf, body, ss, line, rest) && Overlong(SizeOf, line, |RawAll(ss)|) {
      var ss, line, rest :| Reaches(SizeOf, body, ss, line, rest) && Overlong(SizeOf, line, |RawAll(ss)|);
      BurstsPanic(SizeOf, body, 0, ss, line, rest);
    }
  }

  /** Bodies that leave the address range, with and without an extension on the size line. */
  lemma HugeSizePanics(extension: seq<byte>, rest: seq<byte>)
    requires extension == [] || extension[0] == 59
    requires NoCrlf(extension)
    ensures DecodeFrom(SizeOf, ToHex(USIZE - 1) + extension + CRLF + rest, 0) == Panicked
  {
    var line := ToHex(USIZE - 1) + extension;
    NoCrlfJoin(ToHex(USIZE - 1), extension);
    SizeLineReads(USIZE - 1, extension);
    LinePanics(SizeOf, line, rest, 0);
  }

  /** Bodies that are cut inside a character: any first size that does not fall on a boundary of what follows. */
  lemma TornChunkPanics(n: nat, extension: seq<byte>, rest: seq<byte>)
    requires 0 < n < USIZE && (extension == [] || extension[0] == 59) && NoCrlf(extension)
    requires n <= |rest| && !Clean(rest, n)
    ensures DecodeFrom(SizeOf, ToHex(n) + extension + CRLF + rest, 0) == Panicked
  {
    NoCrlfJoin(ToHex(n), extension);
    SizeLineReads(n, extension);
    LinePanics(SizeOf, ToHex(n) + extension, rest, 0);
  }

  /**
   * The shortest such bodies: a one-byte chunk that holds the first byte of a two-byte character; a
   * chunk of two bytes of which one had arrived and was replaced by U+FFFD, which takes three; and a
   * well-sized chunk followed by a byte and a character instead of a line end.
   */
  lemma TornBodies()
    ensures DecodeFrom(SizeOf, [49, CR, LF] + [0xC3, 0xA9, CR, LF], 0) == Panicked
    ensures DecodeFrom(SizeOf, [50, CR, LF] + [0xEF, 0xBF, 0xBD], 0) == Panicked
    ensures DecodeFrom(SizeOf, [49, CR, LF] + [97, 98, 0xC3, 0xA9], 0) == Panicked
  {
    TornAfter(1, 49, [0xC3, 0xA9, CR, LF]);
    TornAfter(2, 50, [0xEF, 0xBF, 0xBD]);
    TornAfter(1, 49, [97, 98, 0xC3, 0xA9]);
  }

  lemma TornAfter(n: nat, digit: byte, rest: seq<byte>)
    requires 0 < n < 10 && digit == 48 + n && n <= |rest| && !Clean(rest, n)
    ensures DecodeFrom(SizeOf, [digit, CR, LF] + rest, 0) == Panicked
  {
    DigitSize(n, digit);
    assert [digit] + CRLF + rest == [digit, CR, LF] + rest;
    LinePanics(SizeOf, [digit], rest, 0);
  }

  lemma DigitSize(n: nat, digit: byte)
    requires 0 < n < 10 && digit == 48 + n
    ensures SizeOf([digit]) == Some(n)
  {
    assert ToHex(n) == [digit];
    HexSize(n);
  }

  // ---------------------------------------------------------------- size lines begin characters

  lemma {:induction false} TrimStartBegins(s: seq<byte>)
    requires s != [] && Continues(s[0])
    ensures TrimStart(s) == s
  {
  }

  lemma {:induction false} TrimEndKeepsStart(s: seq<byte>)
    requires s != [] && Continues(s[0])
    ensures TrimEnd(s) != [] && TrimEnd(s)[0] == s[0]
    decreases |s|
  {
    var n := SpaceAtEnd(s);
    if n > 0 {
      TrimEndKeepsStart(s[..|s| - n]);
    }
  }

  lemma {:induction false} BadDigit(s: seq<byte>, i: nat)
    requires i < |s| && HexValue(s[i]).None?
    ensures HexDigits(s).None?
    decreases |s|
  {
    if i < |s| - 1 {
      BadDigit(s[..|s| - 1], i);
    }
  }

  /** A line that announces a size never begins inside a character, so no chunk needs to promise it. */
  lemma SizeStarts(line: seq<byte>)
    requires SizeOf(line).Some?
    ensures Starts(line)
  {
    if line != [] && Continues(line[0]) {
      var token := UpToSemicolon(line);
      assert token != [] && token[0] == line[0];
      TrimStartBegins(token);
      TrimEndKeepsStart(token);
      BadDigit(Trim(token), 0);
      assert false;
    }
  }

  // ---------------------------------------------------------------- every form of a size line

  /** Digits of either case count alike. */
  lemma HexChars(b: byte)
    ensures HexValue(b) ==
      var c := b as char;
      if '0' <= c <= '9' then Some(b as int - '0' as int)
      else if 'a' <= c <= 'f' then Some(b as int - 'a' as int + 10)
      else if 'A' <= c <= 'F' then Some(b as int - 'A' as int + 10)
      else None
  {
  }

  /** A number depends on the values of its digits alone. */
  lemma {:induction false} SameDigits(s: seq<byte>, s': seq<byte>)
    requires |s| == |s'| && forall i :: 0 <= i < |s| ==> HexValue(s[i]) == HexValue(s'[i])
    ensures HexDigits(s) == HexDigits(s')
  {
    if s != [] {
      SameDigits(s[..|s| - 1], s'[..|s| - 1]);
    }
  }

  predicate AllHex(s: seq<byte>)
  {
    forall i :: 0 <= i < |s| ==> HexValue(s[i]).Some?
  }

  lemma {:induction false} AllHexReads(s: seq<byte>)
    ensures HexDigits(s).Some? <==> AllHex(s)
  {
    if s != [] {
      AllHexReads(s[..|s| - 1]);
      assert s == s[..|s| - 1] + [s[|s| - 1]];
    }
  }

  predicate Blank(s: seq<byte>)
  {
    forall i :: 0 <= i < |s| ==> IsSpace(s[i])
  }

  lemma {:induction false} TrimsBefore(before: seq<byte>, s: seq<byte>)
    requires Blank(before)
    ensures TrimStart(before + s) == TrimStart(s)
  {
    if before == [] {
      assert before + s == s;
    } else {
      assert (before + s)[1..] == before[1..] + s;
      TrimsBefore(before[1..], s);
    }
  }

  lemma {:induction false} TrimsAfter(s: seq<byte>, after: seq<byte>)
    requires Blank(after)
    ensures TrimEnd(s + after) == TrimEnd(s)
  {
    if after == [] {
      assert s + after == s;
    } else {
      var n := |after| - 1;
      assert (s + after)[..|s| + n] == s + after[..n];
      TrimsAfter(s, after[..n]);
    }
  }

  lemma TrimsAround(before: seq<byte>, s: seq<byte>, after: seq<byte>)
    requires Blank(before) && Blank(after) && s != [] && SpaceAtStart(s + after) == 0 && SpaceAtEnd(s) == 0
    ensures Trim(before + (s + after)) == s
  {
    TrimsBefore(before, s + after);
    TrimsAfter(s, after);
  }

  function Sign(plus: bool): seq<byte> { if plus then [43] else [] }

  /**
   * White space around the number, a plus sign before it, leading zeros, digits of either case and an
   * extension behind a semicolon change nothing: the size is the value of the digits, and there is none
   * when that does not fit the address range.
   */
  lemma SizeLineIs(before: seq<byte>, plus: bool, digits: seq<byte>, after: seq<byte>, extension: seq<byte>)
    requires Blank(before) && Blank(after) && digits != [] && AllHex(digits)
    requires extension == [] || extension[0] == 59
    ensures HexDigits(digits).Some?
    ensures SizeOf(before + (Sign(plus) + digits + after) + extension)
         == if HexDigits(digits).value < USIZE then HexDigits(digits) else None
  {
    var number := Sign(plus) + digits;
    var token := before + (number + after);
    AllHexReads(digits);
    assert forall i :: 0 <= i < |token| ==> token[i] != 59;
    NothingCutOff(token, extension);
    assert HexValue(digits[0]).Some? && HexValue(digits[|digits| - 1]).Some?;
    assert number[|number| - 1] == digits[|digits| - 1];
    TrimsAround(before, number, after);
    assert plus ==> number[1..] == digits;
    assert !plus ==> number == digits;
  }

  /** And a line whose token holds anything else announces no size. */
  lemma OnlyHexIsSize(line: seq<byte>)
    requires SizeOf(line).Some?
    ensures var token := Trim(UpToSemicolon(line));
      var digits := if |token| > 1 && token[0] == 43 then token[1..] else token;
      digits != [] && AllHex(digits) && HexDigits(digits) == SizeOf(line) && SizeOf(line).value < USIZE
  {
    var token := Trim(UpToSemicolon(line));
    AllHexReads(if |token| > 1 && token[0] == 43 then token[1..] else token);
  }
}
