/**
  Reading the server name out of a TLS ClientHello (section 4.1.2 of RFC 8446, section 3 of RFC
  6066) that may still be arriving. `isIp` stands for the test whether a name is an IP literal.
 */
module Sni {
  import opened Bytes

  const HANDSHAKE: byte := 0x16
  const CLIENT_HELLO: byte := 1
  const MAX_HOST_LEN: nat := 253

  function Be16At(buf: seq<byte>, at: nat): (r: Option<nat>)
    ensures r.Some? <==> at + 2 <= |buf|
    ensures r.Some? ==> r.value < 0x1_0000
  {
    if at + 2 <= |buf| then Some((buf[at] as int) * 256 + buf[at + 1] as int) else None
  }

  function Be24At(buf: seq<byte>, at: nat): (r: Option<nat>)
    ensures r.Some? <==> at + 3 <= |buf|
  {
    if at + 3 > |buf| then None
    else Some((buf[at] as int) * 0x1_0000 + (buf[at + 1] as int) * 256 + buf[at + 2] as int)
  }

  // ---------------------------------------------------------------- host names

  predicate IsHostByte(b: byte)
  {
    48 <= b <= 57 || 65 <= b <= 90 || 97 <= b <= 122 || b == 45 || b == 46 || b == 95
  }

  function LowerByte(b: byte): byte { if 65 <= b <= 90 then b + 32 else b }

  function Lower(s: seq<byte>): (r: seq<byte>)
    ensures |r| == |s|
  {
    seq(|s|, i requires 0 <= i < |s| => LowerByte(s[i]))
  }

  function TrimDots(s: seq<byte>): seq<byte>
  {
    if s != [] && s[|s| - 1] == 46 then TrimDots(s[..|s| - 1]) else s
  }

  /**
    `plausible_host`. Bytes that are no UTF-8 are refused as well: what is left after trimming whole
    characters has to be ASCII.
   */
  function PlausibleHost(raw: seq<byte>, isIp: seq<byte> -> bool): (r: Option<seq<byte>>)
  {
    if raw == [] || |raw| > MAX_HOST_LEN then None
    else
      var name := TrimDots(Trim(raw));
      if name == [] || (exists i :: 0 <= i < |name| && !IsHostByte(name[i])) || 46 !in name || isIp(name) then None
      else Some(Lower(name))
  }

  /** A host name as a client would send it. */
  predicate HostName(name: seq<byte>, isIp: seq<byte> -> bool)
  {
    && 0 < |name| <= MAX_HOST_LEN && name[|name| - 1] != 46 && 46 in name && !isIp(name)
    && forall i :: 0 <= i < |name| ==> IsHostByte(name[i])
  }

  lemma PlausibleAccepts(name: seq<byte>, isIp: seq<byte> -> bool)
    requires HostName(name, isIp)
    ensures PlausibleHost(name, isIp) == Some(Lower(name))
  {
    assert IsHostByte(name[0]) && IsHostByte(name[|name| - 1]);
  }

  // ---------------------------------------------------------------- the two walks

  /** The server name list from `at`: the first host name decides. */
  function WalkNames(data: seq<byte>, at: nat, end: nat, isIp: seq<byte> -> bool): (r: Option<seq<byte>>)
    requires end <= |data|
    decreases end - at
  {
    if at + 3 > end then None
    else
      var len := Be16At(data, at + 1).value;
      var stop := at + 3 + len;
      if stop > end then None
      else if data[at] == 0 then PlausibleHost(data[at + 3..stop], isIp)
      else WalkNames(data, stop, end, isIp)
  }

  function FirstServerName(data: seq<byte>, isIp: seq<byte> -> bool): (r: Option<seq<byte>>)
  {
    var len := Be16At(data, 0);
    if len.None? then None else WalkNames(data, 2, Min(2 + len.value, |data|), isIp)
  }

  /** The extensions from `at`: the first server name extension decides. */
  function WalkExtensions(hello: seq<byte>, at: nat, end: nat, isIp: seq<byte> -> bool): (r: Option<seq<byte>>)
    requires end <= |hello|
    decreases end - at
  {
    if at + 4 > end then None
    else
      var kind := Be16At(hello, at).value;
      var stop := at + 4 + Be16At(hello, at + 2).value;
      if stop > end then None
      else if kind == 0 then FirstServerName(hello[at + 4..stop], isIp)
      else WalkExtensions(hello, stop, end, isIp)
  }

  /** The hello inside the record body. */
  function HelloIn(body: seq<byte>): Option<seq<byte>>
  {
    if body == [] || body[0] != CLIENT_HELLO then None
    else
      var helloLen := Be24At(body, 1);
      if helloLen.None? then None else Some(body[4..Min(4 + helloLen.value, |body|)])
  }

  /** The part of the record's body that has arrived, when this is a handshake record. */
  function BodyOf(buf: seq<byte>): (r: Option<seq<byte>>)
  {
    if buf == [] || buf[0] != HANDSHAKE then None
    else
      var recordLen := Be16At(buf, 3);
      if recordLen.None? then None else Some(buf[5..Min(5 + recordLen.value, |buf|)])
  }

  /** The part of the hello message that has arrived, when this is a client hello at all. */
  function HelloOf(buf: seq<byte>): (r: Option<seq<byte>>)
  {
    var body := BodyOf(buf);
    if body.None? then None else HelloIn(body.value)
  }

  /** Where the extensions start and end according to their length field, if it has arrived. */
  function ExtensionsAt(hello: seq<byte>): (r: Option<(nat, nat)>)
    ensures r.Some? ==> r.value.0 <= |hello| && r.value.0 <= r.value.1
  {
    var at := 34;
    if at >= |hello| then None
    else
      var at1 := at + 1 + hello[at] as int;
      var ciphers := Be16At(hello, at1);
      if ciphers.None? then None
      else
        var at2 := at1 + 2 + ciphers.value;
        if at2 >= |hello| then None
        else
          var at3 := at2 + 1 + hello[at2] as int;
          var len := Be16At(hello, at3);
          if len.None? then None else Some((at3 + 2, at3 + 2 + len.value))
  }

  /** `tls_sni`. */
  function TlsSni(buf: seq<byte>, isIp: seq<byte> -> bool): (r: Option<seq<byte>>)
  {
    var hello := HelloOf(buf);
    if hello.None? then None
    else
      var ext := ExtensionsAt(hello.value);
      if ext.None? then None
      else WalkExtensions(hello.value, ext.value.0, Min(ext.value.1, |hello.value|), isIp)
  }

  method FindServerName(data: seq<byte>, isIp: seq<byte> -> bool) returns (r: Option<seq<byte>>)
    ensures r == FirstServerName(data, isIp)
  {
    var len := Be16At(data, 0);
    if len.None? {
      return None;
    }
    var end := Min(2 + len.value, |data|);
    var at := 2;
    while at + 3 <= end
      invariant 0 <= at && WalkNames(data, at, end, isIp) == WalkNames(data, 2, end, isIp)
      decreases end - at
    {
      var nameLen := Be16At(data, at + 1).value;
      var start := at + 3;
      var stop := start + nameLen;
      if stop > end {
        return None;
      }
      if data[at] == 0 {
        return PlausibleHost(data[start..stop], isIp);
      }
      at := stop;
    }
    r := None;
  }

  method Sniff(buf: seq<byte>, isIp: seq<byte> -> bool) returns (r: Option<seq<byte>>)
    ensures r == TlsSni(buf, isIp)
  {
    var arrived := HelloOf(buf);
    if arrived.None? {
      return None;
    }
    var hello := arrived.value;
    var ext := ExtensionsAt(hello);
    if ext.None? {
      return None;
    }
    r := SniffExtensions(hello, ext.value.0, Min(ext.value.1, |hello|), isIp);
  }

  /** The loop over the extensions. */
  method SniffExtensions(hello: seq<byte>, begin: nat, end: nat, isIp: seq<byte> -> bool) returns (r: Option<seq<byte>>)
    requires end <= |hello|
    ensures r == WalkExtensions(hello, begin, end, isIp)
  {
    var at := begin;
    ghost var whole := WalkExtensions(hello, begin, end, isIp);
    while at + 4 <= end
      invariant WalkExtensions(hello, at, end, isIp) == whole
      decreases end - at
    {
      WalkNext(hello, at, end, isIp);
      var kind := Be16At(hello, at).value;
      var start := at + 4;
      var stop := start + Be16At(hello, at + 2).value;
      if stop > end {
        return None;
      }
      if kind == 0 {
        r := FindServerName(hello[start..stop], isIp);
        return;
      }
      at := stop;
    }
    r := None;
  }

  lemma WalkNext(hello: seq<byte>, at: nat, end: nat, isIp: seq<byte> -> bool)
    requires at + 4 <= end <= |hello|
    ensures var kind, stop := Be16At(hello, at).value, at + 4 + Be16At(hello, at + 2).value;
      WalkExtensions(hello, at, end, isIp)
      == if stop > end then None
         else if kind == 0 then FirstServerName(hello[at + 4..stop], isIp)
         else WalkExtensions(hello, stop, end, isIp)
  {
  }

  // ---------------------------------------------------------------- truncated input

  lemma {:induction false} WalkStable(hello: seq<byte>, full: seq<byte>, at: nat, end: nat, end': nat,
                                     isIp: seq<byte> -> bool)
    requires hello <= full && end <= |hello| && end <= end' <= |full|
    requires WalkExtensions(hello, at, end, isIp).Some?
    ensures WalkExtensions(full, at, end', isIp) == WalkExtensions(hello, at, end, isIp)
    decreases end - at
  {
    var kind := Be16At(hello, at).value;
    var stop := at + 4 + Be16At(hello, at + 2).value;
    assert Be16At(full, at).value == kind && Be16At(full, at + 2) == Be16At(hello, at + 2);
    if kind == 0 {
      assert full[at + 4..stop] == hello[at + 4..stop];
    } else {
      WalkStable(hello, full, stop, end, end', isIp);
    }
  }

  lemma PrefixSlices(a: seq<byte>, b: seq<byte>, i: nat, j: nat, j': nat)
    requires a <= b && i <= j <= |a| && j <= j' <= |b|
    ensures a[i..j] <= b[i..j']
  {
  }

  lemma RecordStable(buf: seq<byte>, more: seq<byte>)
    requires BodyOf(buf).Some?
    ensures BodyOf(buf + more).Some? && BodyOf(buf).value <= BodyOf(buf + more).value
  {
    var full := buf + more;
    var n := Be16At(buf, 3).value;
    PrefixSlices(buf, full, 5, Min(5 + n, |buf|), Min(5 + n, |full|));
  }

  lemma HelloStable(buf: seq<byte>, more: seq<byte>)
    requires HelloOf(buf).Some?
    ensures HelloOf(buf + more).Some? && HelloOf(buf).value <= HelloOf(buf + more).value
  {
    RecordStable(buf, more);
    BodyStable(BodyOf(buf).value, BodyOf(buf + more).value);
  }

  lemma BodyStable(body: seq<byte>, body': seq<byte>)
    requires body <= body' && HelloIn(body).Some?
    ensures HelloIn(body').Some? && HelloIn(body).value <= HelloIn(body').value
  {
    var m := Be24At(body, 1).value;
    PrefixSlices(body, body', 4, Min(4 + m, |body|), Min(4 + m, |body'|));
  }

  lemma ExtensionsStable(hello: seq<byte>, full: seq<byte>)
    requires hello <= full && ExtensionsAt(hello).Some?
    ensures ExtensionsAt(full) == ExtensionsAt(hello)
  {
    var at1 := 35 + hello[34] as int;
    assert Be16At(full, at1) == Be16At(hello, at1);
    var at2 := at1 + 2 + Be16At(hello, at1).value;
    var at3 := at2 + 1 + hello[at2] as int;
    assert Be16At(full, at3) == Be16At(hello, at3);
  }

  /** A name found in a truncated buffer is the name found in every extension of it. */
  lemma PrefixStable(buf: seq<byte>, more: seq<byte>, isIp: seq<byte> -> bool)
    requires TlsSni(buf, isIp).Some?
    ensures TlsSni(buf + more, isIp) == TlsSni(buf, isIp)
  {
    HelloStable(buf, more);
    var hello, full := HelloOf(buf).value, HelloOf(buf + more).value;
    ExtensionsStable(hello, full);
    var ext := ExtensionsAt(hello).value;
    WalkStable(hello, full, ext.0, Min(ext.1, |hello|), Min(ext.1, |full|), isIp);
  }

  // ---------------------------------------------------------------- well-formed messages

  datatype Extension = Extension(kind: nat, data: seq<byte>)
  datatype NameEntry = NameEntry(kind: byte, name: seq<byte>)

  datatype Hello = Hello(
    version: seq<byte>,
    random: seq<byte>,
    session: seq<byte>,
    ciphers: seq<byte>,
    compression: seq<byte>,
    extensions: seq<Extension>)

  function EncodeExtension(e: Extension): (r: seq<byte>)
    requires e.kind < 0x1_0000 && |e.data| < 0x1_0000
    ensures |r| == 4 + |e.data|
  {
    Be16(e.kind) + Be16(|e.data|) + e.data
  }

  predicate GoodExtensions(es: seq<Extension>)
  {
    forall i :: 0 <= i < |es| ==> es[i].kind < 0x1_0000 && |es[i].data| < 0x1_0000
  }

  function EncodeExtensions(es: seq<Extension>): seq<byte>
    requires GoodExtensions(es)
  {
    if es == [] then [] else EncodeExtension(es[0]) + EncodeExtensions(es[1..])
  }

  function EncodeName(e: NameEntry): (r: seq<byte>)
    requires |e.name| < 0x1_0000
    ensures |r| == 3 + |e.name|
  {
    [e.kind] + Be16(|e.name|) + e.name
  }

  predicate GoodNames(ns: seq<NameEntry>)
  {
    forall i :: 0 <= i < |ns| ==> |ns[i].name| < 0x1_0000
  }

  function EncodeNames(ns: seq<NameEntry>): seq<byte>
    requires GoodNames(ns)
  {
    if ns == [] then [] else EncodeName(ns[0]) + EncodeNames(ns[1..])
  }

  /** The name a list of entries announces. */
  function Announced(ns: seq<NameEntry>, isIp: seq<byte> -> bool): Option<seq<byte>>
  {
    if ns == [] then None
    else if ns[0].kind == 0 then PlausibleHost(ns[0].name, isIp)
    else Announced(ns[1..], isIp)
  }

  /** The name a hello announces: that of its first server name extension. */
  function AnnouncedBy(es: seq<Extension>, isIp: seq<byte> -> bool): Option<seq<byte>>
  {
    if es == [] then None
    else if es[0].kind == 0 then FirstServerName(es[0].data, isIp)
    else AnnouncedBy(es[1..], isIp)
  }

  predicate GoodHello(h: Hello)
  {
    && |h.version| == 2 && |h.random| == 32 && |h.session| < 256 && |h.ciphers| < 0x1_0000 && |h.compression| < 256
    && GoodExtensions(h.extensions) && |EncodeExtensions(h.extensions)| < 0x1_0000
    && |EncodeBody(h)| + 4 < 0x1_0000
  }

  /** Everything in the hello before its extensions. */
  function Preamble(h: Hello, extensionsLen: nat): (r: seq<byte>)
    requires |h.session| < 256 && |h.ciphers| < 0x1_0000 && |h.compression| < 256 && extensionsLen < 0x1_0000
  {
    h.version + h.random + [|h.session|] + h.session + Be16(|h.ciphers|) + h.ciphers
      + [|h.compression|] + h.compression + Be16(extensionsLen)
  }

  function EncodeBody(h: Hello): seq<byte>
    requires |h.session| < 256 && |h.ciphers| < 0x1_0000 && |h.compression| < 256
    requires GoodExtensions(h.extensions) && |EncodeExtensions(h.extensions)| < 0x1_0000
  {
    var exts := EncodeExtensions(h.extensions);
    Preamble(h, |exts|) + exts
  }

  /** The hello as one TLS record; `major` and `minor` are its record version. */
  function EncodeRecord(h: Hello, major: byte, minor: byte): seq<byte>
    requires GoodHello(h)
  {
    var body := EncodeBody(h);
    [HANDSHAKE, major, minor] + Be16(|body| + 4) + [CLIENT_HELLO, 0] + Be16(|body|) + body
  }

  lemma Be16Reads(buf: seq<byte>, at: nat, n: nat)
    requires n < 0x1_0000 && at + 2 <= |buf| && buf[at..at + 2] == Be16(n)
    ensures Be16At(buf, at) == Some(n)
  {
    assert buf[at] == buf[at..at + 2][0] && buf[at + 1] == buf[at..at + 2][1];
  }

  lemma NameReads(data: seq<byte>, at: nat, e: NameEntry, rest: seq<byte>)
    requires |e.name| < 0x1_0000 && at <= |data| && data[at..] == EncodeName(e) + rest
    ensures data[at] == e.kind && Be16At(data, at + 1) == Some(|e.name|)
    ensures data[at + 3..at + 3 + |e.name|] == e.name && data[at + 3 + |e.name|..] == rest
  {
    var d := data[at..];
    assert data[at] == d[0] && data[at + 1] == d[1] && data[at + 2] == d[2];
    SliceOfSlice(data, at, 3, 3 + |e.name|);
    assert d[3..3 + |e.name|] == e.name && d[3 + |e.name|..] == rest;
  }

  lemma NameStep(data: seq<byte>, at: nat, e: NameEntry, later: Option<seq<byte>>, isIp: seq<byte> -> bool)
    requires at + 3 + |e.name| <= |data| && data[at + 3..at + 3 + |e.name|] == e.name
    requires data[at] == e.kind && Be16At(data, at + 1) == Some(|e.name|)
    requires WalkNames(data, at + 3 + |e.name|, |data|, isIp) == later
    ensures WalkNames(data, at, |data|, isIp) == if e.kind == 0 then PlausibleHost(e.name, isIp) else later
  {
  }

  lemma {:induction false} NamesWalked(data: seq<byte>, at: nat, ns: seq<NameEntry>, isIp: seq<byte> -> bool)
    requires GoodNames(ns) && at <= |data| && data[at..] == EncodeNames(ns)
    ensures WalkNames(data, at, |data|, isIp) == Announced(ns, isIp)
    decreases |ns|
  {
    if ns != [] {
      NameReads(data, at, ns[0], EncodeNames(ns[1..]));
      NamesWalked(data, at + 3 + |ns[0].name|, ns[1..], isIp);
      NameStep(data, at, ns[0], Announced(ns[1..], isIp), isIp);
    }
  }

  /** A well-formed server name extension yields its first host name. */
  lemma NamesRead(ns: seq<NameEntry>, isIp: seq<byte> -> bool)
    requires GoodNames(ns) && |EncodeNames(ns)| < 0x1_0000
    ensures FirstServerName(Be16(|EncodeNames(ns)|) + EncodeNames(ns), isIp) == Announced(ns, isIp)
  {
    var len := |EncodeNames(ns)|;
    var data := Be16(len) + EncodeNames(ns);
    assert data[0..2] == Be16(len);
    Be16Reads(data, 0, len);
    NamesWalked(data, 2, ns, isIp);
  }

  lemma ExtensionReads(hello: seq<byte>, at: nat, e: Extension, rest: seq<byte>)
    requires e.kind < 0x1_0000 && |e.data| < 0x1_0000 && at <= |hello| && hello[at..] == EncodeExtension(e) + rest
    ensures Be16At(hello, at) == Some(e.kind) && Be16At(hello, at + 2) == Some(|e.data|)
    ensures hello[at + 4..at + 4 + |e.data|] == e.data && hello[at + 4 + |e.data|..] == rest
  {
    var d := hello[at..];
    assert hello[at] == d[0] && hello[at + 1] == d[1] && hello[at + 2] == d[2] && hello[at + 3] == d[3];
    SliceOfSlice(hello, at, 4, 4 + |e.data|);
    assert d[4..4 + |e.data|] == e.data && d[4 + |e.data|..] == rest;
  }

  lemma ExtensionStep(hello: seq<byte>, at: nat, e: Extension, later: Option<seq<byte>>, isIp: seq<byte> -> bool)
    requires at + 4 + |e.data| <= |hello| && hello[at + 4..at + 4 + |e.data|] == e.data
    requires Be16At(hello, at) == Some(e.kind) && Be16At(hello, at + 2) == Some(|e.data|)
    requires WalkExtensions(hello, at + 4 + |e.data|, |hello|, isIp) == later
    ensures WalkExtensions(hello, at, |hello|, isIp) == if e.kind == 0 then FirstServerName(e.data, isIp) else later
  {
  }

  lemma {:induction false} ExtensionsWalked(hello: seq<byte>, at: nat, es: seq<Extension>, isIp: seq<byte> -> bool)
    requires GoodExtensions(es) && at <= |hello| && hello[at..] == EncodeExtensions(es)
    ensures WalkExtensions(hello, at, |hello|, isIp) == AnnouncedBy(es, isIp)
    decreases |es|
  {
    if es != [] {
      ExtensionReads(hello, at, es[0], EncodeExtensions(es[1..]));
      ExtensionsWalked(hello, at + 4 + |es[0].data|, es[1..], isIp);
      ExtensionStep(hello, at, es[0], AnnouncedBy(es[1..], isIp), isIp);
    }
  }

  lemma PreambleFields(h: Hello, exts: seq<byte>)
    requires |h.version| == 2 && |h.random| == 32 && |h.session| < 256 && |h.ciphers| < 0x1_0000
    requires |h.compression| < 256 && |exts| < 0x1_0000
    ensures var hello := Preamble(h, |exts|) + exts;
      var at1 := 35 + |h.session|; var at2 := at1 + 2 + |h.ciphers|; var at3 := at2 + 1 + |h.compression|;
      && |hello| == at3 + 2 + |exts| && hello[34] == |h.session| && hello[at2] == |h.compression|
      && hello[at1..at1 + 2] == Be16(|h.ciphers|) && hello[at3..at3 + 2] == Be16(|exts|)
  {
  }

  lemma PreambleRead(h: Hello, exts: seq<byte>)
    requires |h.version| == 2 && |h.random| == 32 && |h.session| < 256 && |h.ciphers| < 0x1_0000
    requires |h.compression| < 256 && |exts| < 0x1_0000
    ensures var pre := Preamble(h, |exts|); ExtensionsAt(pre + exts) == Some((|pre|, |pre + exts|))
  {
    var hello := Preamble(h, |exts|) + exts;
    var at1 := 35 + |h.session|;
    var at2 := at1 + 2 + |h.ciphers|;
    PreambleFields(h, exts);
    Be16Reads(hello, at1, |h.ciphers|);
    Be16Reads(hello, at2 + 1 + |h.compression|, |exts|);
  }

  lemma HandshakeRead(hello: seq<byte>)
    requires |hello| < 0x1_0000
    ensures var body := [CLIENT_HELLO, 0] + Be16(|hello|) + hello;
      Be24At(body, 1) == Some(|hello|) && body[4..4 + |hello|] == hello
  {
    var body := [CLIENT_HELLO, 0] + Be16(|hello|) + hello;
    assert body[1] == 0 && body[2..4] == Be16(|hello|);
    Be16Reads(body, 2, |hello|);
  }

  lemma RecordCut(major: byte, minor: byte, body: seq<byte>, more: seq<byte>)
    requires |body| < 0x1_0000
    ensures var buf := [HANDSHAKE, major, minor] + Be16(|body|) + body + more;
      buf[0] == HANDSHAKE && Be16At(buf, 3) == Some(|body|) && buf[5..5 + |body|] == body
  {
    var buf := [HANDSHAKE, major, minor] + Be16(|body|) + body + more;
    assert buf[3..5] == Be16(|body|);
    Be16Reads(buf, 3, |body|);
  }

  lemma RecordRead(h: Hello, major: byte, minor: byte, more: seq<byte>)
    requires GoodHello(h)
    ensures HelloOf(EncodeRecord(h, major, minor) + more) == Some(EncodeBody(h))
  {
    HelloRead(EncodeBody(h), major, minor, more);
    var hello := EncodeBody(h);
    assert EncodeRecord(h, major, minor)
        == [HANDSHAKE, major, minor] + Be16(|hello| + 4) + ([CLIENT_HELLO, 0] + Be16(|hello|) + hello);
  }

  lemma HelloRead(hello: seq<byte>, major: byte, minor: byte, more: seq<byte>)
    requires |hello| + 4 < 0x1_0000
    ensures var body := [CLIENT_HELLO, 0] + Be16(|hello|) + hello;
      HelloOf([HANDSHAKE, major, minor] + Be16(|hello| + 4) + body + more) == Some(hello)
  {
    HandshakeRead(hello);
    RecordCut(major, minor, [CLIENT_HELLO, 0] + Be16(|hello|) + hello, more);
  }

  /** Every well-formed client hello, whatever follows it, yields the name it announces. */
  lemma WellFormedRead(h: Hello, major: byte, minor: byte, more: seq<byte>, isIp: seq<byte> -> bool)
    requires GoodHello(h)
    ensures TlsSni(EncodeRecord(h, major, minor) + more, isIp) == AnnouncedBy(h.extensions, isIp)
  {
    RecordRead(h, major, minor, more);
    var exts := EncodeExtensions(h.extensions);
    var pre := Preamble(h, |exts|);
    PreambleRead(h, exts);
    ExtensionsWalked(pre + exts, |pre|, h.extensions, isIp);
  }

  lemma {:induction false} FirstExtensionDecides(others: seq<Extension>, e: Extension, rest: seq<Extension>,
                                                isIp: seq<byte> -> bool)
    requires e.kind == 0 && forall i :: 0 <= i < |others| ==> others[i].kind != 0
    ensures AnnouncedBy(others + [e] + rest, isIp) == FirstServerName(e.data, isIp)
  {
    var es := others + [e] + rest;
    if others == [] {
      assert es[0] == e;
    } else {
      assert es[0] == others[0] && es[1..] == others[1..] + [e] + rest;
      FirstExtensionDecides(others[1..], e, rest, isIp);
    }
  }

  lemma {:induction false} FirstHostDecides(others: seq<NameEntry>, e: NameEntry, rest: seq<NameEntry>,
                                           isIp: seq<byte> -> bool)
    requires e.kind == 0 && forall i :: 0 <= i < |others| ==> others[i].kind != 0
    ensures Announced(others + [e] + rest, isIp) == PlausibleHost(e.name, isIp)
  {
    var ns := others + [e] + rest;
    if others == [] {
      assert ns[0] == e;
    } else {
      assert ns[0] == others[0] && ns[1..] == others[1..] + [e] + rest;
      FirstHostDecides(others[1..], e, rest, isIp);
    }
  }

  /** The server name extension that carries a list of names. */
  function NameExtension(ns: seq<NameEntry>): Extension
    requires GoodNames(ns) && |EncodeNames(ns)| < 0x1_0000
  {
    Extension(0, Be16(|EncodeNames(ns)|) + EncodeNames(ns))
  }

  /**
    A client hello that names a proper host is sniffed as that host in lower case. The host may come
    after names of other kinds, and its extension after any other extensions.
   */
  lemma HostIsSniffed(h: Hello, major: byte, minor: byte, more: seq<byte>, others: seq<Extension>, rest: seq<Extension>,
                      skipped: seq<NameEntry>, name: seq<byte>, names: seq<NameEntry>, isIp: seq<byte> -> bool)
    requires HostName(name, isIp) && forall i :: 0 <= i < |skipped| ==> skipped[i].kind != 0
    requires GoodNames(skipped + [NameEntry(0, name)] + names)
    requires |EncodeNames(skipped + [NameEntry(0, name)] + names)| < 0x1_0000
    requires forall i :: 0 <= i < |others| ==> others[i].kind != 0
    requires h.extensions == others + [NameExtension(skipped + [NameEntry(0, name)] + names)] + rest && GoodHello(h)
    ensures TlsSni(EncodeRecord(h, major, minor) + more, isIp) == Some(Lower(name))
  {
    var ns := skipped + [NameEntry(0, name)] + names;
    WellFormedRead(h, major, minor, more, isIp);
    FirstExtensionDecides(others, NameExtension(ns), rest, isIp);
    NamesRead(ns, isIp);
    FirstHostDecides(skipped, NameEntry(0, name), names, isIp);
    PlausibleAccepts(name, isIp);
  }

  // ---------------------------------------------------------------- what is not a name

  function Dots(n: nat): seq<byte> { seq(n, _ => 46) }

  /** Trimming takes off dots at the end, and all of them. */
  lemma {:induction false} DotsTrimmed(s: seq<byte>) returns (n: nat)
    ensures s == TrimDots(s) + Dots(n) && (TrimDots(s) != [] ==> TrimDots(s)[|TrimDots(s)| - 1] != 46)
  {
    if s != [] && s[|s| - 1] == 46 {
      var m := DotsTrimmed(s[..|s| - 1]);
      n := m + 1;
      assert Dots(n) == Dots(m) + [46];
      assert s == s[..|s| - 1] + [46];
    } else {
      n := 0;
    }
  }

  /** Letters, digits, hyphens, dots and underscores. */
  lemma HostBytes(b: byte)
    ensures IsHostByte(b) <==>
      var c := b as char;
      'a' <= c <= 'z' || 'A' <= c <= 'Z' || '0' <= c <= '9' || c == '-' || c == '.' || c == '_'
    ensures LowerByte(b) as char == if 'A' <= b as char <= 'Z' then (b + 32) as char else b as char
  {
  }

  /**
    A name is accepted exactly when it is not empty and at most 253 bytes long, and is a host name
    once surrounding white space and then trailing dots are taken off; it comes out in lower case.
   */
  lemma PlausibleIff(raw: seq<byte>, isIp: seq<byte> -> bool)
    ensures var name := TrimDots(Trim(raw));
      && (PlausibleHost(raw, isIp).Some? <==> 0 < |raw| <= 253 && HostName(name, isIp))
      && (PlausibleHost(raw, isIp).Some? ==> PlausibleHost(raw, isIp).value == Lower(name))
  {
    var name := TrimDots(Trim(raw));
    var n := DotsTrimmed(Trim(raw));
    TrimShorter(raw);
  }

  lemma {:induction false} TrimStartShorter(s: seq<byte>)
    ensures |TrimStart(s)| <= |s|
  {
    if SpaceAtStart(s) > 0 {
      TrimStartShorter(s[SpaceAtStart(s)..]);
    }
  }

  lemma {:induction false} TrimEndShorter(s: seq<byte>)
    ensures |TrimEnd(s)| <= |s|
  {
    if SpaceAtEnd(s) > 0 {
      TrimEndShorter(s[..|s| - SpaceAtEnd(s)]);
    }
  }

  lemma TrimShorter(s: seq<byte>)
    ensures |Trim(s)| <= |s|
  {
    TrimStartShorter(s);
    TrimEndShorter(TrimStart(s));
  }

  /** Nothing is sniffed but the start of a handshake record that holds the start of a client hello. */
  lemma OnlyHellos(buf: seq<byte>, isIp: seq<byte> -> bool)
    requires TlsSni(buf, isIp).Some?
    ensures |buf| > 5 && buf[0] == 0x16 && buf[5] == 1
  {
  }
}
