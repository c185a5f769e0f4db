/** The protocol sniffers of app/common/protocol/protocol.go and the server name they find in
    a TLS ClientHello (section 4.1.2 of RFC 8446, section 3 of RFC 6066). */
module Sni {
  import opened Bytes

  // ---------- the extractor ----------

  /** The first host name of a server name list, if the list is one the source accepts. */
  function NameIn(sni: seq<Byte>): seq<Byte>
  {
    if |sni| > 5 && sni[0] == 0 && 5 + GetBe16(sni, 3) <= |sni| then sni[5..5 + GetBe16(sni, 3)] else []
  }

  /** The extensions of p from off to end: the first server name extension decides. */
  function FindName(p: seq<Byte>, off: nat, end: nat): seq<Byte>
    decreases |p| - off
  {
    if off + 4 > end || off + 4 > |p| then []
    else
      var len := GetBe16(p, off + 2);
      if GetBe16(p, off) == 0 then
        if off + 4 + len > end || off + 4 + len > |p| then [] else NameIn(p[off + 4..off + 4 + len])
      else FindName(p, off + 4 + len, end)
  }

  function GetBe24(b: seq<Byte>, i: nat): nat
    requires i + 3 <= |b|
  {
    var hi: int, mid: int, lo: int := b[i], b[i + 1], b[i + 2];
    hi * 0x1_0000 + mid * 0x100 + lo
  }

  /** Skips session id, cipher suites and compression methods of a ClientHello body. */
  function NameInBody(p: seq<Byte>): seq<Byte>
  {
    if |p| < 42 then []
    else
      var sessionLen: nat := p[34];
      var cipher := 35 + sessionLen;
      if cipher + 2 > |p| then []
      else
        var comp: nat := cipher + 2 + GetBe16(p, cipher);
        if comp + 1 > |p| then []
        else
          var compLen: nat := p[comp];
          var ext := comp + 1 + compLen;
          if ext + 2 > |p| then [] else FindName(p, ext + 2, ext + 2 + GetBe16(p, ext))
  }

  function ServerName(data: seq<Byte>): seq<Byte>
  {
    if |data| < 5 || data[0] != 1 || |data| < 4 + GetBe24(data, 1) then []
    else NameInBody(data[4..4 + GetBe24(data, 1)])
  }

  lemma FindStep(p: seq<Byte>, off: nat, end: nat)
    ensures FindName(p, off, end) ==
      if off + 4 > end || off + 4 > |p| then []
      else
        var len := GetBe16(p, off + 2);
        if GetBe16(p, off) != 0 then FindName(p, off + 4 + len, end)
        else if off + 4 + len > end || off + 4 + len > |p| then [] else NameIn(p[off + 4..off + 4 + len])
  {
  }

  /** extractSNI: every index is in range and the loop ends, on any bytes. */
  method ExtractSNI(data: seq<Byte>) returns (name: seq<Byte>)
    ensures name == ServerName(data)
  {
    hide GetBe16, GetBe24, FindName;
    if |data| < 5 {
      return [];
    }
    if data[0] != 1 {
      return [];
    }
    var length := GetBe24(data, 1);
    if |data| < 4 + length {
      return [];
    }
    var payload := data[4..4 + length];
    if |payload| < 42 {
      return [];
    }
    var offset: nat := 2 + 32;
    offset := offset + 1 + payload[offset];
    if offset + 2 > |payload| {
      return [];
    }
    offset := offset + 2 + GetBe16(payload, offset);
    if offset + 1 > |payload| {
      return [];
    }
    offset := offset + 1 + payload[offset];
    if offset + 2 > |payload| {
      return [];
    }
    var extLen := GetBe16(payload, offset);
    offset := offset + 2;
    var end := offset + extLen;
    while offset + 4 <= end && offset + 4 <= |payload|
      invariant FindName(payload, offset, end) == ServerName(data)
      decreases end - offset
    {
      FindStep(payload, offset, end);
      var extType, extDataLen := GetBe16(payload, offset), GetBe16(payload, offset + 2);
      offset := offset + 4;
      if extType == 0 {
        if offset + extDataLen > end || offset + extDataLen > |payload| {
          return [];
        }
        var sniData := payload[offset..offset + extDataLen];
        if |sniData| > 5 && sniData[0] == 0 {
          var sniLen := GetBe16(sniData, 3);
          if 5 + sniLen <= |sniData| {
            return sniData[5..5 + sniLen];
          }
        }
        return [];
      }
      offset := offset + extDataLen;
    }
    FindStep(payload, offset, end);
    return [];
  }

  // ---------- the printer it undoes ----------

  datatype Extension = Extension(kind: U16, data: seq<Byte>)

  datatype Hello = Hello(
    version: seq<Byte>, random: seq<Byte>, sessionId: seq<Byte>, ciphers: seq<Byte>,
    compression: seq<Byte>, extensions: seq<Extension>)

  function PrintExtensions(es: seq<Extension>): seq<Byte>
  {
    if es == [] then []
    else Be16(es[0].kind) + Be16(|es[0].data|) + es[0].data + PrintExtensions(es[1..])
  }

  function PrintBody(h: Hello): seq<Byte>
  {
    h.version + h.random +
    [|h.sessionId| % 0x100] + h.sessionId +
    Be16(|h.ciphers|) + h.ciphers +
    [|h.compression| % 0x100] + h.compression +
    Be16(|PrintExtensions(h.extensions)|) + PrintExtensions(h.extensions)
  }

  function Be24(n: nat): (b: seq<Byte>)
    ensures |b| == 3
  {
    [n / 0x1_0000 % 0x100] + Be16(n)
  }

  function PrintHello(h: Hello): seq<Byte>
  {
    [1] + Be24(|PrintBody(h)|) + PrintBody(h)
  }

  /** Every part fits its length field. */
  ghost predicate WellFormed(h: Hello)
  {
    && |h.version| == 2 && |h.random| == 32
    && |h.sessionId| < 0x100 && |h.ciphers| < 0x1_0000 && |h.compression| < 0x100
    && (forall i | 0 <= i < |h.extensions| :: |h.extensions[i].data| < 0x1_0000)
    && |PrintExtensions(h.extensions)| < 0x1_0000
  }

  /** A server name list: host names typed 0, the first one given, whatever follows. */
  function NameList(host: seq<Byte>, more: seq<Byte>): seq<Byte>
  {
    [0] + Be16(|host|) + host + more
  }

  function ServerNameExtension(host: seq<Byte>, more: seq<Byte>): Extension
  {
    Extension(0, Be16(|NameList(host, more)|) + NameList(host, more))
  }

  lemma Be24RoundTrip(b: seq<Byte>, i: nat, n: nat)
    requires i + 3 <= |b| && b[i..i + 3] == Be24(n) && n < 0x100_0000
    ensures GetBe24(b, i) == n
  {
    assert b[i] == b[i..i + 3][0] && b[i + 1] == b[i..i + 3][1] && b[i + 2] == b[i..i + 3][2];
  }

  lemma ListName(host: seq<Byte>, more: seq<Byte>)
    requires 0 < |host| && |NameList(host, more)| < 0x1_0000
    ensures var name := NameIn(ServerNameExtension(host, more).data);
      if |NameList(host, more)| < 0x100 then name == host else name == []
  {
    var d := ServerNameExtension(host, more).data;
    assert d[3..5] == Be16(|host|);
    Be16RoundTrip(d, 3, |host|);
    assert d[5..5 + |host|] == host;
  }

  lemma FirstExtension(e: Extension, es: seq<Extension>)
    requires |e.data| < 0x1_0000
    ensures var b := PrintExtensions([e] + es);
      && 4 + |e.data| <= |b|
      && GetBe16(b, 0) == e.kind && GetBe16(b, 2) == |e.data|
      && b[4..4 + |e.data|] == e.data && b[4 + |e.data|..] == PrintExtensions(es)
  {
    var b := PrintExtensions([e] + es);
    assert ([e] + es)[1..] == es;
    assert b[0..2] == Be16(e.kind) && b[2..4] == Be16(|e.data|);
    Be16RoundTrip(b, 0, e.kind);
    Be16RoundTrip(b, 2, |e.data|);
  }

  lemma Shifted(p: seq<Byte>, off: nat, i: nat)
    requires off + i + 2 <= |p|
    ensures GetBe16(p[off..], i) == GetBe16(p, off + i)
  {
  }

  lemma {:induction false} SkipsToName(p: seq<Byte>, off: nat, before: seq<Extension>, sni: Extension, after: seq<Extension>)
    requires off <= |p| && p[off..] == PrintExtensions(before + [sni] + after)
    requires sni.kind == 0 && |sni.data| < 0x1_0000
    requires forall i | 0 <= i < |before| :: before[i].kind != 0 && |before[i].data| < 0x1_0000
    ensures FindName(p, off, |p|) == NameIn(sni.data)
    decreases before
  {
    hide GetBe16, NameIn, PrintExtensions;
    if before == [] {
      assert before + [sni] + after == [sni] + after;
      FirstExtension(sni, after);
      Shifted(p, off, 0);
      Shifted(p, off, 2);
      assert p[off + 4..off + 4 + |sni.data|] == p[off..][4..4 + |sni.data|];
    } else {
      var e, rest := before[0], before[1..] + [sni] + after;
      assert before + [sni] + after == [e] + rest;
      FirstExtension(e, rest);
      Shifted(p, off, 0);
      Shifted(p, off, 2);
      var next := off + 4 + |e.data|;
      assert p[next..] == p[off..][4 + |e.data|..];
      SkipsToName(p, next, before[1..], sni, after);
    }
  }

  /** The fixed part of the body leads to the extensions. */
  lemma BodyLeadsToExtensions(h: Hello)
    requires WellFormed(h) && |PrintExtensions(h.extensions)| >= 4
    ensures var p := PrintBody(h); var exts := PrintExtensions(h.extensions);
      && |exts| <= |p| && p[|p| - |exts|..] == exts
      && NameInBody(p) == FindName(p, |p| - |exts|, |p|)
  {
    hide GetBe16, Be16, PrintExtensions, FindName;
    var p, exts := PrintBody(h), PrintExtensions(h.extensions);
    var s, c, m := |h.sessionId|, |h.ciphers|, |h.compression|;
    assert p[34] == s;
    assert p[35 + s..37 + s] == Be16(c);
    Be16RoundTrip(p, 35 + s, c);
    assert p[37 + s + c] == m;
    assert p[38 + s + c + m..40 + s + c + m] == Be16(|exts|);
    Be16RoundTrip(p, 38 + s + c + m, |exts|);
    assert p[40 + s + c + m..] == exts;
  }

  lemma HelloLeadsToBody(h: Hello, rest: seq<Byte>)
    requires |PrintBody(h)| < 0x100_0000
    ensures ServerName(PrintHello(h) + rest) == if |PrintBody(h)| > 0 then NameInBody(PrintBody(h)) else []
  {
    hide GetBe24, Be24, PrintBody;
    var data, n := PrintHello(h) + rest, |PrintBody(h)|;
    assert data[1..4] == Be24(n);
    Be24RoundTrip(data, 1, n);
    assert data[4..4 + n] == PrintBody(h);
  }

  lemma BodySize(h: Hello)
    requires WellFormed(h)
    ensures 0 < |PrintBody(h)| < 0x100_0000
  {
  }

  lemma {:induction false} NothingFound(p: seq<Byte>, off: nat, es: seq<Extension>)
    requires off <= |p| && p[off..] == PrintExtensions(es)
    requires forall i | 0 <= i < |es| :: es[i].kind != 0 && |es[i].data| < 0x1_0000
    ensures FindName(p, off, |p|) == []
    decreases es
  {
    hide GetBe16, PrintExtensions;
    if es == [] {
      NoExtensions();
    } else {
      var e := es[0];
      assert [e] + es[1..] == es;
      FirstExtension(e, es[1..]);
      Shifted(p, off, 0);
      Shifted(p, off, 2);
      var next := off + 4 + |e.data|;
      assert p[next..] == p[off..][4 + |e.data|..];
      NothingFound(p, next, es[1..]);
    }
  }

  lemma NoExtensions()
    ensures PrintExtensions([]) == []
  {
  }

  lemma BodyWithoutExtensions(h: Hello)
    requires WellFormed(h) && h.extensions == []
    ensures NameInBody(PrintBody(h)) == []
  {
    hide GetBe16, Be16;
    NoExtensions();
    var p := PrintBody(h);
    var s, c, m := |h.sessionId|, |h.ciphers|, |h.compression|;
    assert p[34] == s;
    assert p[35 + s..37 + s] == Be16(c);
    Be16RoundTrip(p, 35 + s, c);
    assert p[37 + s + c] == m;
  }

  /** A ClientHello without a server name extension has no name. */
  lemma NoExtensionNoName(h: Hello, rest: seq<Byte>)
    requires WellFormed(h) && forall i | 0 <= i < |h.extensions| :: h.extensions[i].kind != 0
    ensures ServerName(PrintHello(h) + rest) == []
  {
    hide ServerName, NameInBody, FindName, PrintExtensions, PrintBody, PrintHello;
    BodySize(h);
    HelloLeadsToBody(h, rest);
    if h.extensions == [] {
      BodyWithoutExtensions(h);
    } else {
      ExtensionsAtLeast([], h.extensions[0], h.extensions[1..]);
      assert [] + [h.extensions[0]] + h.extensions[1..] == h.extensions;
      BodyLeadsToExtensions(h);
      var p := PrintBody(h);
      NothingFound(p, |p| - |PrintExtensions(h.extensions)|, h.extensions);
    }
  }

  /** Whatever precedes it, except another type-0 extension, and whatever follows, the first
      host name is found exactly when the server name list is shorter than 256 bytes; for a
      longer list nothing is. */
  lemma ExtractUndoesPrint(h: Hello, before: seq<Extension>, host: seq<Byte>, more: seq<Byte>, after: seq<Extension>, rest: seq<Byte>)
    requires WellFormed(h) && h.extensions == before + [ServerNameExtension(host, more)] + after
    requires 0 < |host| && |NameList(host, more)| < 0x1_0000 - 2
    requires forall i | 0 <= i < |before| :: before[i].kind != 0
    ensures ServerName(PrintHello(h) + rest) == if |NameList(host, more)| < 0x100 then host else []
  {
    hide ServerName, NameInBody, NameIn, FindName, PrintExtensions, PrintBody, PrintHello;
    var sni := ServerNameExtension(host, more);
    assert forall i | 0 <= i < |before| :: h.extensions[i] == before[i];
    ExtensionsAtLeast(before, sni, after);
    BodySize(h);
    HelloLeadsToBody(h, rest);
    BodyLeadsToExtensions(h);
    var p := PrintBody(h);
    SkipsToName(p, |p| - |PrintExtensions(h.extensions)|, before, sni, after);
    ListName(host, more);
  }

  /** Whatever a first server name extension holds, its own bytes decide: behind three bytes, of
      which the first is zero, a length and as many bytes of name as it says, or nothing. */
  lemma ExtensionDecides(h: Hello, before: seq<Extension>, d: seq<Byte>, after: seq<Extension>, rest: seq<Byte>)
    requires WellFormed(h) && h.extensions == before + [Extension(0, d)] + after && |d| < 0x1_0000
    requires forall i | 0 <= i < |before| :: before[i].kind != 0
    ensures ServerName(PrintHello(h) + rest) ==
      if |d| > 5 && d[0] == 0 && 5 + Number(d[3..5]) <= |d| then d[5..5 + Number(d[3..5])] else []
  {
    hide ServerName, NameInBody, FindName, PrintExtensions, PrintBody, PrintHello, GetBe16, Number;
    assert forall i | 0 <= i < |before| :: h.extensions[i] == before[i];
    ExtensionsAtLeast(before, Extension(0, d), after);
    BodySize(h);
    HelloLeadsToBody(h, rest);
    BodyLeadsToExtensions(h);
    var p := PrintBody(h);
    SkipsToName(p, |p| - |PrintExtensions(h.extensions)|, before, Extension(0, d), after);
    if |d| > 5 {
      SpelledAt(d, 3);
    }
  }

  lemma SpelledAt(b: seq<Byte>, i: nat)
    requires i + 2 <= |b|
    ensures Number(b[i..i + 2]) == GetBe16(b, i)
  {
    assert b[i..i + 2] == [b[i], b[i + 1]];
    NumberTwo(b[i], b[i + 1]);
  }

  /** Anything but a whole ClientHello has no name. */
  lemma NotHello(data: seq<Byte>)
    requires |data| < 5 || data[0] != 1 || |data| < 4 + Number([data[1]]) * 0x1_0000 + Number(data[2..4])
    ensures ServerName(data) == []
  {
    hide NameInBody;
    if |data| >= 5 {
      assert [data[1]][..0] == [] && Number([data[1]]) == data[1];
      SpelledAt(data, 2);
    }
  }

  lemma ExtensionsAtLeast(before: seq<Extension>, e: Extension, after: seq<Extension>)
    ensures |PrintExtensions(before + [e] + after)| >= 4
  {
    var es := before + [e] + after;
    assert es != [];
  }

  // ---------- the sniffers ----------

  datatype Protocol = Http | Tls(domain: seq<Byte>) | Dns | Unknown

  datatype Sniffed = TooShort | NoMatch | Found(p: Protocol)

  function Ascii(s: string): seq<Byte>
    requires forall i | 0 <= i < |s| :: s[i] as int < 0x100
  {
    seq(|s|, i requires 0 <= i < |s| => s[i] as int)
  }

  function HttpSniffer(data: seq<Byte>): Sniffed
  {
    if |data| < 4 then TooShort
    else if data[..4] in [Ascii("GET "), Ascii("POST"), Ascii("HEAD"), Ascii("PUT "),
                          Ascii("DELE"), Ascii("OPTI"), Ascii("CONN"), Ascii("PATC")]
    then Found(Http) else NoMatch
  }

  function TlsSniffer(data: seq<Byte>): Sniffed
  {
    if |data| < 6 then TooShort
    else if data[0] == 0x16 && data[1] == 3 && data[2] <= 3 && |data| >= 6 + GetBe16(data, 3)
    then Found(Tls(ServerName(data[5..]))) else NoMatch
  }

  function DnsSniffer(data: seq<Byte>): Sniffed
  {
    if |data| < 12 then TooShort
    else if data[2] / 0x80 == 0 && data[3] % 0x10 == 0 then Found(Dns) else NoMatch
  }

  /** The sniffers in the order they are registered; the first that finds something decides. */
  method Sniff(data: seq<Byte>) returns (p: Protocol)
    ensures p == Sniffing(data)
  {
    hide HttpSniffer, TlsSniffer, DnsSniffer;
    var sniffers: seq<seq<Byte> -> Sniffed> := [d => HttpSniffer(d), d => TlsSniffer(d), d => DnsSniffer(d)];
    assert sniffers[0](data) == HttpSniffer(data);
    assert sniffers[1](data) == TlsSniffer(data);
    assert sniffers[2](data) == DnsSniffer(data);
    for i := 0 to |sniffers|
      invariant forall j | 0 <= j < i :: !sniffers[j](data).Found?
    {
      var r := sniffers[i](data);
      if r.Found? {
        return r.p;
      }
    }
    assert !sniffers[0](data).Found? && !sniffers[1](data).Found? && !sniffers[2](data).Found?;
    return Unknown;
  }

  function Sniffing(data: seq<Byte>): Protocol
  {
    if HttpSniffer(data).Found? then HttpSniffer(data).p
    else if TlsSniffer(data).Found? then TlsSniffer(data).p
    else if DnsSniffer(data).Found? then DnsSniffer(data).p
    else Unknown
  }

  /** The first four letters of the request methods, spelled as bytes: GET and PUT with a blank,
      POST, HEAD, DELETE, OPTIONS, CONNECT, PATCH. */
  predicate MethodLetters(m: seq<Byte>)
  {
    || m == [0x47, 0x45, 0x54, 0x20] || m == [0x50, 0x55, 0x54, 0x20]
    || m == [0x50, 0x4F, 0x53, 0x54] || m == [0x48, 0x45, 0x41, 0x44]
    || m == [0x44, 0x45, 0x4C, 0x45] || m == [0x4F, 0x50, 0x54, 0x49]
    || m == [0x43, 0x4F, 0x4E, 0x4E] || m == [0x50, 0x41, 0x54, 0x43]
  }

  /** Data is sniffed as HTTP exactly when it begins with one of the eight methods. */
  lemma HttpIsSniffed(data: seq<Byte>)
    ensures Sniffing(data) == Http <==> |data| >= 4 && MethodLetters(data[..4])
  {
    hide ServerName, GetBe16;
    AsciiMethods();
  }

  lemma AsciiMethods()
    ensures Ascii("GET ") == [0x47, 0x45, 0x54, 0x20] && Ascii("PUT ") == [0x50, 0x55, 0x54, 0x20]
    ensures Ascii("POST") == [0x50, 0x4F, 0x53, 0x54] && Ascii("HEAD") == [0x48, 0x45, 0x41, 0x44]
    ensures Ascii("DELE") == [0x44, 0x45, 0x4C, 0x45] && Ascii("OPTI") == [0x4F, 0x50, 0x54, 0x49]
    ensures Ascii("CONN") == [0x43, 0x4F, 0x4E, 0x4E] && Ascii("PATC") == [0x50, 0x41, 0x54, 0x43]
  {
  }

  /** What is neither a method nor a record is DNS exactly when twelve bytes are there, the
      query bit is clear and the response code is zero. */
  lemma DnsIsSniffed(data: seq<Byte>)
    requires |data| >= 4 ==> !MethodLetters(data[..4])
    requires data != [] ==> data[0] != 0x16
    ensures Sniffing(data) == if 12 <= |data| && data[2] < 0x80 && data[3] % 0x10 == 0 then Dns else Unknown
  {
    hide ServerName, GetBe16;
    AsciiMethods();
  }

  /** A record whose version is not one the source knows, or that is cut off, is not TLS. */
  lemma OtherRecords(data: seq<Byte>)
    requires |data| < 6 || data[1] != 3 || data[2] > 3 || |data| < 6 + GetBe16(data, 3)
    ensures !Sniffing(data).Tls?
  {
    hide ServerName, GetBe16;
  }

  /** A TLS record that carries a handshake message. */
  function Record(minor: Byte, message: seq<Byte>): seq<Byte>
  {
    [0x16, 3, minor] + Be16(|message|) + message
  }

  lemma RecordBytes(minor: Byte, message: seq<Byte>, rest: seq<Byte>)
    requires |message| < 0x1_0000
    ensures var data := Record(minor, message) + rest;
      && |data| == 5 + |message| + |rest|
      && data[0] == 0x16 && data[1] == 3 && data[2] == minor && data[3] == |message| / 0x100
      && GetBe16(data, 3) == |message| && data[5..] == message + rest
  {
    hide GetBe16;
    var data := Record(minor, message) + rest;
    assert data[3..5] == Be16(|message|);
    Be16RoundTrip(data, 3, |message|);
  }

  lemma NotHttp(data: seq<Byte>)
    requires data != [] && data[0] == 0x16
    ensures !HttpSniffer(data).Found?
  {
    assert |data| >= 4 ==> data[..4][0] == 0x16;
    assert forall s: string | |s| == 4 && (forall i | 0 <= i < 4 :: 'A' <= s[i] <= 'Z' || s[i] == ' ') :: Ascii(s)[0] != 0x16;
  }

  /** A handshake record of any length is recognised exactly when at least one byte follows it.
      One that ends the buffer is reported as DNS or as unknown, depending on its length. */
  lemma RecordIsSniffed(minor: Byte, message: seq<Byte>, rest: seq<Byte>)
    requires minor <= 3 && |message| < 0x1_0000
    ensures Sniffing(Record(minor, message) + rest) ==
      if rest != [] then Tls(ServerName(message + rest))
      else if 7 <= |message| && |message| / 0x100 % 0x10 == 0 then Dns
      else Unknown
  {
    hide ServerName, GetBe16, Record, HttpSniffer;
    RecordBytes(minor, message, rest);
    NotHttp(Record(minor, message) + rest);
  }

  /** End to end: a ClientHello record with at least one byte after it yields its host name. */
  lemma ClientHelloIsSniffed(minor: Byte, h: Hello, before: seq<Extension>, host: seq<Byte>, more: seq<Byte>, after: seq<Extension>, rest: seq<Byte>)
    requires minor <= 3 && rest != [] && |PrintHello(h)| < 0x1_0000
    requires WellFormed(h) && h.extensions == before + [ServerNameExtension(host, more)] + after
    requires 0 < |host| && |NameList(host, more)| < 0x100
    requires forall i | 0 <= i < |before| :: before[i].kind != 0
    ensures Sniffing(Record(minor, PrintHello(h)) + rest) == Tls(host)
  {
    hide Sniffing, ServerName, PrintExtensions;
    ExtractUndoesPrint(h, before, host, more, after, rest);
    RecordIsSniffed(minor, PrintHello(h), rest);
  }
}
