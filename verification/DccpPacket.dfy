/** The packet codec of app/transport/dccp/packet.go: a byte array written at a moving offset,
    and the header and option parser that undoes it. */
module DccpPacket {
  import opened Bytes
  import opened DccpChecksum

  const HEADER_SIZE: nat := 12
  const PADDING: Byte := 0

  datatype DccpOption = DccpOption(kind: Byte, len: Byte, data: seq<Byte>)

  datatype Header = Header(
    sourcePort: U16, destPort: U16, dataOffset: Byte, ccVal: Byte, checksum: U16,
    kind: Byte, extended: Byte, seqNumber: U64)

  datatype Error = PacketTooSmall | InvalidOption

  datatype Decoded = Packet(hdr: Header, options: seq<DccpOption>, payload: seq<Byte>)

  /** Panic is a slice expression out of range. */
  datatype Outcome<T> = Ok(value: T) | Err(error: Error) | Panic

  // ---------- sizes ----------

  function OptionSize(options: seq<DccpOption>): nat
  {
    if options == [] then 0 else OptionSize(options[..|options| - 1]) + options[|options| - 1].len
  }

  function Padding(size: nat): nat
  {
    (4 - size % 4) % 4
  }

  function Padded(options: seq<DccpOption>): nat
  {
    OptionSize(options) + Padding(OptionSize(options))
  }

  function TotalSize(options: seq<DccpOption>, payload: seq<Byte>): nat
  {
    HEADER_SIZE + Padded(options) + |payload|
  }

  /** In 32-bit words, computed in a byte and capped at 15. */
  function DataOffset(options: seq<DccpOption>): (words: Byte)
    ensures words <= 15
  {
    var words := (HEADER_SIZE + Padded(options)) / 4 % 0x100;
    if words > 15 then 15 else words
  }

  // ---------- the bytes of a packet ----------

  /** buf with bytes written at an offset. */
  function Put(buf: seq<Byte>, at: nat, bytes: seq<Byte>): (r: seq<Byte>)
    requires at + |bytes| <= |buf|
    ensures |r| == |buf|
  {
    buf[..at] + bytes + buf[at + |bytes|..]
  }

  /** An option of length len carries the first len - 2 bytes of its data, or all of them. */
  function OptionBytes(o: DccpOption): seq<Byte>
    requires 2 <= o.len
  {
    [o.kind, o.len] + Take(o.data, o.len - 2)
  }

  ghost predicate Sized(options: seq<DccpOption>)
  {
    forall i | 0 <= i < |options| :: 2 <= options[i].len
  }

  function PutOptions(buf: seq<Byte>, options: seq<DccpOption>): (r: seq<Byte>)
    requires Sized(options) && HEADER_SIZE + OptionSize(options) <= |buf|
    ensures |r| == |buf|
  {
    if options == [] then buf
    else
      var init, last := options[..|options| - 1], options[|options| - 1];
      Put(PutOptions(buf, init), HEADER_SIZE + OptionSize(init), OptionBytes(last))
  }

  function Zeros(n: nat): (z: seq<Byte>)
    ensures |z| == n
  {
    seq(n, i => 0)
  }

  function FixedHeader(hdr: Header, dataOffset: Byte): (b: seq<Byte>)
    requires dataOffset <= 15
    ensures |b| == 8
  {
    Be16(hdr.sourcePort) + Be16(hdr.destPort) +
    [dataOffset * 16 + hdr.ccVal % 16, hdr.kind % 16 + hdr.extended % 2 * 128] + Be16(hdr.checksum)
  }

  /** A sequence number is written only for extended packets, and needs bytes 8 to 15. */
  ghost predicate Encodable(hdr: Header, options: seq<DccpOption>, payload: seq<Byte>)
  {
    Sized(options) && (hdr.extended == 1 ==> 16 <= TotalSize(options, payload))
  }

  function Prefix(hdr: Header, options: seq<DccpOption>, payload: seq<Byte>): (b: seq<Byte>)
    requires hdr.extended == 1 ==> 16 <= TotalSize(options, payload)
    ensures |b| == TotalSize(options, payload)
  {
    var b := Put(Zeros(TotalSize(options, payload)), 0, FixedHeader(hdr, DataOffset(options)));
    if hdr.extended == 1 then Put(b, 8, Be64(hdr.seqNumber)) else b
  }

  /** The packet before its checksum is stored. */
  function Unsummed(hdr: Header, options: seq<DccpOption>, payload: seq<Byte>): (b: seq<Byte>)
    requires Encodable(hdr, options, payload)
    ensures |b| == TotalSize(options, payload)
  {
    var b := PutOptions(Prefix(hdr, options, payload), options);
    Put(Put(b, HEADER_SIZE + OptionSize(options), Zeros(Padding(OptionSize(options)))),
        HEADER_SIZE + Padded(options), payload)
  }

  function Encode(hdr: Header, options: seq<DccpOption>, payload: seq<Byte>): (b: seq<Byte>)
    requires Encodable(hdr, options, payload)
    ensures |b| == TotalSize(options, payload)
  {
    var b := Unsummed(hdr, options, payload);
    PutWord(b, 6, Checksum(b))
  }

  // ---------- the encoder ----------

  method PutAt(buf: array<Byte>, at: nat, bytes: seq<Byte>)
    requires at + |bytes| <= buf.Length
    modifies buf
    ensures buf[..] == Put(old(buf[..]), at, bytes)
  {
    forall i | 0 <= i < |bytes| {
      buf[at + i] := bytes[i];
    }
  }

  method SumOptions(options: seq<DccpOption>) returns (size: nat)
    ensures size == OptionSize(options)
  {
    size := 0;
    for i := 0 to |options|
      invariant size == OptionSize(options[..i])
    {
      assert options[..i + 1][..i] == options[..i];
      size := size + options[i].len;
    }
    assert options[..|options|] == options;
  }

  lemma {:induction false} OptionSizePrefix(options: seq<DccpOption>, i: nat)
    requires i < |options|
    ensures OptionSize(options[..i]) + options[i].len <= OptionSize(options)
    ensures OptionSize(options[..i + 1]) == OptionSize(options[..i]) + options[i].len
  {
    assert options[..i + 1][..i] == options[..i];
    var init := options[..|options| - 1];
    if i < |options| - 1 {
      OptionSizePrefix(init, i);
      assert init[..i] == options[..i];
    } else {
      assert init == options[..i];
    }
  }

  method WriteOptions(buf: array<Byte>, options: seq<DccpOption>) returns (ok: bool, offset: nat)
    requires HEADER_SIZE + OptionSize(options) <= buf.Length
    modifies buf
    ensures ok <==> Sized(options)
    ensures ok ==> offset == HEADER_SIZE + OptionSize(options)
    ensures ok ==> buf[..] == PutOptions(old(buf[..]), options)
  {
    hide OptionSize, Put;
    offset := HEADER_SIZE;
    assert offset == HEADER_SIZE + OptionSize(options[..0]) by { NoOptions(); }
    for i := 0 to |options|
      invariant Sized(options[..i])
      invariant offset == HEADER_SIZE + OptionSize(options[..i]) <= buf.Length
      invariant buf[..] == PutOptions(old(buf[..]), options[..i])
    {
      OptionSizePrefix(options, i);
      var opt := options[i];
      if opt.len < 2 {
        return false, offset;
      }
      assert options[..i + 1][..i] == options[..i];
      PutAt(buf, offset, OptionBytes(opt));
      offset := offset + opt.len;
    }
    assert options[..|options|] == options;
    ok := true;
  }

  lemma NoOptions()
    ensures OptionSize([]) == 0
  {
  }

  method EncodePacket(hdr: Header, options: seq<DccpOption>, payload: seq<Byte>) returns (r: Outcome<array<Byte>>)
    ensures r == Panic <==> !Encodable(hdr, options, payload)
    ensures !r.Err?
    ensures r.Ok? ==> fresh(r.value) && r.value[..] == Encode(hdr, options, payload)
  {
    hide OptionSize, PutOptions, Put, Be16, Be64, Checksum;
    var optionSize := SumOptions(options);
    var paddingSize := Padding(optionSize);
    var dataOffset := DataOffset(options);
    var totalSize := HEADER_SIZE + optionSize + paddingSize + |payload|;
    var buf := new Byte[totalSize](_ => 0);
    assert buf[..] == Zeros(totalSize);
    PutAt(buf, 0, FixedHeader(hdr, dataOffset));
    if hdr.extended == 1 {
      if totalSize < 16 {
        return Panic;
      }
      PutAt(buf, 8, Be64(hdr.seqNumber));
    }
    assert buf[..] == Prefix(hdr, options, payload);
    var ok, offset := WriteOptions(buf, options);
    if !ok {
      return Panic;
    }
    PutAt(buf, offset, Zeros(paddingSize));
    PutAt(buf, offset + paddingSize, payload);
    assert buf[..] == Unsummed(hdr, options, payload);
    var checksum := ComputeChecksum(buf);
    PutAt(buf, 6, Be16(checksum));
    PutIsPutWord(Unsummed(hdr, options, payload), 6, checksum);
    r := Ok(buf);
  }

  lemma PutIsPutWord(b: seq<Byte>, i: nat, w: U16)
    requires i + 2 <= |b|
    ensures Put(b, i, Be16(w)) == PutWord(b, i, w)
  {
  }

  // ---------- the parser ----------

  datatype Parsed = Parsed(options: seq<DccpOption>, used: nat, valid: bool)

  /** Padding is skipped; an option that does not fit ends the list, a length below 2 is an error. */
  function ParseOptions(d: seq<Byte>): (p: Parsed)
    ensures p.used <= |d|
  {
    if d == [] then Parsed([], 0, true)
    else if d[0] == PADDING then
      var rest := ParseOptions(d[1..]);
      rest.(used := rest.used + 1)
    else if |d| == 1 then Parsed([], 0, true)
    else if d[1] < 2 then Parsed([], 0, false)
    else if d[1] > |d| then Parsed([], 0, true)
    else
      var rest := ParseOptions(d[d[1]..]);
      Parsed([DccpOption(d[0], d[1], d[2..d[1]])] + rest.options, rest.used + d[1], rest.valid)
  }

  /** One round of the parser at an offset. */
  lemma ParseStep(data: seq<Byte>, offset: nat)
    requires offset <= |data|
    ensures var p := ParseOptions(data[offset..]);
      if offset == |data| then p == Parsed([], 0, true)
      else if data[offset] == PADDING then
        var rest := ParseOptions(data[offset + 1..]); p == rest.(used := rest.used + 1)
      else if offset + 1 == |data| then p == Parsed([], 0, true)
      else
        var len := data[offset + 1];
        if len < 2 then p == Parsed([], 0, false)
        else if offset + len > |data| then p == Parsed([], 0, true)
        else
          var rest := ParseOptions(data[offset + len..]);
          p == Parsed([DccpOption(data[offset], len, data[offset + 2..offset + len])] + rest.options, rest.used + len, rest.valid)
  {
    var d := data[offset..];
    if d != [] {
      assert d[1..] == data[offset + 1..];
      if |d| > 1 && 2 <= d[1] <= |d| {
        assert d[d[1]..] == data[offset + d[1]..] && d[2..d[1]] == data[offset + 2..offset + d[1]];
      }
    }
  }

  /** The loop always moves forward, so it ends on every input. */
  method ParseLoop(data: seq<Byte>) returns (p: Parsed)
    ensures p == ParseOptions(data)
  {
    hide ParseOptions;
    var options, offset := [], 0;
    ghost var rest := ParseOptions(data);
    assert data[0..] == data;
    assert [] + rest.options == rest.options;
    while offset < |data|
      invariant offset <= |data| && rest == ParseOptions(data[offset..])
      invariant ParseOptions(data) == Parsed(options + rest.options, offset + rest.used, rest.valid)
      decreases |data| - offset
    {
      ParseStep(data, offset);
      if data[offset] == PADDING {
        offset := offset + 1;
        rest := ParseOptions(data[offset..]);
        continue;
      }
      if offset + 1 >= |data| {
        assert options + [] == options;
        return Parsed(options, offset, true);
      }
      var optLen: nat := data[offset + 1];
      if optLen < 2 {
        assert options + [] == options;
        return Parsed(options, offset, false);
      }
      if offset + optLen > |data| {
        assert options + [] == options;
        return Parsed(options, offset, true);
      }
      var opt := DccpOption(data[offset], optLen, data[offset + 2..offset + optLen]);
      ghost var next := ParseOptions(data[offset + optLen..]);
      assert options + ([opt] + next.options) == options + [opt] + next.options;
      options := options + [opt];
      offset := offset + optLen;
      rest := next;
    }
    ParseStep(data, offset);
    assert options + [] == options;
    p := Parsed(options, offset, true);
  }

  function HeaderEnd(b: seq<Byte>): nat
    requires HEADER_SIZE <= |b|
  {
    var end := b[4] / 16 * 4;
    if end > |b| then |b| else end
  }

  function DecodeHeader(b: seq<Byte>): Header
    requires HEADER_SIZE <= |b| && (b[5] / 128 == 1 ==> 16 <= |b|)
  {
    Header(GetBe16(b, 0), GetBe16(b, 2), b[4] / 16, b[4] % 16, GetBe16(b, 6), b[5] % 16, b[5] / 128,
           if b[5] / 128 == 1 then GetBe64(b, 8) else 0)
  }

  function Decode(b: seq<Byte>): Outcome<Decoded>
  {
    if |b| < HEADER_SIZE || (b[5] / 128 == 1 && |b| < 16) then Err(PacketTooSmall)
    else if HeaderEnd(b) < HEADER_SIZE then Panic
    else
      var p := ParseOptions(b[HEADER_SIZE..HeaderEnd(b)]);
      if !p.valid then Err(InvalidOption)
      else Ok(Packet(DecodeHeader(b), p.options, b[HEADER_SIZE + p.used..]))
  }

  /** The checksum is recomputed over the packet itself, with its field cleared and then put
      back, and its value is not used. */
  method DecodePacket(data: array<Byte>) returns (r: Outcome<Decoded>)
    modifies data
    ensures data[..] == old(data[..])
    ensures r == Decode(old(data[..]))
  {
    hide ParseOptions, Checksum, Be16, GetBe16, GetBe64;
    ghost var b := data[..];
    if data.Length < HEADER_SIZE || (data[5] / 128 == 1 && data.Length < 16) {
      return Err(PacketTooSmall);
    }
    var hdr := DecodeHeader(data[..]);
    PutAt(data, 6, [0, 0]);
    var computed := ComputeChecksum(data);
    PutAt(data, 6, Be16(hdr.checksum));
    assert data[..] == b by {
      Be16Inverse(b, 6);
    }
    var headerEnd := HeaderEnd(data[..]);
    if headerEnd < HEADER_SIZE {
      return Panic;
    }
    var p := ParseLoop(data[HEADER_SIZE..headerEnd]);
    assert data[HEADER_SIZE..headerEnd] == b[HEADER_SIZE..headerEnd];
    if !p.valid {
      return Err(InvalidOption);
    }
    r := Ok(Packet(hdr, p.options, data[HEADER_SIZE + p.used..]));
  }

  // ---------- round trip ----------

  ghost predicate Proper(options: seq<DccpOption>)
  {
    forall i | 0 <= i < |options| :: options[i].kind != PADDING && options[i].len == 2 + |options[i].data|
  }

  function Print(options: seq<DccpOption>): seq<Byte>
  {
    if options == [] then []
    else [options[0].kind, options[0].len] + options[0].data + Print(options[1..])
  }

  lemma Associative(a: seq<Byte>, b: seq<Byte>, c: seq<Byte>)
    ensures (a + b) + c == a + (b + c)
  {
  }

  lemma {:induction false} PrintConcat(a: seq<DccpOption>, b: seq<DccpOption>)
    ensures Print(a + b) == Print(a) + Print(b)
  {
    if a == [] {
      assert a + b == b;
    } else {
      PrintConcat(a[1..], b);
      assert (a + b)[0] == a[0] && (a + b)[1..] == a[1..] + b;
      Associative([a[0].kind, a[0].len] + a[0].data, Print(a[1..]), Print(b));
    }
  }

  lemma PrintSnoc(options: seq<DccpOption>)
    requires options != []
    ensures var init, last := options[..|options| - 1], options[|options| - 1];
      Print(options) == Print(init) + ([last.kind, last.len] + last.data)
  {
    var init, last := options[..|options| - 1], options[|options| - 1];
    PrintConcat(init, [last]);
    assert options == init + [last] && [last][1..] == [];
    assert Print([last]) == [last.kind, last.len] + last.data;
  }

  lemma {:induction false} PrintSize(options: seq<DccpOption>)
    requires Proper(options)
    ensures |Print(options)| == OptionSize(options)
  {
    if options != [] {
      PrintSnoc(options);
      PrintSize(options[..|options| - 1]);
    }
  }

  /** Bytes put right behind those printed so far. */
  lemma PutBehind(buf: seq<Byte>, printed: seq<Byte>, bytes: seq<Byte>)
    requires HEADER_SIZE + |printed| + |bytes| <= |buf|
    ensures var at := HEADER_SIZE + |printed|;
      Put(buf[..HEADER_SIZE] + printed + buf[at..], at, bytes) ==
      buf[..HEADER_SIZE] + (printed + bytes) + buf[at + |bytes|..]
  {
    var at := HEADER_SIZE + |printed|;
    var b := buf[..HEADER_SIZE] + printed + buf[at..];
    assert b[..at] == buf[..HEADER_SIZE] + printed;
    assert b[at + |bytes|..] == buf[at + |bytes|..];
  }

  lemma ProperBytes(o: DccpOption)
    requires o.len == 2 + |o.data|
    ensures OptionBytes(o) == [o.kind, o.len] + o.data
  {
  }

  lemma {:induction false} PutOptionsPrints(buf: seq<Byte>, options: seq<DccpOption>)
    requires Sized(options) && Proper(options) && HEADER_SIZE + OptionSize(options) <= |buf|
    ensures var end := HEADER_SIZE + OptionSize(options);
      PutOptions(buf, options) == buf[..HEADER_SIZE] + Print(options) + buf[end..]
  {
    hide Put, OptionBytes, Print, OptionSize;
    PrintSize(options);
    if options == [] {
      NoOptions();
      assert buf == buf[..HEADER_SIZE] + [] + buf[HEADER_SIZE..] && Print(options) == [];
    } else {
      var init, last := options[..|options| - 1], options[|options| - 1];
      OptionSizePrefix(options, |options| - 1);
      assert options[..|options|] == options;
      PutOptionsPrints(buf, init);
      PrintSnoc(options);
      PrintSize(init);
      ProperBytes(last);
      PutBehind(buf, Print(init), OptionBytes(last));
    }
  }

  lemma {:induction false} ParsePadding(zeros: nat)
    ensures ParseOptions(Zeros(zeros)) == Parsed([], zeros, true)
  {
    if zeros > 0 {
      ParsePadding(zeros - 1);
      assert Zeros(zeros)[1..] == Zeros(zeros - 1);
    }
  }

  lemma ParseOption(o: DccpOption, rest: seq<Byte>)
    requires Proper([o])
    ensures ParseOptions([o.kind, o.len] + o.data + rest) ==
      var p := ParseOptions(rest); Parsed([o] + p.options, p.used + o.len, p.valid)
  {
    assert [o][0] == o;
    var d := [o.kind, o.len] + o.data + rest;
    assert d[o.len..] == rest && d[2..o.len] == o.data;
  }

  /** The parser reads printed options, then goes on with what follows them. */
  lemma {:induction false} ParseThrough(options: seq<DccpOption>, tail: seq<Byte>)
    requires Proper(options)
    ensures ParseOptions(Print(options) + tail) ==
      var p := ParseOptions(tail); Parsed(options + p.options, |Print(options)| + p.used, p.valid)
  {
    hide ParseOptions;
    var p := ParseOptions(tail);
    if options == [] {
      assert Print(options) + tail == tail && options + p.options == p.options;
    } else {
      var o, rest := options[0], Print(options[1..]);
      ParseThrough(options[1..], tail);
      assert Print(options) == [o.kind, o.len] + o.data + rest;
      hide Print;
      Associative([o.kind, o.len] + o.data, rest, tail);
      ParseOption(o, rest + tail);
      assert [o] + (options[1..] + p.options) == options + p.options;
    }
  }

  lemma ParsePrinted(options: seq<DccpOption>, zeros: nat)
    requires Proper(options)
    ensures ParseOptions(Print(options) + Zeros(zeros)) == Parsed(options, |Print(options)| + zeros, true)
  {
    ParsePadding(zeros);
    ParseThrough(options, Zeros(zeros));
    assert options + [] == options;
  }

  /** After any options, a length below two is an error; a length that runs past the end, or a type
      without a length, ends the list there. */
  lemma BadOption(options: seq<DccpOption>, kind: Byte, len: Byte, rest: seq<Byte>)
    requires Proper(options) && kind != PADDING
    ensures len < 2 ==> !ParseOptions(Print(options) + ([kind, len] + rest)).valid
    ensures 2 + |rest| < len ==>
      ParseOptions(Print(options) + ([kind, len] + rest)) == Parsed(options, |Print(options)|, true)
    ensures ParseOptions(Print(options) + [kind]) == Parsed(options, |Print(options)|, true)
  {
    ParseThrough(options, [kind, len] + rest);
    ParseThrough(options, [kind]);
    assert options + [] == options;
  }

  lemma {:induction false} ParsedFits(d: seq<Byte>)
    ensures |Print(ParseOptions(d).options)| <= |d|
    decreases |d|
  {
    if d != [] {
      if d[0] == PADDING {
        ParsedFits(d[1..]);
      } else if |d| > 1 && 2 <= d[1] <= |d| {
        ParsedFits(d[d[1]..]);
        var p := ParseOptions(d);
        assert p.options[1..] == ParseOptions(d[d[1]..]).options;
      }
    }
  }

  lemma PrefixBytes(hdr: Header, options: seq<DccpOption>, payload: seq<Byte>)
    requires hdr.extended == 1 ==> 16 <= TotalSize(options, payload)
    ensures var b := Prefix(hdr, options, payload);
      && b[..8] == FixedHeader(hdr, DataOffset(options))
      && b[8..12] == (if hdr.extended == 1 then Be64(hdr.seqNumber)[..4] else [0, 0, 0, 0])
  {
    hide FixedHeader, Be64, OptionSize, Padding, DataOffset;
    var b := Prefix(hdr, options, payload);
    if hdr.extended == 1 {
      assert b[8..16] == Be64(hdr.seqNumber);
      assert b[8..12] == b[8..16][..4];
    }
  }

  /** Byte by byte, the packet whose options are proper. */
  lemma Layout(hdr: Header, options: seq<DccpOption>, payload: seq<Byte>)
    requires Encodable(hdr, options, payload) && Proper(options)
    ensures var b := Unsummed(hdr, options, payload);
      && b[..8] == FixedHeader(hdr, DataOffset(options))
      && b[8..12] == (if hdr.extended == 1 then Be64(hdr.seqNumber)[..4] else [0, 0, 0, 0])
      && b[12..] == Print(options) + Zeros(Padding(OptionSize(options))) + payload
  {
    hide Print, OptionSize, FixedHeader, Be64, PutOptions, Padding, DataOffset;
    PrintSize(options);
    var prefix := Prefix(hdr, options, payload);
    PutOptionsPrints(prefix, options);
    PrefixBytes(hdr, options, payload);
    var end, pad := HEADER_SIZE + OptionSize(options), Zeros(Padding(OptionSize(options)));
    var b1 := PutOptions(prefix, options);
    var b2 := Put(b1, end, pad);
    assert b1[..12] == prefix[..12];
    assert b1[12..end] == Print(options);
    assert b2[..end] == b1[..end] && b2[end..end + |pad|] == pad;
    var b3 := Put(b2, end + |pad|, payload);
    assert b3[..end + |pad|] == b2[..end + |pad|] && b3[end + |pad|..] == payload;
    assert b3[..12] == prefix[..12];
    assert b3[12..] == b3[12..end] + b3[end..end + |pad|] + payload;
  }

  /** The header that comes back. Of a sequence number the upper 32 bits survive; the lower
      half of its field is overwritten by the options or the payload. */
  function Received(hdr: Header, options: seq<DccpOption>, payload: seq<Byte>): Header
    requires Encodable(hdr, options, payload) && (hdr.extended % 2 == 1 ==> 16 <= TotalSize(options, payload))
  {
    var b := Encode(hdr, options, payload);
    Header(hdr.sourcePort, hdr.destPort, DataOffset(options), hdr.ccVal % 16,
           Checksum(Unsummed(hdr, options, payload)), hdr.kind % 16, hdr.extended % 2,
           if hdr.extended % 2 == 0 then 0
           else JoinHalves(if hdr.extended == 1 then hdr.seqNumber / 0x1_0000_0000 else 0, GetBe32(b, 12)))
  }

  function JoinHalves(upper: U32, lower: U32): U64
  {
    var u: int, l: int := upper, lower;
    u * 0x1_0000_0000 + l
  }

  lemma FixedFields(hdr: Header, dataOffset: Byte, b: seq<Byte>)
    requires dataOffset <= 15 && 8 <= |b|
    requires b[..6] == FixedHeader(hdr, dataOffset)[..6]
    ensures GetBe16(b, 0) == hdr.sourcePort && GetBe16(b, 2) == hdr.destPort
    ensures b[4] / 16 == dataOffset && b[4] % 16 == hdr.ccVal % 16
    ensures b[5] % 16 == hdr.kind % 16 && b[5] / 128 == hdr.extended % 2
  {
    var f := FixedHeader(hdr, dataOffset);
    assert forall i | 0 <= i < 6 :: b[i] == f[i];
    assert b[0..2] == Be16(hdr.sourcePort) && b[2..4] == Be16(hdr.destPort);
    Be16RoundTrip(b, 0, hdr.sourcePort);
    Be16RoundTrip(b, 2, hdr.destPort);
  }

  /** The eight fixed bytes, one by one: the ports, four bits each of offset and CCVal, the
      extended flag above three clear bits and the type, and the checksum field. */
  lemma HeaderBytes(hdr: Header, dataOffset: Byte)
    requires dataOffset <= 15
    ensures var b := FixedHeader(hdr, dataOffset);
      && Number(b[0..2]) == hdr.sourcePort && Number(b[2..4]) == hdr.destPort
      && b[4] / 0x10 == dataOffset && b[4] % 0x10 == hdr.ccVal % 0x10
      && (b[5] >= 0x80 <==> hdr.extended % 2 == 1) && b[5] % 0x80 == hdr.kind % 0x10
      && Number(b[6..8]) == hdr.checksum
  {
    hide Be16, Number;
    var b := FixedHeader(hdr, dataOffset);
    assert b[0..2] == Be16(hdr.sourcePort) && b[2..4] == Be16(hdr.destPort) && b[6..8] == Be16(hdr.checksum);
    Be16Spells(hdr.sourcePort);
    Be16Spells(hdr.destPort);
    Be16Spells(hdr.checksum);
  }

  lemma UpperHalf(b: seq<Byte>, seqNumber: U64)
    requires 16 <= |b| && b[8..12] == Be64(seqNumber)[..4]
    ensures GetBe64(b, 8) == JoinHalves(seqNumber / 0x1_0000_0000, GetBe32(b, 12))
  {
    hide GetBe32;
    Be32RoundTrip(b, 8, seqNumber / 0x1_0000_0000);
  }

  lemma ChecksumField(b: seq<Byte>, c: U16)
    requires 12 <= |b|
    ensures var e := PutWord(b, 6, c);
      e[..6] == b[..6] && e[8..] == b[8..] && GetBe16(e, 6) == c
  {
    var e := PutWord(b, 6, c);
    assert e[6..8] == Be16(c);
    Be16RoundTrip(e, 6, c);
  }

  lemma HeaderSurvives(hdr: Header, options: seq<DccpOption>, payload: seq<Byte>)
    requires Encodable(hdr, options, payload) && Proper(options)
    requires hdr.extended % 2 == 1 ==> 16 <= TotalSize(options, payload)
    ensures var e := Encode(hdr, options, payload);
      && e[4] / 16 == DataOffset(options) && e[5] / 128 == hdr.extended % 2
      && DecodeHeader(e) == Received(hdr, options, payload)
      && e[12..] == Print(options) + Zeros(Padding(OptionSize(options))) + payload
  {
    hide Print, OptionSize, Unsummed, Be64, GetBe16, GetBe32, GetBe64, Padding, Checksum, PutWord, DataOffset, FixedHeader;
    var b := Unsummed(hdr, options, payload);
    var e := PutWord(b, 6, Checksum(b));
    Layout(hdr, options, payload);
    ChecksumField(b, Checksum(b));
    FixedFields(hdr, DataOffset(options), e);
    assert e[8..12] == b[8..12] && e[12..] == b[12..];
    if hdr.extended % 2 == 1 {
      if hdr.extended == 1 {
        UpperHalf(e, hdr.seqNumber);
      } else {
        UpperZero(e);
      }
    }
  }

  lemma UpperZero(b: seq<Byte>)
    requires 16 <= |b| && b[8..12] == [0, 0, 0, 0]
    ensures GetBe64(b, 8) == JoinHalves(0, GetBe32(b, 12))
  {
    assert b[8] == b[8..12][0] && b[9] == b[8..12][1] && b[10] == b[8..12][2] && b[11] == b[8..12][3];
  }

  lemma SmallOptions(options: seq<DccpOption>)
    ensures Padded(options) % 4 == 0 && OptionSize(options) <= Padded(options) < OptionSize(options) + 4
    ensures Padded(options) <= 48 ==> DataOffset(options) * 4 == HEADER_SIZE + Padded(options)
  {
    PaddingRounds(OptionSize(options));
    hide OptionSize, Padding;
  }

  lemma PaddingRounds(size: nat)
    ensures (size + Padding(size)) % 4 == 0 && Padding(size) < 4
  {
  }

  /** Whatever the parser returns, each option's length counts its data and none is padding. */
  lemma {:induction false} ParsedProper(d: seq<Byte>)
    ensures Proper(ParseOptions(d).options)
    decreases |d|
  {
    if d != [] {
      if d[0] == PADDING {
        ParsedProper(d[1..]);
      } else if |d| > 1 && 2 <= d[1] <= |d| {
        ParsedProper(d[d[1]..]);
      }
    }
  }

  lemma DecodedProper(b: seq<Byte>)
    ensures Decode(b).Ok? ==> Proper(Decode(b).value.options)
  {
    hide ParseOptions, DecodeHeader, Proper;
    if HEADER_SIZE <= |b| && HEADER_SIZE <= HeaderEnd(b) {
      ParsedProper(b[HEADER_SIZE..HeaderEnd(b)]);
    }
  }

  /** Decoding gives back the options and the payload exactly when the options are proper and
      take at most 48 bytes with their padding, and then the header too. */
  lemma RoundTrip(hdr: Header, options: seq<DccpOption>, payload: seq<Byte>)
    requires Encodable(hdr, options, payload)
    requires hdr.extended % 2 == 1 ==> 16 <= TotalSize(options, payload)
    ensures var r := Decode(Encode(hdr, options, payload)); var ok := Proper(options) && Padded(options) <= 48;
      && (r.Ok? && r.value.options == options && r.value.payload == payload <==> ok)
      && (ok ==> r == Ok(Packet(Received(hdr, options, payload), options, payload)))
  {
    hide Decode, Encode, Proper, Received, Padding, OptionSize;
    if Proper(options) {
      ProperRoundTrip(hdr, options, payload);
    } else {
      DecodedProper(Encode(hdr, options, payload));
    }
  }

  lemma ProperRoundTrip(hdr: Header, options: seq<DccpOption>, payload: seq<Byte>)
    requires Encodable(hdr, options, payload) && Proper(options)
    requires hdr.extended % 2 == 1 ==> 16 <= TotalSize(options, payload)
    ensures var r := Decode(Encode(hdr, options, payload));
      && (r.Ok? && r.value.options == options && r.value.payload == payload <==> Padded(options) <= 48)
      && (Padded(options) <= 48 ==> r == Ok(Packet(Received(hdr, options, payload), options, payload)))
  {
    hide Print, OptionSize, Encode, DecodeHeader, Received, ParseOptions, Padding, DataOffset;
    var e := Encode(hdr, options, payload);
    HeaderSurvives(hdr, options, payload);
    SmallOptions(options);
    PrintSize(options);
    var printed := Print(options) + Zeros(Padding(OptionSize(options)));
    if Padded(options) <= 48 {
      assert e[12..HeaderEnd(e)] == e[12..][..|printed|] == printed;
      ParsePrinted(options, Padding(OptionSize(options)));
      assert e[12 + |printed|..] == e[12..][|printed|..] == payload;
    } else if HEADER_SIZE <= HeaderEnd(e) {
      ParsedFits(e[12..HeaderEnd(e)]);
    }
  }

  /** Whatever the lengths of the options, the header stays and the first length byte stands. */
  lemma {:induction false} PutOptionsKeeps(buf: seq<Byte>, options: seq<DccpOption>)
    requires Sized(options) && HEADER_SIZE + OptionSize(options) <= |buf|
    ensures var b := PutOptions(buf, options);
      b[..HEADER_SIZE] == buf[..HEADER_SIZE] && (options != [] ==> |b| >= 14 && b[13] == options[0].len)
  {
    if options != [] {
      hide OptionSize;
      var init, last := options[..|options| - 1], options[|options| - 1];
      OptionSizePrefix(options, |options| - 1);
      assert options[..|options|] == options;
      PutOptionsKeeps(buf, init);
      var b, at := PutOptions(buf, init), HEADER_SIZE + OptionSize(init);
      assert Put(b, at, OptionBytes(last))[..at] == b[..at];
      if init == [] {
        NoOptions();
      } else {
        OptionSizePrefix(init, 0);
        assert b[13] == init[0].len && 14 <= at by { FirstSize(init); }
      }
    }
  }

  lemma FirstSize(options: seq<DccpOption>)
    requires Sized(options) && options != []
    ensures 2 <= OptionSize(options)
  {
    OptionSizePrefix(options, 0);
  }

  /** The packet that comes out checks to 0 exactly when the caller's checksum field was one
      of the two zeros of one's complement. */
  lemma EncodedPacketChecks(hdr: Header, options: seq<DccpOption>, payload: seq<Byte>)
    requires Encodable(hdr, options, payload) && TotalSize(options, payload) <= LIMIT
    ensures Checksum(Encode(hdr, options, payload)) == 0 <==> hdr.checksum == 0 || hdr.checksum == 0xFFFF
  {
    hide OptionSize, Padding, Unsummed, Checksum, PutWord, WordSum, OtherWords, FixedHeader, DataOffset;
    var b := Unsummed(hdr, options, payload);
    UnsummedBytes(hdr, options, payload);
    StoredChecksum(b, 6);
    ChecksumIn(hdr, DataOffset(options), b);
    if options == [] {
      NoOptions();
      assert DataOffset([]) == 3 by { EmptyOffset(); }
      NonZeroOffset(b);
    } else {
      NonZeroLength(b);
    }
  }

  lemma EmptyOffset()
    ensures DataOffset([]) == 3
  {
  }

  lemma PutKeeps(b: seq<Byte>, at: nat, bytes: seq<Byte>)
    requires at + |bytes| <= |b|
    ensures Put(b, at, bytes)[..at] == b[..at]
  {
  }

  lemma UnsummedBytes(hdr: Header, options: seq<DccpOption>, payload: seq<Byte>)
    requires Encodable(hdr, options, payload)
    ensures var b := Unsummed(hdr, options, payload);
      b[..8] == FixedHeader(hdr, DataOffset(options)) && (options != [] ==> |b| >= 14 && b[13] == options[0].len)
  {
    hide OptionSize, Padding, FixedHeader, DataOffset, PutOptions, Prefix, Put;
    var prefix := Prefix(hdr, options, payload);
    PrefixBytes(hdr, options, payload);
    PutOptionsKeeps(prefix, options);
    if options != [] {
      FirstSize(options);
    }
    var b1, end := PutOptions(prefix, options), HEADER_SIZE + OptionSize(options);
    var zeros := Zeros(Padding(OptionSize(options)));
    var b2 := Put(b1, end, zeros);
    PutKeeps(b1, end, zeros);
    PutKeeps(b2, end + |zeros|, payload);
    var b := Unsummed(hdr, options, payload);
    assert b[..end] == b[..end + |zeros|][..end] == b2[..end + |zeros|][..end] == b2[..end] == b1[..end];
    assert b[..8] == b[..end][..8] && b1[..8] == b1[..HEADER_SIZE][..8];
  }

  lemma ChecksumIn(hdr: Header, dataOffset: Byte, b: seq<Byte>)
    requires dataOffset <= 15 && 8 <= |b| && b[..8] == FixedHeader(hdr, dataOffset)
    ensures GetBe16(b, 6) == hdr.checksum && b[4] == dataOffset * 16 + hdr.ccVal % 16
  {
    assert b[6..8] == b[..8][6..8] == Be16(hdr.checksum);
    Be16RoundTrip(b, 6, hdr.checksum);
    assert b[4] == b[..8][4];
  }

  lemma NonZeroOffset(b: seq<Byte>)
    requires 8 <= |b| && b[4] > 0
    ensures OtherWords(b, 6) > 0
  {
    AddWord(b[..4], b[4..6]);
    assert b[..4] + b[4..6] == b[..6];
  }

  lemma NonZeroLength(b: seq<Byte>)
    requires 14 <= |b| && b[13] > 0
    ensures OtherWords(b, 6) > 0
  {
    AddWord(b[8..12], b[12..14]);
    assert b[8..12] + b[12..14] == b[8..14];
    WordSumConcat(b[8..14], b[14..]);
    assert b[8..14] + b[14..] == b[8..];
  }
}
