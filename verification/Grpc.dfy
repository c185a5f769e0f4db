/** The byte framing of app/transport/grpc.go: writes are cut into length-prefixed chunks, reads
    take from the current chunk first. */
module Grpc {
  import opened Bytes
  import opened Conn

  const FRAME_SIZE: nat := 5
  const MAX_DATA: nat := 64 * 1024

  // ---------- the framing on values ----------

  function Frame(chunk: seq<Byte>): (b: seq<Byte>)
    ensures |b| == FRAME_SIZE + |chunk|
  {
    Be32(|chunk|) + [0] + chunk
  }

  /** The bytes of a frame, one by one. */
  lemma FrameBytes(chunk: seq<Byte>)
    requires |chunk| <= MAX_DATA
    ensures var b := Frame(chunk); Number(b[0..4]) == |chunk| && b[4] == 0 && b[5..] == chunk
  {
    hide Be32, Number;
    assert Frame(chunk)[0..4] == Be32(|chunk|);
    Be32Spells(|chunk|);
  }

  /** What one Write puts on the wire. */
  function Frames(p: seq<Byte>): seq<Byte>
  {
    if p == [] then [] else Frame(Take(p, MAX_DATA)) + Frames(p[|Take(p, MAX_DATA)|..])
  }

  /** The payload of the first frame and the bytes after it, if it is complete. */
  function Unframe(wire: seq<Byte>): (r: Option<(seq<Byte>, seq<Byte>)>)
    ensures r.Some? ==> FRAME_SIZE + |r.value.0| + |r.value.1| == |wire|
  {
    if |wire| < FRAME_SIZE then None
    else
      var n: nat := GetBe32(wire, 0);
      if |wire| < FRAME_SIZE + n then None else Some((wire[FRAME_SIZE..FRAME_SIZE + n], wire[FRAME_SIZE + n..]))
  }

  /** All payload bytes of the complete frames at the front. */
  function Payload(wire: seq<Byte>): seq<Byte>
    decreases |wire|
  {
    match Unframe(wire)
    case None => []
    case Some((chunk, rest)) => chunk + Payload(rest)
  }

  lemma UnframeFrame(chunk: seq<Byte>, rest: seq<Byte>)
    requires |chunk| <= MAX_DATA
    ensures Unframe(Frame(chunk) + rest) == Some((chunk, rest))
  {
    hide Be32, GetBe32;
    var wire := Frame(chunk) + rest;
    assert wire[0..4] == Be32(|chunk|);
    Be32RoundTrip(wire, 0, |chunk|);
    assert wire[FRAME_SIZE..FRAME_SIZE + |chunk|] == chunk;
    assert wire[FRAME_SIZE + |chunk|..] == rest;
  }

  /** A wire that is made of whole writes. */
  ghost predicate Whole(wire: seq<Byte>)
    decreases |wire|
  {
    wire == [] || (Unframe(wire).Some? && Unframe(wire).value.0 != [] && Whole(Unframe(wire).value.1))
  }

  lemma {:induction false} FramesAppend(p: seq<Byte>)
    ensures Payload(Frames(p)) == p && Whole(Frames(p))
  {
    hide Frame, Unframe;
    if p == [] {
      NoPayload();
    } else {
      var chunk := Take(p, MAX_DATA);
      var rest := p[|chunk|..];
      FramesAppend(rest);
      UnframeFrame(chunk, Frames(rest));
      assert p == chunk + rest;
    }
  }

  /** A Write is cut into chunks of 64 KiB, the last one shorter, each with five bytes in front. */
  lemma {:induction false} FramesSize(p: seq<Byte>)
    ensures |Frames(p)| == |p| + 5 * ((|p| + 65535) / 65536)
    ensures 0 < |p| <= 65536 ==> Frames(p) == Frame(p)
  {
    hide Frame;
    if p != [] {
      var rest := p[|Take(p, MAX_DATA)|..];
      FramesSize(rest);
      if |p| <= MAX_DATA {
        assert rest == [] && Frame(p) + [] == Frame(p);
      } else {
        assert |p| + 65535 == |rest| + 65535 + 65536;
      }
    }
  }

  lemma NoPayload()
    ensures Unframe([]) == None && Payload([]) == []
  {
  }

  lemma {:induction false} WholeAppend(a: seq<Byte>, b: seq<Byte>)
    requires Whole(a)
    ensures Payload(a + b) == Payload(a) + Payload(b)
    ensures Whole(b) ==> Whole(a + b)
    decreases |a|
  {
    hide Unframe;
    if a == [] {
      NoPayload();
      assert a + b == b;
    } else {
      var (chunk, rest) := Unframe(a).value;
      UnframePrefix(a, b);
      WholeAppend(rest, b);
      assert chunk + (Payload(rest) + Payload(b)) == (chunk + Payload(rest)) + Payload(b);
    }
  }

  lemma UnframePrefix(a: seq<Byte>, b: seq<Byte>)
    requires Unframe(a).Some?
    ensures Unframe(a + b) == Some((Unframe(a).value.0, Unframe(a).value.1 + b))
  {
    hide GetBe16;
    var n := GetBe32(a, 0);
    assert GetBe32(a + b, 0) == n by { SameHeader(a, b); }
    assert (a + b)[FRAME_SIZE..FRAME_SIZE + n] == a[FRAME_SIZE..FRAME_SIZE + n];
    assert (a + b)[FRAME_SIZE + n..] == a[FRAME_SIZE + n..] + b;
  }

  lemma SameHeader(a: seq<Byte>, b: seq<Byte>)
    requires FRAME_SIZE <= |a|
    ensures GetBe32(a + b, 0) == GetBe32(a, 0)
  {
  }

  // ---------- runs ----------

  /** left is the unread part of the current frame. */
  datatype World = World(wire: seq<Byte>, left: seq<Byte>)

  datatype Event = Write(p: seq<Byte>) | Read(size: nat)

  /** One Read: the left-over bytes first, else the next frame; None when it has to wait. */
  function ReadOnce(w: World, size: nat): Option<(World, seq<Byte>)>
  {
    if w.left != [] then
      var d := Take(w.left, size);
      Some((World(w.wire, w.left[|d|..]), d))
    else
      match Unframe(w.wire)
      case None => None
      case Some((chunk, rest)) =>
        var d := Take(chunk, size);
        Some((World(rest, chunk[|d|..]), d))
  }

  function Step(w: World, e: Event): World
  {
    match e
    case Write(p) => w.(wire := w.wire + Frames(p))
    case Read(size) => match ReadOnce(w, size) case None => w case Some((next, d)) => next
  }

  function Run(w: World, es: seq<Event>): World
    decreases es
  {
    if es == [] then w else Run(Step(w, es[0]), es[1..])
  }

  function Written(es: seq<Event>): seq<Byte>
  {
    if es == [] then [] else (if es[0].Write? then es[0].p else []) + Written(es[1..])
  }

  function ReadBy(w: World, e: Event): seq<Byte>
  {
    if e.Read? && ReadOnce(w, e.size).Some? then ReadOnce(w, e.size).value.1 else []
  }

  function Got(w: World, es: seq<Event>): seq<Byte>
    decreases es
  {
    if es == [] then [] else ReadBy(w, es[0]) + Got(Step(w, es[0]), es[1..])
  }

  /** What has been written and not read. */
  function Pending(w: World): seq<Byte>
  {
    w.left + Payload(w.wire)
  }

  lemma ReadConserves(w: World, size: nat)
    requires Whole(w.wire) && ReadOnce(w, size).Some?
    ensures var (next, d) := ReadOnce(w, size).value;
      d + Pending(next) == Pending(w) && Whole(next.wire)
  {
    hide Unframe;
    var (next, d) := ReadOnce(w, size).value;
    if w.left != [] {
      assert d + next.left == w.left;
      assert d + (next.left + Payload(w.wire)) == (d + next.left) + Payload(w.wire);
    } else {
      var (chunk, rest) := Unframe(w.wire).value;
      assert w.left + Payload(w.wire) == Payload(w.wire) == chunk + Payload(rest);
      assert d + next.left == chunk;
      assert d + (next.left + Payload(rest)) == (d + next.left) + Payload(rest);
    }
  }

  lemma StepConserves(w: World, e: Event)
    requires Whole(w.wire)
    ensures Whole(Step(w, e).wire)
    ensures ReadBy(w, e) + Pending(Step(w, e)) == Pending(w) + if e.Write? then e.p else []
  {
    hide Unframe, Frames;
    match e
    case Write(p) =>
      FramesAppend(p);
      WholeAppend(w.wire, Frames(p));
      assert w.left + (Payload(w.wire) + p) == (w.left + Payload(w.wire)) + p;
    case Read(size) =>
      assert Pending(w) + [] == Pending(w);
      if ReadOnce(w, size).Some? {
        ReadConserves(w, size);
      }
  }

  /** For any writes and reads of any sizes, what was read and what is pending is what was written. */
  lemma {:induction false} Transparent(w: World, es: seq<Event>)
    requires Whole(w.wire)
    ensures Whole(Run(w, es).wire)
    ensures Got(w, es) + Pending(Run(w, es)) == Pending(w) + Written(es)
    decreases es
  {
    if es == [] {
      assert Pending(w) + [] == Pending(w);
    } else {
      hide Step, ReadBy, Pending, Whole;
      var e, w' := es[0], Step(w, es[0]);
      StepConserves(w, e);
      Transparent(w', es[1..]);
      Chain(ReadBy(w, e), Got(w', es[1..]), Pending(Run(w', es[1..])), Pending(w'),
            Written(es[1..]), Pending(w), if e.Write? then e.p else []);
    }
  }

  lemma Chain(read: seq<Byte>, got: seq<Byte>, end: seq<Byte>, mid: seq<Byte>, later: seq<Byte>, start: seq<Byte>, put: seq<Byte>)
    requires read + mid == start + put && got + end == mid + later
    ensures (read + got) + end == start + (put + later)
  {
    assert (read + got) + end == read + (mid + later) == (read + mid) + later;
  }

  /** Reads give a prefix of the writes, and all of them exactly when a read would wait. */
  lemma ByteTransparency(es: seq<Event>, size: nat)
    ensures var w := Run(World([], []), es);
      && Got(World([], []), es) <= Written(es)
      && (Got(World([], []), es) == Written(es) <==> ReadOnce(w, size).None?)
  {
    var start := World([], []);
    var w := Run(start, es);
    assert Payload([]) == [] by { assert Unframe([]) == None; }
    hide Run, Got, Written, GetBe32;
    Transparent(start, es);
    assert [] + Written(es) == Written(es);
    if w.wire != [] {
      var (chunk, rest) := Unframe(w.wire).value;
      assert |Payload(w.wire)| >= |chunk| > 0;
    } else {
      assert Unframe(w.wire) == None && Payload(w.wire) == [];
    }
  }

  /** No read that does not wait comes back empty-handed: it gives as many bytes as fit of what
      is left of the current frame, or else of the next one. */
  lemma ReadGives(w: World, size: nat)
    requires ReadOnce(w, size).Some?
    ensures var (next, d) := ReadOnce(w, size).value;
      var chunk := if w.left != [] then w.left else Unframe(w.wire).value.0;
      && d + next.left == chunk && |d| == (if size < |chunk| then size else |chunk|)
      && next.wire == (if w.left != [] then w.wire else Unframe(w.wire).value.1)
  {
    hide Unframe;
  }

  lemma ReadAdvances(es: seq<Event>, size: nat)
    requires size > 0
    ensures var w := Run(World([], []), es);
      ReadOnce(w, size).Some? ==> |ReadOnce(w, size).value.1| > 0
  {
    var w := Run(World([], []), es);
    hide Run, Unframe;
    Transparent(World([], []), es);
    if ReadOnce(w, size).Some? {
      ReadGives(w, size);
    }
  }

  // ---------- the connection ----------

  class GRPCConn {
    const conn: Conn
    var readBuf: array<Byte>
    var readPos: nat
    var readLen: nat
    const writeBuf: array<Byte>
    var closed: bool

    ghost predicate Valid()
      reads this
    {
      && writeBuf.Length == FRAME_SIZE + MAX_DATA
      && readPos + readLen <= readBuf.Length
      && (readLen == 0 ==> readPos == 0)
      && readBuf != writeBuf
    }

    ghost function View(): World
      requires Valid()
      reads this, conn, readBuf
    {
      World(conn.inbound, readBuf[readPos..readPos + readLen])
    }

    constructor (conn: Conn)
      ensures Valid() && this.conn == conn && !closed
      ensures View() == World(conn.inbound, [])
      ensures fresh(readBuf) && fresh(writeBuf)
    {
      this.conn := conn;
      readBuf, writeBuf := new Byte[MAX_DATA], new Byte[FRAME_SIZE + MAX_DATA];
      readPos, readLen, closed := 0, 0, false;
    }

    /** Lays out header and chunk in the write buffer. */
    method PutFrame(chunk: seq<Byte>)
      requires writeBuf.Length == FRAME_SIZE + MAX_DATA && |chunk| <= MAX_DATA
      modifies writeBuf
      ensures writeBuf[..FRAME_SIZE + |chunk|] == Frame(chunk)
    {
      var length := Be32(|chunk|);
      forall i | 0 <= i < 4 {
        writeBuf[i] := length[i];
      }
      writeBuf[4] := 0;
      forall i | 0 <= i < |chunk| {
        writeBuf[FRAME_SIZE + i] := chunk[i];
      }
      var n := FRAME_SIZE + |chunk|;
      assert writeBuf[..4] == length && writeBuf[FRAME_SIZE..n] == chunk;
      assert writeBuf[..n] == writeBuf[..4] + [writeBuf[4]] + writeBuf[FRAME_SIZE..n];
    }

    /** A chunk always fits the write buffer, so the source's oversized fallback is dead code. */
    method Write(p: seq<Byte>) returns (written: nat, ok: bool)
      requires Valid()
      modifies writeBuf, conn`outbound
      ensures Valid() && View() == old(View())
      ensures ok <==> !closed
      ensures conn.outbound == old(conn.outbound) + if closed then [] else Frames(p)
      ensures written == if closed then 0 else |p|
    {
      hide Frame;
      if closed {
        assert conn.outbound + [] == conn.outbound;
        return 0, false;
      }
      var offset := 0;
      written := 0;
      assert p[0..] == p;
      while offset < |p|
        invariant offset == written <= |p|
        invariant conn.outbound + Frames(p[offset..]) == old(conn.outbound) + Frames(p)
      {
        var chunkSize := |p| - offset;
        if chunkSize > MAX_DATA {
          chunkSize := MAX_DATA;
        }
        var totalSize := FRAME_SIZE + chunkSize;
        assert totalSize <= writeBuf.Length;
        PutFrame(p[offset..offset + chunkSize]);
        conn.Write(writeBuf, totalSize);
        assert Take(p[offset..], MAX_DATA) == p[offset..offset + chunkSize];
        assert p[offset..][chunkSize..] == p[offset + chunkSize..];
        offset := offset + chunkSize;
        written := written + chunkSize;
      }
      assert p[offset..] == [] && conn.outbound + [] == conn.outbound;
      ok := true;
    }

    /** Hands out up to |p| bytes from readBuf[pos..pos+len] and keeps the rest. */
    method Deliver(p: array<Byte>, pos: nat, len: nat) returns (n: nat)
      requires pos + len <= readBuf.Length && p != readBuf && readBuf != writeBuf
      requires writeBuf.Length == FRAME_SIZE + MAX_DATA
      modifies this`readPos, this`readLen, p
      ensures Valid() && n <= p.Length
      ensures p[..n] == Take(readBuf[pos..pos + len], p.Length)
      ensures View() == World(conn.inbound, readBuf[pos + n..pos + len])
    {
      n := if len <= p.Length then len else p.Length;
      forall i | 0 <= i < n {
        p[i] := readBuf[pos + i];
      }
      readPos := pos + n;
      readLen := len - n;
      if readLen == 0 {
        readPos := 0;
      }
    }

    /** Reads the next frame's payload into readBuf, which is replaced when too small. */
    method Fetch() returns (dataLen: nat, ok: bool)
      requires readBuf != writeBuf
      modifies this`readBuf, readBuf, conn`inbound
      ensures (readBuf == old(readBuf) || fresh(readBuf)) && dataLen <= readBuf.Length
      ensures readBuf.Length >= old(readBuf.Length)
      ensures Unframe(old(conn.inbound)) == if ok then Some((readBuf[..dataLen], conn.inbound)) else None
    {
      hide GetBe32;
      ghost var wire := conn.inbound;
      var frameHeader := new Byte[FRAME_SIZE];
      ok := conn.ReadFull(frameHeader, FRAME_SIZE);
      if !ok {
        return 0, false;
      }
      HeaderLength(wire, frameHeader[..]);
      dataLen := GetBe32(frameHeader[..], 0);
      if dataLen > readBuf.Length {
        readBuf := new Byte[dataLen + MAX_DATA];
      }
      ok := conn.ReadFull(readBuf, dataLen);
      if ok {
        assert readBuf[..dataLen] == wire[FRAME_SIZE..FRAME_SIZE + dataLen];
      }
    }

    /** On ok this is ReadOnce; otherwise the connection ended before a whole frame came. */
    method Read(p: array<Byte>) returns (n: nat, ok: bool)
      requires Valid() && p != readBuf && p != writeBuf
      modifies this, readBuf, conn`inbound, p
      ensures Valid() && closed == old(closed)
      ensures ok <==> !closed && ReadOnce(old(View()), p.Length).Some?
      ensures ok ==> n <= p.Length && ReadOnce(old(View()), p.Length) == Some((View(), p[..n]))
    {
      hide Unframe;
      if closed {
        return 0, false;
      }
      if readLen > 0 {
        n := Deliver(p, readPos, readLen);
        return n, true;
      }
      var dataLen;
      dataLen, ok := Fetch();
      if !ok {
        return 0, false;
      }
      assert readBuf[0..dataLen] == readBuf[..dataLen];
      n := Deliver(p, 0, dataLen);
      assert readBuf[n..dataLen] == readBuf[..dataLen][n..];
    }

    static lemma HeaderLength(wire: seq<Byte>, header: seq<Byte>)
      requires FRAME_SIZE <= |wire| && header == wire[..FRAME_SIZE]
      ensures GetBe32(header, 0) == GetBe32(wire, 0)
    {
    }

    method Close()
      modifies this`closed
      ensures closed
    {
      closed := true;
    }
  }
}
