/** The objects of app/features/multiplex/mux.go: a session demultiplexes frames into
    per-stream buffers, reusing one write buffer and one scratch array. */
module MuxSession {
  import opened Bytes
  import opened Buf
  import opened Conn
  import P = MuxProtocol

  datatype Status = Ok | Eof | StreamReset | Empty

  /** What a read reports, with the bytes it handed out. */
  function Result(status: Status, data: seq<Byte>): P.ReadResult
  {
    match status
    case Ok => P.Bytes(data)
    case Eof => P.Eof
    case StreamReset => P.WasReset
    case Empty => P.Blocked
  }

  class MuxStream {
    const id: U32
    const readBuf: Buffer
    var readCh: bool  // the one-slot channel holds its token
    var closed: bool
    var reset: bool

    ghost predicate Valid()
      reads readBuf
    {
      readBuf.Valid() && readBuf.buf.Length == SIZE
    }

    ghost function View(): P.Stream
      requires Valid()
      reads this`closed, this`reset, readBuf, readBuf.buf
    {
      P.Stream(readBuf.buf[..readBuf.start], readBuf.Contents(), closed, reset)
    }

    ghost function Parts(): set<object>
    {
      {this, readBuf, readBuf.buf}
    }

    ghost predicate Apart(s: MuxStream)
    {
      this != s && readBuf != s.readBuf && readBuf.buf != s.readBuf.buf
    }

    ghost predicate Is(v: P.Stream)
      reads this`closed, this`reset, readBuf, readBuf.buf
    {
      Valid() && View() == v
    }

    constructor (id: U32)
      ensures this.id == id && Is(P.NEW_STREAM) && !readCh
      ensures fresh(readBuf) && fresh(readBuf.buf)
    {
      this.id := id;
      readBuf := new Buffer.New();
      readCh, closed, reset := false, false, false;
    }

    /** One pass of the reading loop; Empty is where it would wait for the token. */
    method Read(p: array<Byte>) returns (n: nat, status: Status)
      requires Valid() && p != readBuf.buf
      modifies readBuf`start, p
      ensures Valid() && n <= p.Length && p[n..] == old(p[n..])
      ensures (View(), Result(status, p[..n])) == P.ReadStream(old(View()), p.Length)
    {
      if reset {
        return 0, StreamReset;
      }
      var empty := readBuf.IsEmpty();
      if empty {
        return 0, if closed then Eof else Empty;
      }
      ghost var was := View();
      var eof;
      n, eof := readBuf.Read(p);
      status := Ok;
      assert p[..n] == Take(was.buffered, p.Length);
      assert readBuf.buf[..readBuf.start] == was.delivered + p[..n];
    }

    method ReadAs(p: array<Byte>, ghost v: P.Stream) returns (n: nat, status: Status)
      requires Is(v) && p != readBuf.buf
      modifies readBuf`start, p
      ensures n <= p.Length && p[n..] == old(p[n..])
      ensures Is(P.ReadStream(v, p.Length).0) && Result(status, p[..n]) == P.ReadStream(v, p.Length).1
    {
      hide P.ReadStream, Result;
      n, status := Read(p);
    }

    method Append(data: array<Byte>, n: nat, ghost v: P.Stream)
      requires Is(v) && n <= data.Length && data != readBuf.buf
      modifies readBuf, readBuf.buf
      ensures Is(P.Buffer(v, data[..n]))
    {
      var taken, short := readBuf.Write(data, n);
      assert data[..taken] == Take(data[..n], P.Room(v));
    }

    /** Puts a token in the channel unless one is there. */
    method Signal(ghost v: P.Stream)
      requires Is(v)
      modifies this`readCh
      ensures Is(v) && readCh
    {
      readCh := true;
    }

    method Mark(ghost v: P.Stream, close: bool, abort: bool)
      requires Is(v)
      modifies this`closed, this`reset
      ensures Is(v.(closed := v.closed || close, reset := v.reset || abort))
    {
      reset := reset || abort;
      closed := closed || close;
    }
  }

  class MuxSession {
    const conn: Conn
    const writeBuf: array<Byte>
    const maxStreams: U32
    var streams: map<U32, MuxStream>
    var nextID: U32
    var acceptCh: seq<U32>
    var closed: bool

    /** The streams with their buffers and arrays. */
    ghost var repr: set<object>

    /** The session as a value, kept up to date by every method. */
    ghost var view: P.Session

    /** Every stream in the table has its own buffer and array. */
    static ghost predicate Separate(streams: map<U32, MuxStream>, repr: set<object>)
    {
      && (forall id | id in streams :: streams[id].id == id && streams[id].Parts() <= repr)
      && (forall i, j | i in streams && j in streams && i != j :: streams[i].Apart(streams[j]))
    }

    ghost predicate Valid()
      reads this, repr
    {
      && writeBuf.Length == P.HEADER + 64 * 1024
      && this !in repr && conn !in repr && writeBuf !in repr
      && view.nextId == nextID && view.backlog == acceptCh
      && streams.Keys == view.streams.Keys
      && Separate(streams, repr)
      && (forall id | id in streams :: streams[id].Is(view.streams[id]))
    }

    constructor (conn: Conn, maxStreams: U32)
      ensures this.conn == conn && this.maxStreams == maxStreams && !closed
      ensures Valid() && view == P.NEW_SESSION && repr == {} && fresh(writeBuf)
    {
      this.conn, this.maxStreams := conn, maxStreams;
      writeBuf := new Byte[P.HEADER + 64 * 1024];
      streams, nextID, acceptCh, closed := map[], 1, [], false;
      repr, view := {}, P.NEW_SESSION;
    }

    static lemma AddsSeparate(streams: map<U32, MuxStream>, repr: set<object>, s: MuxStream)
      requires Separate(streams, repr) && s.Parts() !! repr
      ensures Separate(streams[s.id := s], repr + s.Parts())
    {
      forall i | i in streams && i != s.id ensures streams[i].Apart(s) && s.Apart(streams[i]) {
        assert streams[i] in streams[i].Parts() && streams[i].readBuf in streams[i].Parts();
        assert streams[i].readBuf.buf in streams[i].Parts();
      }
    }

    static lemma SameSize<A, B>(a: map<U32, A>, b: map<U32, B>)
      requires a.Keys == b.Keys
      ensures |a| == |b|
    {
      assert |a| == |a.Keys| && |b| == |b.Keys|;
    }

    /** A new local stream with the next odd id, unless closed or at the limit. */
    method OpenStream() returns (r: Option<MuxStream>)
      requires Valid()
      modifies this
      ensures Valid() && closed == old(closed) && fresh(repr - old(repr))
      ensures view == if closed then old(view) else P.Open(old(view), maxStreams).0
      ensures r.None? <==> closed || P.Open(old(view), maxStreams).1.None?
      ensures r.Some? ==> old(nextID) in streams && streams[old(nextID)] == r.value
    {
      hide MuxStream.Is, Wrap32, Separate;
      SameSize(streams, view.streams);
      if closed || Wrap32(|streams|) >= maxStreams {
        return None;
      }
      var id := nextID;
      nextID := Wrap32(id as int + 2);
      view := view.(nextId := nextID);
      var stream := Register(id);
      r := Some(stream);
    }

    /** The oldest stream the peer opened, by its id; None is where it would wait. */
    method AcceptStream() returns (r: Option<U32>)
      requires Valid()
      modifies this`acceptCh, this`view
      ensures Valid() && (view, r) == P.AcceptOne(old(view))
    {
      hide MuxStream.Is, Separate;
      if acceptCh == [] {
        return None;
      }
      r := Some(acceptCh[0]);
      acceptCh := acceptCh[1..];
      view := view.(backlog := acceptCh);
    }

    /** Puts a new, empty stream in the table. */
    method Register(id: U32) returns (stream: MuxStream)
      requires Valid()
      modifies this`streams, this`repr, this`view
      ensures Valid() && streams == old(streams)[id := stream] && fresh(repr - old(repr))
      ensures view == old(view).(streams := old(view).streams[id := P.NEW_STREAM])
    {
      hide MuxStream.Is, Separate;
      stream := new MuxStream(id);
      AddsSeparate(streams, repr, stream);
      repr := repr + stream.Parts();
      streams := streams[id := stream];
      view := view.(streams := view.streams[id := P.NEW_STREAM]);
    }

    /** Appends the payload to a stream and wakes its reader; it never blocks. */
    method HandleData(streamID: U32, data: array<Byte>, n: nat)
      requires Valid() && n <= data.Length && data !in repr && data != writeBuf
      modifies this, repr
      ensures Valid() && closed == old(closed) && fresh(repr - old(repr))
      ensures view == P.OnData(old(view), streamID, old(data[..n]))
    {
      hide MuxStream.Is, Separate, P.Buffer;
      if streamID !in streams {
        if streamID % 2 != 0 {
          return;
        }
        var stream := Register(streamID);
        if |acceptCh| < P.BACKLOG {
          acceptCh := acceptCh + [streamID];
          view := view.(backlog := acceptCh);
        }
      }
      Deliver(streamID, data, n);
      assert streamID !in old(view).streams ==>
          old(view).streams[streamID := P.NEW_STREAM][streamID := P.Buffer(P.NEW_STREAM, old(data[..n]))] ==
          old(view).streams[streamID := P.Buffer(P.NEW_STREAM, old(data[..n]))];
    }

    method Deliver(id: U32, data: array<Byte>, n: nat)
      requires Valid() && id in streams && n <= data.Length && data !in repr
      modifies this`view, repr
      ensures Valid()
      ensures view == old(view).(streams := old(view).streams[id := P.Buffer(old(view).streams[id], data[..n])])
    {
      hide MuxStream.Is;
      var s := streams[id];
      assert s.readBuf.buf in s.Parts();
      s.Append(data, n, view.streams[id]);
      view := view.(streams := view.streams[id := P.Buffer(view.streams[id], data[..n])]);
      forall i | i in streams && i != id ensures streams[i].Is(view.streams[i]) {
        assert streams[i].Is(old(view).streams[i]);
      }
      Wake(id);
    }

    static function Marked(v: P.Session, id: U32, close: bool, abort: bool): (r: P.Session)
      requires id in v.streams
      ensures r.streams.Keys == v.streams.Keys
    {
      var t := v.streams[id];
      v.(streams := v.streams[id := t.(closed := t.closed || close, reset := t.reset || abort)])
    }

    /** Sets the flags of a stream in the table. */
    method Mark(id: U32, close: bool, abort: bool)
      requires Valid() && id in streams
      modifies this`view, repr
      ensures Valid()
      ensures view == Marked(old(view), id, close, abort)
    {
      hide MuxStream.Is;
      var s := streams[id];
      assert s in s.Parts();
      s.Mark(view.streams[id], close, abort);
      view := Marked(view, id, close, abort);
      assert s.Is(view.streams[id]);
      forall i | i in streams && i != id ensures streams[i].Is(view.streams[i]) {
        assert streams[i].Is(old(view).streams[i]);
      }
    }

    /** Puts a token in the channel of a stream in the table. */
    method Wake(id: U32)
      requires Valid() && id in streams
      modifies repr
      ensures Valid()
    {
      hide MuxStream.Is;
      assert streams[id] in streams[id].Parts();
      streams[id].Signal(view.streams[id]);
    }

    method HandleClose(streamID: U32)
      requires Valid()
      modifies this`view, repr
      ensures Valid() && view == P.OnFrame(old(view), P.Frame(streamID, P.CLOSE, []))
    {
      hide MuxStream.Is, Separate;
      if streamID in streams {
        Mark(streamID, true, false);
        Wake(streamID);
      }
    }

    /** The peer's reset closes the stream too. */
    method HandleReset(streamID: U32)
      requires Valid()
      modifies this`view, repr
      ensures Valid() && view == P.OnFrame(old(view), P.Frame(streamID, P.RESET, []))
    {
      hide MuxStream.Is, Separate;
      if streamID in streams {
        Mark(streamID, true, true);
        Wake(streamID);
      }
    }

    /** The session after a read, close or reset of one of its streams. */
    ghost function After(v: P.Session, e: P.Event): P.Session
    {
      P.Step(P.World([], v, true, maxStreams), e).session
    }

    lemma AfterRead(v: P.Session, id: U32, size: nat)
      requires id in v.streams
      ensures After(v, P.Read(id, size)) == v.(streams := v.streams[id := P.ReadStream(v.streams[id], size).0])
    {
      hide P.ReadStream;
    }

    /** One pass of Read on a stream in the table, between any two steps of the read loop. */
    method ReadStream(id: U32, p: array<Byte>) returns (n: nat, status: Status)
      requires Valid() && id in streams && p !in repr
      modifies this`view, repr, p
      ensures Valid() && n <= p.Length && p[n..] == old(p[n..])
      ensures view == After(old(view), P.Read(id, p.Length))
      ensures Result(status, p[..n]) == P.ReadStream(old(view).streams[id], p.Length).1
    {
      hide MuxStream.Is, Result, P.ReadStream, After;
      AfterRead(view, id, p.Length);
      var s := streams[id];
      assert s.readBuf in s.Parts() && s.readBuf.buf in s.Parts();
      n, status := s.ReadAs(p, view.streams[id]);
      view := After(view, P.Read(id, p.Length));
      forall i | i in streams && i != id ensures streams[i].Is(view.streams[i]) {
        assert streams[i].Is(old(view).streams[i]);
      }
    }

    /** A frame without a payload; nothing when the session is closed. */
    method Tell(id: U32, kind: Byte) returns (ok: bool)
      requires Valid()
      modifies writeBuf, conn`outbound
      ensures Valid()
      ensures ok <==> !closed
      ensures conn.outbound == old(conn.outbound) + if closed then [] else P.Encode(P.Frame(id, kind, []))
    {
      hide MuxStream.Is, Separate, P.Encode;
      var none := new Byte[0];
      ok := WriteFrame(id, kind, none, 0);
    }

    lemma ClosedFlag(id: U32)
      requires Valid() && id in streams
      ensures streams[id].closed == view.streams[id].closed
    {
    }

    /** Close of a stream: the first one tells the peer. */
    method CloseStream(id: U32) returns (ok: bool)
      requires Valid() && id in streams
      modifies this`view, repr, writeBuf, conn`outbound
      ensures Valid() && view == After(old(view), P.Shut(id))
      ensures var told := !closed && !old(view).streams[id].closed;
        && (ok <==> told || old(view).streams[id].closed)
        && conn.outbound == old(conn.outbound) + if told then P.Encode(P.Frame(id, P.CLOSE, [])) else []
    {
      hide MuxStream.Is, Separate, P.Encode;
      ClosedFlag(id);
      if streams[id].closed {
        assert conn.outbound + [] == conn.outbound;
        return true;
      }
      Mark(id, true, false);
      ok := Tell(id, P.CLOSE);
    }

    /** Reset of a stream: every one tells the peer; the stream is not closed by it. */
    method ResetStream(id: U32) returns (ok: bool)
      requires Valid() && id in streams
      modifies this`view, repr, writeBuf, conn`outbound
      ensures Valid() && view == After(old(view), P.Abort(id))
      ensures ok <==> !closed
      ensures conn.outbound == old(conn.outbound) + if closed then [] else P.Encode(P.Frame(id, P.RESET, []))
    {
      hide MuxStream.Is, Separate, P.Encode;
      Mark(id, false, true);
      ok := Tell(id, P.RESET);
    }

    /** Write on a stream: one data frame, unless the stream or the session is closed. */
    method WriteStream(id: U32, data: array<Byte>, n: nat) returns (ok: bool)
      requires Valid() && id in streams && n <= data.Length && data != writeBuf
      modifies writeBuf, conn`outbound
      ensures Valid() && view == old(view)
      ensures ok <==> !closed && !view.streams[id].closed
      ensures conn.outbound == old(conn.outbound) +
        if ok then P.Encode(P.Frame(id, P.DATA, old(data[..n]))) else []
    {
      hide MuxStream.Is, Separate, P.Encode;
      ClosedFlag(id);
      if streams[id].closed {
        assert conn.outbound + [] == conn.outbound;
        return false;
      }
      ok := WriteFrame(id, P.DATA, data, n);
    }

    /** The header; its two length bytes drop what does not fit 16 bits. */
    static method LayHeader(frame: array<Byte>, streamID: U32, frameType: Byte, n: nat)
      requires P.HEADER <= frame.Length
      modifies frame
      ensures frame[..P.HEADER] == Be32(streamID) + [frameType, 0] + Be16(n)
    {
      LengthBytes(n);
      IdBytes(streamID);
      hide Be16, Be32;
      frame[0], frame[1] := streamID / 0x100_0000, streamID / 0x1_0000 % 0x100;
      frame[2], frame[3] := streamID / 0x100 % 0x100, streamID % 0x100;
      frame[4], frame[5] := frameType, 0;
      frame[6], frame[7] := n / 0x100 % 0x100, n % 0x100;
      assert frame[..4] == [frame[0], frame[1], frame[2], frame[3]] == Be32(streamID);
      assert frame[6..8] == [frame[6], frame[7]] == Be16(n);
      assert frame[..8] == frame[..4] + [frame[4], frame[5]] + frame[6..8];
    }

    static method Lay(frame: array<Byte>, streamID: U32, frameType: Byte, data: array<Byte>, n: nat)
      requires n <= data.Length && P.HEADER + n <= frame.Length && frame != data
      modifies frame
      ensures frame[..P.HEADER + n] == P.Encode(P.Frame(streamID, frameType, data[..n]))
    {
      hide Be16, Be32;
      LayHeader(frame, streamID, frameType, n);
      ghost var header, payload := frame[..P.HEADER], data[..n];
      forall i | 0 <= i < n {
        frame[P.HEADER + i] := data[i];
      }
      assert frame[..P.HEADER] == header && data[..n] == payload;
      forall i | 0 <= i < n ensures frame[P.HEADER..P.HEADER + n][i] == payload[i] {
        assert frame[P.HEADER + i] == payload[i];
      }
      assert frame[P.HEADER..P.HEADER + n] == payload;
      assert frame[..P.HEADER + n] == frame[..P.HEADER] + frame[P.HEADER..P.HEADER + n];
    }

    static lemma LengthBytes(n: nat)
      ensures Be16(n) == [n / 0x100 % 0x100, n % 0x100]
    {
    }

    static lemma IdBytes(id: U32)
      ensures Be32(id) == [id / 0x100_0000, id / 0x1_0000 % 0x100, id / 0x100 % 0x100, id % 0x100]
    {
      assert id / 0x1_0000 / 0x100 == id / 0x100_0000;
    }

    /** Sends one frame from the reused buffer, or from a new one if it does not fit. */
    method WriteFrame(streamID: U32, frameType: Byte, data: array<Byte>, n: nat) returns (ok: bool)
      requires writeBuf.Length == P.HEADER + 64 * 1024 && n <= data.Length && data != writeBuf
      modifies writeBuf, conn`outbound
      ensures ok <==> !closed
      ensures conn.outbound == old(conn.outbound) +
        if closed then [] else P.Encode(P.Frame(streamID, frameType, old(data[..n])))
    {
      if closed {
        assert conn.outbound + [] == conn.outbound;
        return false;
      }
      var frameSize := P.HEADER + n;
      var frame := writeBuf;
      if frameSize > writeBuf.Length {
        frame := new Byte[frameSize];
      }
      Lay(frame, streamID, frameType, data, n);
      conn.Write(frame, frameSize);
      ok := true;
    }

    /** Reads one frame, its payload into the scratch array, which is replaced when too small. */
    static method ReadFrame(conn: Conn, frameHeader: array<Byte>, dataBuf: array<Byte>)
      returns (ok: bool, id: U32, kind: Byte, data: array<Byte>, n: nat)
      requires frameHeader.Length == P.HEADER && frameHeader != dataBuf
      modifies conn`inbound, frameHeader, dataBuf
      ensures (data == dataBuf || fresh(data)) && n <= data.Length && data != frameHeader
      ensures P.Parse(old(conn.inbound)) ==
        if ok then Some((P.Frame(id, kind, data[..n]), conn.inbound)) else None
    {
      hide GetBe16, GetBe32;
      id, kind, data, n := 0, 0, dataBuf, 0;
      ok := conn.ReadFull(frameHeader, P.HEADER);
      if !ok {
        return;
      }
      ghost var wire := old(conn.inbound);
      assert frameHeader[..] == wire[..P.HEADER];
      HeaderFields(wire, frameHeader[..]);
      id := GetBe32(frameHeader[..], 0);
      kind := frameHeader[4];
      n := GetBe16(frameHeader[..], 6);
      if n > 0 {
        if n > dataBuf.Length {
          data := new Byte[n];
        }
        ok := conn.ReadFull(data, n);
        if ok {
          assert wire[P.HEADER..P.HEADER + n] == data[..n];
        }
      } else {
        assert data[..n] == wire[P.HEADER..P.HEADER];
      }
    }

    static lemma HeaderFields(wire: seq<Byte>, header: seq<Byte>)
      requires P.HEADER <= |wire| && header == wire[..P.HEADER]
      ensures GetBe32(wire, 0) == GetBe32(header, 0)
      ensures GetBe16(wire, 6) == GetBe16(header, 6)
      ensures wire[4] == header[4]
    {
    }

    /** Acts on one frame; true means the peer said goodbye. */
    method Dispatch(id: U32, kind: Byte, data: array<Byte>, n: nat) returns (stop: bool)
      requires Valid() && n <= data.Length && data !in repr && data != writeBuf
      modifies this, writeBuf, conn`outbound, repr
      ensures Valid() && closed == old(closed) && fresh(repr - old(repr))
      ensures view == P.OnFrame(old(view), P.Frame(id, kind, old(data[..n])))
      ensures stop <==> kind == P.GOAWAY
      ensures conn.outbound == old(conn.outbound) +
        if kind == P.PING && !closed then P.Encode(P.Frame(0, P.PONG, old(data[..n]))) else []
    {
      hide MuxStream.Is, Separate, P.OnData, P.Encode;
      stop := kind == P.GOAWAY;
      if kind == P.DATA {
        HandleData(id, data, n);
      } else if kind == P.CLOSE {
        HandleClose(id);
      } else if kind == P.RESET {
        HandleReset(id);
      } else if kind == P.PING {
        var sent := WriteFrame(0, P.PONG, data, n);
      }
    }

    /** One round of the read loop: a frame, if the connection still has a whole one. */
    method ServeOne(frameHeader: array<Byte>, dataBuf: array<Byte>)
      returns (ok: bool, stop: bool, data: array<Byte>)
      requires Valid() && frameHeader.Length == P.HEADER && frameHeader != dataBuf
      requires frameHeader !in repr && dataBuf !in repr && writeBuf != dataBuf && writeBuf != frameHeader
      modifies this, writeBuf, conn, repr, frameHeader, dataBuf
      ensures Valid() && closed == old(closed) && fresh(repr - old(repr))
      ensures (data == dataBuf || fresh(data)) && data != frameHeader && frameHeader !in repr && data !in repr
      ensures match P.Parse(old(conn.inbound))
        case None => !ok && view == old(view) && conn.outbound == old(conn.outbound)
        case Some((f, rest)) =>
          && ok && view == P.OnFrame(old(view), f) && conn.inbound == rest && (stop <==> f.kind == P.GOAWAY)
          && conn.outbound == old(conn.outbound) +
             if f.kind == P.PING && !closed then P.Encode(P.Frame(0, P.PONG, f.data)) else []
    {
      hide MuxStream.Is, Separate, P.Parse, P.OnFrame, P.Encode;
      var id, kind, n;
      ok, id, kind, data, n := ReadFrame(conn, frameHeader, dataBuf);
      stop := false;
      if ok {
        stop := Dispatch(id, kind, data, n);
      }
    }

    /** Serves the connection until it ends, mid-frame or not, or the peer says goodbye. */
    method ReadLoop()
      requires Valid()
      modifies this, writeBuf, conn, repr
      ensures Valid() && closed == old(closed)
      ensures var start := P.World(old(conn.inbound), old(view), true, maxStreams);
        && view == P.Drain(start).session
        && conn.outbound == old(conn.outbound) + if closed then [] else P.Pongs(start)
    {
      hide Valid, P.Parse, P.OnFrame, P.Encode, P.Drain, P.Pongs;
      var frameHeader, dataBuf := new Byte[P.HEADER], new Byte[0];
      ghost var start := P.World(conn.inbound, view, true, maxStreams);
      ghost var w := start;
      var stop := false;
      while !stop
        invariant Valid() && closed == old(closed) && fresh(repr - old(repr))
        invariant fresh(frameHeader) && fresh(dataBuf) && frameHeader != dataBuf
        invariant frameHeader !in repr && dataBuf !in repr && frameHeader.Length == P.HEADER
        invariant w == P.World(conn.inbound, view, !stop, maxStreams)
        invariant P.Drain(w).session == P.Drain(start).session
        invariant conn.outbound + (if closed then [] else P.Pongs(w)) ==
          old(conn.outbound) + if closed then [] else P.Pongs(start)
        decreases |conn.inbound|, !stop
      {
        P.DrainStep(w);
        var ok;
        ok, stop, dataBuf := ServeOne(frameHeader, dataBuf);
        if !ok {
          return;
        }
        w := P.World(conn.inbound, view, !stop, maxStreams);
      }
      P.DrainStep(w);
    }
  }
}
