/** The objects of app/transport/xhttp.go: a connection demultiplexes frames into streams
    whose buffers grow as needed. */
module XhttpSession {
  import opened Bytes
  import opened Conn
  import P = XhttpProtocol

  datatype Status = Ok | Eof | Empty

  /** What a read reports, with the bytes it handed out. */
  function Result(status: Status, data: seq<Byte>): P.ReadResult
  {
    match status
    case Ok => P.Bytes(data)
    case Eof => P.Eof
    case Empty => P.Blocked
  }

  class XHTTPStream {
    const id: U32
    var readBuf: seq<Byte>
    var closed: bool
    ghost var delivered: seq<Byte>

    ghost function View(): P.Stream
      reads this
    {
      P.Stream(delivered, readBuf, closed)
    }

    constructor (id: U32)
      ensures this.id == id && View() == P.NEW_STREAM
    {
      this.id := id;
      readBuf, closed, delivered := [], false, [];
    }

    /** One pass of the reading loop; Empty is where it would wait on the condition. */
    method Read(p: array<Byte>) returns (n: nat, status: Status)
      modifies this`readBuf, this`delivered, p
      ensures n <= p.Length && p[n..] == old(p[n..])
      ensures (View(), Result(status, p[..n])) == P.ReadStream(old(View()), p.Length)
    {
      if readBuf == [] {
        return 0, if closed then Eof else Empty;
      }
      n := if |readBuf| <= p.Length then |readBuf| else p.Length;
      status := Ok;
      forall i | 0 <= i < n {
        p[i] := readBuf[i];
      }
      assert p[..n] == Take(readBuf, p.Length);
      delivered := delivered + p[..n];
      readBuf := readBuf[n..];
    }
  }

  class XHTTPConnection {
    const conn: Conn
    var streams: map<U32, XHTTPStream>
    var nextID: U32
    var closed: bool

    /** The session as a value, and the stream objects in use. */
    ghost var view: P.Session
    ghost var repr: set<object>

    static ghost predicate Separate(streams: map<U32, XHTTPStream>, repr: set<object>)
    {
      forall id | id in streams :: streams[id].id == id && streams[id] in repr
    }

    ghost predicate Valid()
      reads this, repr
    {
      && this !in repr && conn !in repr
      && view.nextId == nextID
      && streams.Keys == view.streams.Keys
      && Separate(streams, repr)
      && (forall id | id in streams :: streams[id].View() == view.streams[id])
    }

    constructor (conn: Conn)
      ensures this.conn == conn && !closed
      ensures Valid() && view == P.NEW_SESSION && repr == {}
    {
      this.conn := conn;
      streams, nextID, closed := map[], 1, false;
      view, repr := P.NEW_SESSION, {};
    }

    /** Puts a new, empty stream in the table. */
    method Register(id: U32) returns (stream: XHTTPStream)
      requires Valid()
      modifies this`streams, this`view, this`repr
      ensures Valid() && streams == old(streams)[id := stream] && fresh(repr - old(repr))
      ensures view == P.Put(old(view), id, P.NEW_STREAM)
    {
      stream := new XHTTPStream(id);
      streams := streams[id := stream];
      repr := repr + {stream};
      view := P.Put(view, id, P.NEW_STREAM);
    }

    method OpenStream() returns (r: Option<XHTTPStream>)
      requires Valid()
      modifies this
      ensures Valid() && closed == old(closed) && fresh(repr - old(repr))
      ensures r.None? <==> closed
      ensures view == if closed then old(view) else P.Open(old(view))
      ensures r.Some? ==> old(nextID) in streams && streams[old(nextID)] == r.value
    {
      if closed {
        return None;
      }
      var id := nextID;
      nextID := Wrap32(id as int + 2);
      view := view.(nextId := nextID);
      var stream := Register(id);
      r := Some(stream);
    }

    method HandleData(streamID: U32, data: seq<Byte>)
      requires Valid()
      modifies this`streams, this`view, this`repr, repr
      ensures Valid() && fresh(repr - old(repr))
      ensures view == P.OnFrame(old(view), P.Frame(P.DATA, streamID, 0, data))
    {
      hide XHTTPStream.View, Separate;
      if streamID !in streams {
        if streamID % 2 != 0 {
          return;
        }
        var stream := Register(streamID);
      }
      var t := view.streams[streamID];
      Append(streamID, data);
      assert t == P.Lookup(old(view), streamID);
      assert view == P.Put(old(view), streamID, t.(buffered := t.buffered + data));
    }

    method Append(id: U32, data: seq<Byte>)
      requires Valid() && id in streams
      modifies this`view, repr
      ensures Valid()
      ensures view == P.Put(old(view), id, old(view).streams[id].(buffered := old(view).streams[id].buffered + data))
    {
      streams[id].readBuf := streams[id].readBuf + data;
      view := P.Put(view, id, view.streams[id].(buffered := view.streams[id].buffered + data));
    }

    /** handleClose and handleReset do the same. */
    method HandleClose(streamID: U32)
      requires Valid()
      modifies this`view, repr
      ensures Valid()
      ensures view == P.OnFrame(old(view), P.Frame(P.CLOSE, streamID, 0, []))
    {
      hide XHTTPStream.View, Separate;
      if streamID in streams {
        MarkClosed(streamID);
      }
    }

    method MarkClosed(id: U32)
      requires Valid() && id in streams
      modifies this`view, repr
      ensures Valid() && view == P.Put(old(view), id, old(view).streams[id].(closed := true))
    {
      streams[id].closed := true;
      view := P.Put(view, id, view.streams[id].(closed := true));
    }

    /** The session after a read or close of one of its streams. */
    static ghost function After(v: P.Session, e: P.Event): P.Session
    {
      P.Step(P.World([], v, true), e).session
    }

    /** One pass of Read on a stream in the table, between any two steps of the read loop. */
    method ReadStream(id: U32, p: array<Byte>) returns (n: nat, status: Status)
      requires Valid() && id in streams && p !in repr
      modifies this`view, repr, p
      ensures Valid() && n <= p.Length && p[n..] == old(p[n..])
      ensures view == After(old(view), P.Read(id, p.Length))
      ensures Result(status, p[..n]) == P.ReadStream(old(view).streams[id], p.Length).1
    {
      hide Result, P.ReadStream;
      n, status := streams[id].Read(p);
      view := After(view, P.Read(id, p.Length));
    }

    /** Close of a stream: the first one tells the peer. */
    method CloseStream(id: U32) returns (told: bool)
      requires Valid() && id in streams
      modifies this`view, repr, conn`outbound
      ensures Valid() && view == After(old(view), P.Shut(id))
      ensures told <==> !closed && !old(view).streams[id].closed
      ensures conn.outbound == old(conn.outbound) + if told then P.Encode(P.Frame(P.CLOSE, id, 0, [])) else []
    {
      hide P.Encode, Separate;
      assert streams[id].closed == view.streams[id].closed;
      told := false;
      if streams[id].closed {
        assert conn.outbound + [] == conn.outbound;
        return;
      }
      MarkClosed(id);
      told := Tell(id, P.CLOSE);
    }

    /** A frame without a payload; nothing when the connection is closed. */
    method Tell(id: U32, kind: Byte) returns (ok: bool)
      requires Valid()
      modifies conn`outbound
      ensures Valid()
      ensures ok <==> !closed
      ensures conn.outbound == old(conn.outbound) + if closed then [] else P.Encode(P.Frame(kind, id, 0, []))
    {
      hide P.Encode, Separate;
      var none := new Byte[0];
      ok := WriteFrame(id, kind, 0, none);
      assert none[..] == [];
    }

    /** Write on a stream: one data frame, unless the stream or the connection is closed. */
    method WriteStream(id: U32, data: array<Byte>) returns (ok: bool)
      requires Valid() && id in streams
      modifies conn`outbound
      ensures Valid() && view == old(view)
      ensures ok <==> !closed && !view.streams[id].closed
      ensures conn.outbound == old(conn.outbound) + if ok then P.Encode(P.Frame(P.DATA, id, 0, data[..])) else []
    {
      hide P.Encode;
      assert streams[id].closed == view.streams[id].closed;
      if streams[id].closed {
        assert conn.outbound + [] == conn.outbound;
        return false;
      }
      ok := WriteFrame(id, P.DATA, 0, data);
    }

    static method PutHeader(header: array<Byte>, frameType: Byte, streamID: U32, flags: Byte, n: nat)
      requires header.Length == P.HEADER
      modifies header
      ensures header[..] == P.Header(frameType, streamID, flags, n)
    {
      hide Be32;
      var id, length := Be32(streamID), Be32(n);
      header[0] := frameType;
      header[1], header[2], header[3], header[4] := id[0], id[1], id[2], id[3];
      header[5], header[6], header[7], header[8] := length[0], length[1], length[2], length[3];
      header[9], header[10], header[11] := flags, 0, 0;
    }

    method WriteFrame(streamID: U32, frameType: Byte, flags: Byte, data: array<Byte>) returns (ok: bool)
      modifies conn`outbound
      ensures ok <==> !closed
      ensures conn.outbound == old(conn.outbound) +
        if closed then [] else P.Encode(P.Frame(frameType, streamID, flags, data[..]))
    {
      hide P.Header;
      if closed {
        assert conn.outbound + [] == conn.outbound;
        return false;
      }
      var header, n := new Byte[P.HEADER], data.Length;
      PutHeader(header, frameType, streamID, flags, n);
      assert header[..P.HEADER] == header[..];
      conn.Write(header, P.HEADER);
      if n > 0 {
        conn.Write(data, n);
      }
      assert data[..n] == data[..];
      ok := true;
    }

    /** Reads one frame into a new payload array. */
    static method ReadFrame(conn: Conn, headerBuf: array<Byte>)
      returns (ok: bool, kind: Byte, id: U32, flags: Byte, payload: array<Byte>)
      requires headerBuf.Length == P.HEADER
      modifies conn`inbound, headerBuf
      ensures fresh(payload)
      ensures P.Parse(old(conn.inbound)) ==
        if ok then Some((P.Frame(kind, id, flags, payload[..]), conn.inbound)) else None
    {
      hide GetBe32;
      kind, id, flags, payload := 0, 0, 0, new Byte[0];
      ok := conn.ReadFull(headerBuf, P.HEADER);
      if !ok {
        return;
      }
      ghost var wire := old(conn.inbound);
      HeaderFields(wire, headerBuf[..]);
      kind, id, flags := headerBuf[0], GetBe32(headerBuf[..], 1), headerBuf[9];
      var length := GetBe32(headerBuf[..], 5);
      payload := new Byte[length];
      if length > 0 {
        ok := conn.ReadFull(payload, length);
        assert payload[..length] == payload[..];
        if ok {
          assert wire[P.HEADER..P.HEADER + length] == payload[..];
        }
      } else {
        assert payload[..] == wire[P.HEADER..P.HEADER];
      }
    }

    static lemma HeaderFields(wire: seq<Byte>, header: seq<Byte>)
      requires P.HEADER <= |wire| && header == wire[..P.HEADER]
      ensures GetBe32(wire, 1) == GetBe32(header, 1) && GetBe32(wire, 5) == GetBe32(header, 5)
      ensures wire[0] == header[0] && wire[9] == header[9]
    {
    }

    method Dispatch(kind: Byte, id: U32, payload: array<Byte>, ghost flags: Byte) returns (stop: bool)
      requires Valid() && payload !in repr
      modifies this`streams, this`view, this`repr, repr, conn`outbound
      ensures Valid() && fresh(repr - old(repr))
      ensures view == P.OnFrame(old(view), P.Frame(kind, id, flags, payload[..]))
      ensures stop <==> kind == P.GOAWAY
      ensures conn.outbound == old(conn.outbound) +
        if kind == P.PING && !closed then P.Encode(P.Frame(P.PONG, 0, 0, payload[..])) else []
    {
      hide P.Encode;
      stop := kind == P.GOAWAY;
      if kind == P.DATA {
        HandleData(id, payload[..]);
      } else if kind == P.PING {
        var sent := WriteFrame(0, P.PONG, 0, payload);
      } else if kind == P.CLOSE || kind == P.RESET {
        HandleClose(id);
      }
    }

    /** Serves the connection until it ends or the peer says goodbye. */
    method ReadLoop()
      requires Valid()
      modifies this`streams, this`view, this`repr, repr, conn
      ensures Valid()
      ensures var start := P.World(old(conn.inbound), old(view), !closed);
        && view == P.Drain(start).session
        && conn.outbound == old(conn.outbound) + P.Pongs(start)
    {
      hide Separate, P.Parse, P.OnFrame, P.Encode, P.Drain, P.Pongs;
      var headerBuf := new Byte[P.HEADER];
      ghost var start := P.World(conn.inbound, view, !closed);
      ghost var w := start;
      var stop := false;
      while !stop
        invariant Valid() && fresh(repr - old(repr)) && headerBuf !in repr
        invariant w.session == view && w.pipe == conn.inbound && w.running == (!closed && !stop)
        invariant P.Drain(w).session == P.Drain(start).session
        invariant conn.outbound + P.Pongs(w) == old(conn.outbound) + P.Pongs(start)
        decreases |conn.inbound|, !stop
      {
        P.DrainStep(w);
        if closed {
          return;
        }
        var ok, kind, id, flags, payload := ReadFrame(conn, headerBuf);
        if !ok {
          return;
        }
        stop := Dispatch(kind, id, payload, flags);
        w := P.World(conn.inbound, view, !stop);
      }
      P.DrainStep(w);
    }
  }
}
