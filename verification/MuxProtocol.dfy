/** The multiplexing protocol of app/features/multiplex/mux.go on values: frames on a
    byte pipe, the demultiplexer's stream table, and runs of sends, receives and reads. */
module MuxProtocol {
  import opened Bytes

  const HEADER: nat := 8
  const MAX_PAYLOAD: nat := 0xFFFF
  const CAPACITY: nat := 32 * 1024
  const BACKLOG: nat := 32

  const DATA: Byte := 0
  const CLOSE: Byte := 1
  const RESET: Byte := 2
  const PING: Byte := 3
  const PONG: Byte := 4
  const GOAWAY: Byte := 5

  // ---------- frames ----------

  datatype Frame = Frame(id: U32, kind: Byte, data: seq<Byte>)

  /** What WriteFrame puts on the wire; the length field keeps 16 bits only. */
  function Encode(f: Frame): (b: seq<Byte>)
    ensures |b| == HEADER + |f.data|
  {
    Be32(f.id) + [f.kind, 0] + Be16(|f.data|) + f.data
  }

  /** One frame at the front of b and the bytes after it, if it is complete. */
  function Parse(b: seq<Byte>): (r: Option<(Frame, seq<Byte>)>)
    ensures r.Some? ==> |r.value.1| + HEADER + |r.value.0.data| == |b|
  {
    if |b| < HEADER then None
    else
      var n: nat := GetBe16(b, 6);
      if |b| < HEADER + n then None
      else Some((Frame(GetBe32(b, 0), b[4], b[HEADER..HEADER + n]), b[HEADER + n..]))
  }

  /** The receiver gets a frame back exactly when its payload fits the 16-bit length. */
  lemma ParseEncode(f: Frame, rest: seq<Byte>)
    ensures Parse(Encode(f) + rest) == Some((f, rest)) <==> |f.data| <= MAX_PAYLOAD
  {
    hide Be16, Be32, GetBe16, GetBe32;
    var b := Encode(f) + rest;
    assert b[0..4] == Be32(f.id);
    assert b[6..8] == Be16(|f.data|);
    Be32RoundTrip(b, 0, f.id);
    Be16RoundTrip(b, 6, |f.data|);
    if |f.data| <= MAX_PAYLOAD {
      assert b[HEADER..HEADER + |f.data|] == f.data;
      assert b[HEADER + |f.data|..] == rest;
    }
  }

  /** The bytes of a frame, one by one. */
  lemma WireBytes(f: Frame)
    ensures var b := Encode(f);
      && Number(b[0..4]) == f.id && b[4] == f.kind && b[5] == 0
      && Number(b[6..8]) == |f.data| % 0x1_0000 && b[8..] == f.data
  {
    hide Be16, Be32, Number;
    var b := Encode(f);
    assert b[0..4] == Be32(f.id) && b[6..8] == Be16(|f.data|);
    Be32Spells(f.id);
    Be16Spells(|f.data|);
  }

  function EncodeAll(fs: seq<Frame>): seq<Byte>
  {
    if fs == [] then [] else Encode(fs[0]) + EncodeAll(fs[1..])
  }

  lemma {:induction false} EncodeAllSnoc(fs: seq<Frame>, f: Frame)
    ensures EncodeAll(fs + [f]) == EncodeAll(fs) + Encode(f)
  {
    if fs != [] {
      EncodeAllSnoc(fs[1..], f);
      assert (fs + [f])[1..] == fs[1..] + [f];
    }
  }

  // ---------- streams ----------

  /** A stream as its reader sees it: bytes handed out, bytes waiting, peer's and own flags. */
  datatype Stream = Stream(delivered: seq<Byte>, buffered: seq<Byte>, closed: bool, reset: bool)

  const NEW_STREAM := Stream([], [], false, false)

  function Room(s: Stream): nat
  {
    var used := |s.delivered| + |s.buffered|;
    if used < CAPACITY then CAPACITY - used else 0
  }

  function Buffer(s: Stream, data: seq<Byte>): Stream
  {
    s.(buffered := s.buffered + Take(data, Room(s)))
  }

  datatype ReadResult = Bytes(data: seq<Byte>) | Eof | WasReset | Blocked

  function ReadStream(s: Stream, size: nat): (Stream, ReadResult)
  {
    if s.reset then (s, WasReset)
    else if s.buffered == [] then (s, if s.closed then Eof else Blocked)
    else
      var d := Take(s.buffered, size);
      (Stream(s.delivered + d, s.buffered[|d|..], s.closed, s.reset), Bytes(d))
  }

  // ---------- sessions ----------

  datatype Session = Session(streams: map<U32, Stream>, nextId: U32, backlog: seq<U32>)

  const NEW_SESSION := Session(map[], 1, [])

  function Open(s: Session, maxStreams: U32): (r: (Session, Option<U32>))
  {
    if Wrap32(|s.streams|) >= maxStreams then (s, None)
    else
      (s.(streams := s.streams[s.nextId := NEW_STREAM], nextId := Wrap32(s.nextId + 2)),
       Some(s.nextId))
  }

  /** AcceptStream takes the oldest stream the peer has opened; None when it would wait. */
  function AcceptOne(s: Session): (Session, Option<U32>)
  {
    if s.backlog == [] then (s, None) else (s.(backlog := s.backlog[1..]), Some(s.backlog[0]))
  }

  /** An unknown even id is the peer opening a stream; an unknown odd id is dropped. */
  predicate Known(s: Session, id: U32)
  {
    id in s.streams || id % 2 == 0
  }

  function OnData(s: Session, id: U32, data: seq<Byte>): Session
  {
    if id in s.streams then s.(streams := s.streams[id := Buffer(s.streams[id], data)])
    else if id % 2 == 0 then
      s.(streams := s.streams[id := Buffer(NEW_STREAM, data)],
         backlog := if |s.backlog| < BACKLOG then s.backlog + [id] else s.backlog)
    else s
  }

  function OnFrame(s: Session, f: Frame): Session
  {
    if f.kind == DATA then OnData(s, f.id, f.data)
    else if f.kind == CLOSE && f.id in s.streams then
      s.(streams := s.streams[f.id := s.streams[f.id].(closed := true)])
    else if f.kind == RESET && f.id in s.streams then
      s.(streams := s.streams[f.id := s.streams[f.id].(closed := true, reset := true)])
    else s
  }

  // ---------- runs ----------

  /** One direction of a connection. Shut and Abort are the local Close and Reset. */
  datatype Event =
    | Send(f: Frame)
    | Recv
    | Read(id: U32, size: nat)
    | OpenLocal
    | Accept
    | Shut(id: U32)
    | Abort(id: U32)

  datatype World = World(pipe: seq<Byte>, session: Session, running: bool, maxStreams: U32)

  function Start(maxStreams: U32): World
  {
    World([], NEW_SESSION, true, maxStreams)
  }

  /** The frame the read loop takes at event e, if any. */
  function Taken(w: World, e: Event): Option<Frame>
  {
    if e.Recv? && w.running && Parse(w.pipe).Some? then Some(Parse(w.pipe).value.0) else None
  }

  function AsSeq<T>(o: Option<T>): seq<T>
  {
    match o
    case None => []
    case Some(t) => [t]
  }

  /** The payload that frame f carries for stream id. */
  function Part(f: Frame, id: U32): seq<Byte>
  {
    if f.kind == DATA && f.id == id then f.data else []
  }

  /** The bytes that event e brings in for stream id. */
  function ReceivedBy(w: World, e: Event, id: U32): seq<Byte>
  {
    if Known(w.session, id) && Taken(w, e).Some? then Part(Taken(w, e).value, id) else []
  }

  function Step(w: World, e: Event): World
  {
    var s := w.session;
    match e
    case Send(f) => w.(pipe := w.pipe + Encode(f))
    case Recv =>
      if Taken(w, e) == None then w
      else
        var (f, rest) := Parse(w.pipe).value;
        w.(pipe := rest, session := OnFrame(s, f), running := f.kind != GOAWAY)
    case Read(id, size) =>
      if id !in s.streams then w
      else w.(session := s.(streams := s.streams[id := ReadStream(s.streams[id], size).0]))
    case OpenLocal => w.(session := Open(s, w.maxStreams).0)
    case Accept => w.(session := AcceptOne(s).0)
    case Shut(id) =>
      if id !in s.streams then w
      else w.(session := s.(streams := s.streams[id := s.streams[id].(closed := true)]))
    case Abort(id) =>
      if id !in s.streams then w
      else w.(session := s.(streams := s.streams[id := s.streams[id].(reset := true)]))
  }

  /** The read loop: frames are taken until none is complete or the peer says goodbye. */
  function Drain(w: World): World
    decreases |w.pipe|
  {
    if Taken(w, Recv).None? then w else Drain(Step(w, Recv))
  }

  /** What the read loop answers to the pings among those frames. */
  function Pongs(w: World): seq<Byte>
    decreases |w.pipe|
  {
    match Taken(w, Recv)
    case None => []
    case Some(f) => (if f.kind == PING then Encode(Frame(0, PONG, f.data)) else []) + Pongs(Step(w, Recv))
  }

  function Run(w: World, es: seq<Event>): World
    decreases es
  {
    if es == [] then w else Run(Step(w, es[0]), es[1..])
  }

  function SentBy(e: Event): seq<Frame>
  {
    if e.Send? then [e.f] else []
  }

  function Sent(es: seq<Event>): seq<Frame>
  {
    if es == [] then [] else SentBy(es[0]) + Sent(es[1..])
  }

  function Handled(w: World, es: seq<Event>): seq<Frame>
    decreases es
  {
    if es == [] then [] else AsSeq(Taken(w, es[0])) + Handled(Step(w, es[0]), es[1..])
  }

  /** Payloads of the handled data frames of stream id, from the moment id is known. */
  function Received(w: World, es: seq<Event>, id: U32): seq<Byte>
    decreases es
  {
    if es == [] then [] else ReceivedBy(w, es[0], id) + Received(Step(w, es[0]), es[1..], id)
  }

  /** The bytes that event e hands to the reader of stream id. */
  function ReadBy(w: World, e: Event, id: U32): seq<Byte>
  {
    var s := w.session.streams;
    if e.Read? && e.id == id && id in s && ReadStream(s[id], e.size).1.Bytes?
    then ReadStream(s[id], e.size).1.data else []
  }

  function Delivered(w: World, es: seq<Event>, id: U32): seq<Byte>
    decreases es
  {
    if es == [] then [] else ReadBy(w, es[0], id) + Delivered(Step(w, es[0]), es[1..], id)
  }

  function Project(fs: seq<Frame>, id: U32): seq<Byte>
  {
    if fs == [] then [] else Part(fs[0], id) + Project(fs[1..], id)
  }

  ghost predicate Sendable(es: seq<Event>)
  {
    forall i | 0 <= i < |es| :: es[i].Send? ==> |es[i].f.data| <= MAX_PAYLOAD
  }

  // ---------- the wire is a queue of frames ----------

  ghost predicate AllSendable(fs: seq<Frame>)
  {
    forall i | 0 <= i < |fs| :: |fs[i].data| <= MAX_PAYLOAD
  }

  lemma StepPipe(w: World, e: Event, queue: seq<Frame>)
    requires w.pipe == EncodeAll(queue) && AllSendable(queue)
    ensures AsSeq(Taken(w, e)) <= queue
    ensures Step(w, e).pipe == EncodeAll(queue[|AsSeq(Taken(w, e))|..] + SentBy(e))
  {
    var t := AsSeq(Taken(w, e));
    match e
    case Send(f) => EncodeAllSnoc(queue, f);
    case Recv =>
      if queue != [] {
        ParseEncode(queue[0], EncodeAll(queue[1..]));
      }
      assert queue[|t|..] + [] == queue[|t|..];
    case _ => assert queue[0..] + [] == queue;
  }

  lemma QueueSplit(queue: seq<Frame>, t: seq<Frame>, sent: seq<Frame>, more: seq<Frame>, later: seq<Frame>)
    requires t <= queue && later <= (queue[|t|..] + sent) + more
    ensures t + later <= queue + (sent + more)
    ensures ((queue[|t|..] + sent) + more)[|later|..] == (queue + (sent + more))[|t + later|..]
  {
    assert queue == t + queue[|t|..];
    assert queue + (sent + more) == t + ((queue[|t|..] + sent) + more);
  }

  /** The read loop handles the sent frames, whole and in order; the pipe holds the rest. */
  lemma {:induction false} PipeIsFrameQueue(w: World, es: seq<Event>, queue: seq<Frame>)
    requires w.pipe == EncodeAll(queue) && AllSendable(queue) && Sendable(es)
    ensures Handled(w, es) <= queue + Sent(es)
    ensures Run(w, es).pipe == EncodeAll((queue + Sent(es))[|Handled(w, es)|..])
    decreases es
  {
    if es == [] {
      assert queue + [] == queue;
    } else {
      var t := AsSeq(Taken(w, es[0]));
      var next := queue[|t|..] + SentBy(es[0]);
      StepPipe(w, es[0], queue);
      assert AllSendable(next);
      PipeIsFrameQueue(Step(w, es[0]), es[1..], next);
      QueueSplit(queue, t, SentBy(es[0]), Sent(es[1..]), Handled(Step(w, es[0]), es[1..]));
    }
  }

  // ---------- stream ids ----------

  const ID_SPACE: nat := 0x8000_0000

  /** The id handed out by event e, if e opens a stream. */
  function OpenedBy(w: World, e: Event): Option<U32>
  {
    if e.OpenLocal? then Open(w.session, w.maxStreams).1 else None
  }

  /** After n opens the local ids in use are exactly the odd numbers below 1 + 2n. */
  ghost predicate IdsCounted(w: World, n: nat)
  {
    var s := w.session;
    && n <= |s.streams| <= 0x1_0000_0000
    && n <= w.maxStreams
    && s.nextId == Wrap32(1 + 2 * n)
    && (forall id: U32 | id % 2 == 1 :: id in s.streams <==> id < 1 + 2 * n)
  }

  ghost function Ids(lo: nat): (r: set<U32>)
    requires lo <= 0x1_0000_0000
    decreases 0x1_0000_0000 - lo
    ensures |r| == 0x1_0000_0000 - lo
    ensures forall id: U32 :: id in r <==> lo <= id
  {
    if lo == 0x1_0000_0000 then {} else {lo as U32} + Ids(lo + 1)
  }

  lemma SubsetSize(a: set<U32>, b: set<U32>)
    requires a <= b
    ensures |a| <= |b|
    ensures a != b ==> |a| < |b|
  {
    assert b == a + (b - a);
  }

  lemma IdCount(a: set<U32>)
    ensures |a| <= 0x1_0000_0000
    ensures (exists id: U32 :: id !in a) ==> |a| < 0x1_0000_0000
  {
    SubsetSize(a, Ids(0));
  }

  /** Only OpenStream adds an odd id. */
  lemma StepIds(w: World, e: Event)
    ensures Step(w, e).maxStreams == w.maxStreams
    ensures w.session.streams.Keys <= Step(w, e).session.streams.Keys
    ensures !e.OpenLocal? ==>
      && Step(w, e).session.nextId == w.session.nextId
      && forall id: U32 | id % 2 == 1 :: id in Step(w, e).session.streams <==> id in w.session.streams
  {
    hide Parse, Encode, Buffer, ReadStream;
  }

  lemma OpenCounts(w: World, n: nat)
    requires w.maxStreams < ID_SPACE && IdsCounted(w, n)
    ensures var r := Open(w.session, w.maxStreams);
      && (r.1.Some? ==> r.1.value == 1 + 2 * n && r.1.value !in w.session.streams)
      && IdsCounted(w.(session := r.0), n + if r.1.Some? then 1 else 0)
  {
    var s, s' := w.session, Open(w.session, w.maxStreams).0;
    var top: U32 := 0xFFFF_FFFF;
    assert top !in s.streams;
    IdCount(s.streams.Keys);
    IdCount(s'.streams.Keys);
    SubsetSize(s.streams.Keys, s'.streams.Keys);
  }

  lemma StepCounts(w: World, e: Event, n: nat)
    requires w.maxStreams < ID_SPACE && IdsCounted(w, n)
    ensures Step(w, e).maxStreams == w.maxStreams
    ensures OpenedBy(w, e).Some? ==> OpenedBy(w, e).value == 1 + 2 * n && OpenedBy(w, e).value !in w.session.streams
    ensures IdsCounted(Step(w, e), n + if OpenedBy(w, e).Some? then 1 else 0)
  {
    hide Parse, Encode, Buffer, ReadStream, OnFrame, Open, AcceptOne, Taken;
    if e.OpenLocal? {
      OpenCounts(w, n);
    } else {
      StepIds(w, e);
      IdCount(Step(w, e).session.streams.Keys);
      SubsetSize(w.session.streams.Keys, Step(w, e).session.streams.Keys);
    }
  }

  lemma {:induction false} IdsAreCounted(w: World, es: seq<Event>, n: nat) returns (n': nat)
    requires w.maxStreams < ID_SPACE && IdsCounted(w, n)
    ensures Run(w, es).maxStreams == w.maxStreams
    ensures IdsCounted(Run(w, es), n')
    decreases es
  {
    if es == [] {
      return n;
    } else {
      StepCounts(w, es[0], n);
      n' := IdsAreCounted(Step(w, es[0]), es[1..], n + if OpenedBy(w, es[0]).Some? then 1 else 0);
    }
  }

  // ---------- fidelity ----------

  /** Read bytes, then waiting bytes, are the received bytes up to the buffer's capacity. */
  ghost predicate StreamFaithful(s: Session, id: U32, delivered: seq<Byte>, received: seq<Byte>)
  {
    if id in s.streams
    then s.streams[id].delivered == delivered
      && delivered + s.streams[id].buffered == Take(received, CAPACITY)
    else delivered == [] && received == []
  }

  lemma BufferKeepsPrefix(s: Stream, received: seq<Byte>, data: seq<Byte>)
    requires s.delivered + s.buffered == Take(received, CAPACITY)
    ensures var t := Buffer(s, data); t.delivered + t.buffered == Take(received + data, CAPACITY)
  {
    var t := Buffer(s, data);
    assert t.delivered + t.buffered == Take(received, CAPACITY) + Take(data, Room(s));
    TakeAppend(received, data, CAPACITY);
  }

  lemma FrameFaithful(s: Session, f: Frame, id: U32, delivered: seq<Byte>, received: seq<Byte>)
    requires StreamFaithful(s, id, delivered, received)
    ensures StreamFaithful(OnFrame(s, f), id, delivered,
      received + if Known(s, id) then Part(f, id) else [])
  {
    if f.kind == DATA && f.id == id && Known(s, id) {
      BufferKeepsPrefix(if id in s.streams then s.streams[id] else NEW_STREAM, received, f.data);
    } else {
      assert received + [] == received;
    }
  }

  lemma ReadFaithful(w: World, e: Event, id: U32, delivered: seq<Byte>, received: seq<Byte>)
    requires e.Read? && StreamFaithful(w.session, id, delivered, received)
    ensures StreamFaithful(Step(w, e).session, id, delivered + ReadBy(w, e, id), received)
  {
    hide Parse, Encode, OnFrame;
    var s, d := w.session, ReadBy(w, e, id);
    if d == [] {
      assert delivered + d == delivered;
    } else {
      assert d + s.streams[id].buffered[|d|..] == s.streams[id].buffered;
      assert (delivered + d) + s.streams[id].buffered[|d|..] == delivered + s.streams[id].buffered;
    }
  }

  lemma StepFaithful(w: World, e: Event, id: U32, delivered: seq<Byte>, received: seq<Byte>)
    requires OpenedBy(w, e) != Some(id) || id !in w.session.streams
    requires StreamFaithful(w.session, id, delivered, received)
    ensures StreamFaithful(Step(w, e).session, id,
      delivered + ReadBy(w, e, id), received + ReceivedBy(w, e, id))
  {
    assert !e.Read? ==> delivered + ReadBy(w, e, id) == delivered;
    assert Taken(w, e).None? ==> received + ReceivedBy(w, e, id) == received;
    if Taken(w, e).Some? {
      FrameFaithful(w.session, Taken(w, e).value, id, delivered, received);
    } else if e.Read? {
      ReadFaithful(w, e, id, delivered, received);
    }
  }

  /** On every run each stream's reads and buffer are a prefix of what was received for it. */
  lemma {:induction false} Fidelity(w: World, es: seq<Event>, n: nat, id: U32, delivered: seq<Byte>, received: seq<Byte>)
    requires w.maxStreams < ID_SPACE && IdsCounted(w, n)
    requires StreamFaithful(w.session, id, delivered, received)
    ensures StreamFaithful(Run(w, es).session, id,
      delivered + Delivered(w, es, id), received + Received(w, es, id))
    decreases es
  {
    hide Step, Taken, ReadBy, ReceivedBy, IdsCounted, StreamFaithful, OpenedBy;
    if es == [] {
      assert delivered + [] == delivered && received + [] == received;
    } else {
      var e := es[0];
      StepCounts(w, e, n);
      StepFaithful(w, e, id, delivered, received);
      var d, r := delivered + ReadBy(w, e, id), received + ReceivedBy(w, e, id);
      Fidelity(Step(w, e), es[1..], n + if OpenedBy(w, e).Some? then 1 else 0, id, d, r);
      assert d + Delivered(Step(w, e), es[1..], id) == delivered + Delivered(w, es, id);
      assert r + Received(Step(w, e), es[1..], id) == received + Received(w, es, id);
    }
  }

  /** One round of the read loop. */
  lemma DrainStep(w: World)
    ensures !w.running || Parse(w.pipe).None? ==> Drain(w) == w && Pongs(w) == []
    ensures w.running && Parse(w.pipe).Some? ==>
      var (f, rest) := Parse(w.pipe).value;
      var next := World(rest, OnFrame(w.session, f), f.kind != GOAWAY, w.maxStreams);
      && Drain(w) == Drain(next)
      && Pongs(w) == (if f.kind == PING then Encode(Frame(0, PONG, f.data)) else []) + Pongs(next)
  {
    hide Parse, Encode, OnFrame;
    if Taken(w, Recv).Some? {
      var (f, rest) := Parse(w.pipe).value;
      assert Step(w, Recv) == World(rest, OnFrame(w.session, f), f.kind != GOAWAY, w.maxStreams);
    }
  }

  // ---------- end to end ----------

  lemma {:induction false} RunConcat(w: World, a: seq<Event>, b: seq<Event>)
    ensures Run(w, a + b) == Run(Run(w, a), b)
    ensures Handled(w, a + b) == Handled(w, a) + Handled(Run(w, a), b)
    decreases a
  {
    hide Step, Taken;
    if a == [] {
      assert a + b == b;
    } else {
      assert (a + b)[1..] == a[1..] + b;
      RunConcat(Step(w, a[0]), a[1..], b);
    }
  }

  function Recvs(k: nat): seq<Event>
  {
    seq(k, i => Recv)
  }

  /** The read loop is one of the runs: it receives until nothing more comes. */
  lemma {:induction false} DrainIsRun(w: World) returns (k: nat)
    ensures Run(w, Recvs(k)) == Drain(w)
    decreases |w.pipe|
  {
    if Taken(w, Recv).None? {
      return 0;
    } else {
      var rest := DrainIsRun(Step(w, Recv));
      assert Recvs(rest + 1)[1..] == Recvs(rest);
      return rest + 1;
    }
  }

  lemma StepKnows(w: World, e: Event, id: U32)
    requires Known(w.session, id)
    ensures Known(Step(w, e).session, id)
  {
  }

  /** Once a stream is known, what is received for it is a plain projection of the frames. */
  lemma {:induction false} ReceivedIsProjection(w: World, es: seq<Event>, id: U32)
    requires Known(w.session, id)
    ensures Received(w, es, id) == Project(Handled(w, es), id)
    decreases es
  {
    if es != [] {
      var t, later := Taken(w, es[0]), Handled(Step(w, es[0]), es[1..]);
      StepKnows(w, es[0], id);
      ReceivedIsProjection(Step(w, es[0]), es[1..], id);
      if t.Some? {
        assert ([t.value] + later)[1..] == later;
      } else {
        assert [] + later == later;
      }
    }
  }

  /** A stream nobody has read from or written to, or one the peer may still open. */
  ghost predicate Untouched(s: Session, id: U32)
  {
    if id in s.streams then s.streams[id].delivered == [] && s.streams[id].buffered == []
    else id % 2 == 0
  }

  /** From the moment a stream is opened (for the peer's even ids: from the start), whatever
      the interleaving, what its reader got and what its buffer holds is exactly the data sent for
      it in the frames handled since, up to the lifetime capacity of its buffer. */
  lemma EndToEnd(m: U32, before: seq<Event>, after: seq<Event>, id: U32)
    requires m < ID_SPACE && Sendable(before + after)
    requires Untouched(Run(Start(m), before).session, id)
    ensures var w := Run(Start(m), before);
      var h, mine := |Handled(Start(m), before)|, Handled(w, after);
      var end := Run(Start(m), before + after).session;
      && h + |mine| <= |Sent(before + after)|
      && mine == Sent(before + after)[h..h + |mine|]
      && if id in end.streams
         then Delivered(w, after, id) + end.streams[id].buffered == Take(Project(mine, id), CAPACITY)
         else Project(mine, id) == [] && Delivered(w, after, id) == []
  {
    hide Run, Handled, Received, Delivered, Sent, Project;
    var w := Run(Start(m), before);
    var n := IdsAreCounted(Start(m), before, 0);
    assert StreamFaithful(w.session, id, [], []);
    Fidelity(w, after, n, id, [], []);
    NoneBefore(Delivered(w, after, id));
    NoneBefore(Received(w, after, id));
    ReceivedIsProjection(w, after, id);
    RunConcat(Start(m), before, after);
    HandledAreSent(m, before + after);
  }

  lemma NoneBefore(s: seq<Byte>)
    ensures [] + s == s
  {
  }

  lemma HandledAreSent(m: U32, es: seq<Event>)
    requires Sendable(es)
    ensures Handled(Start(m), es) <= Sent(es)
  {
    PipeIsFrameQueue(Start(m), es, []);
    assert [] + Sent(es) == Sent(es);
  }

  // ---------- what the next read gives ----------

  function Least(a: nat, b: nat): nat
  {
    if a < b then a else b
  }

  lemma {:induction false} DeliveredNext(w: World, es: seq<Event>, e: Event, id: U32)
    ensures Delivered(w, es + [e], id) == Delivered(w, es, id) + ReadBy(Run(w, es), e, id)
    decreases es
  {
    hide Step, ReadBy;
    if es == [] {
      assert [] + [e] == [e] && [e][1..] == [];
      assert Delivered(w, [e], id) == ReadBy(w, e, id) + [] == [] + ReadBy(w, e, id);
    } else {
      assert (es + [e])[0] == es[0] && (es + [e])[1..] == es[1..] + [e];
      DeliveredNext(Step(w, es[0]), es[1..], e, id);
      assert ReadBy(w, es[0], id) + (Delivered(Step(w, es[0]), es[1..], id) + ReadBy(Run(w, es), e, id)) ==
        (ReadBy(w, es[0], id) + Delivered(Step(w, es[0]), es[1..], id)) + ReadBy(Run(w, es), e, id);
    }
  }

  lemma ReadGives(t: Stream, got: seq<Byte>, promised: seq<Byte>, size: nat)
    requires got + t.buffered == promised
    ensures var r := ReadStream(t, size).1;
      && got <= promised
      && (r == WasReset <==> t.reset)
      && (!t.reset ==>
            && (r == Eof <==> t.closed && got == promised)
            && (r == Blocked <==> !t.closed && got == promised)
            && (got != promised ==> r == Bytes(promised[|got|..|got| + Least(size, |promised| - |got|)])))
  {
    assert promised[|got|..] == t.buffered;
    if t.buffered == [] {
      assert got + [] == got;
    }
    assert promised[|got|..|got| + Least(size, |promised| - |got|)] == Take(t.buffered, size);
  }

  /** The reads of a stream that was not reset hand out what was sent for it, up to the capacity,
      piece by piece: each as much of the rest as fits, EOF only when the stream is closed and
      nothing is left, and waiting only when nothing is left of an open one. */
  lemma ReadsInOrder(m: U32, before: seq<Event>, after: seq<Event>, id: U32, size: nat)
    requires m < ID_SPACE && Sendable(before + after)
    requires Untouched(Run(Start(m), before).session, id)
    requires id in Run(Start(m), before + after).session.streams
    ensures var w := Run(Start(m), before);
      var t := Run(Start(m), before + after).session.streams[id];
      var promised, got := Take(Project(Handled(w, after), id), CAPACITY), Delivered(w, after, id);
      var r, more := ReadStream(t, size).1, Delivered(w, after + [Read(id, size)], id);
      && got <= promised
      && (r == WasReset <==> t.reset)
      && (!t.reset ==>
            && (r == Eof <==> t.closed && got == promised)
            && (r == Blocked <==> !t.closed && got == promised)
            && (got != promised ==> r == Bytes(promised[|got|..|got| + Least(size, |promised| - |got|)]))
            && more == promised[..|got| + Least(size, |promised| - |got|)])
  {
    hide Run, Handled, Delivered, Sent, Project, Sendable, Untouched;
    var w := Run(Start(m), before);
    var t := Run(Start(m), before + after).session.streams[id];
    var promised, got := Take(Project(Handled(w, after), id), CAPACITY), Delivered(w, after, id);
    EndToEnd(m, before, after, id);
    RunConcat(Start(m), before, after);
    DeliveredNext(w, after, Read(id, size), id);
    ReadGives(t, got, promised, size);
    var n := |got| + Least(size, |promised| - |got|);
    assert promised[..n] == promised[..|got|] + promised[|got|..n] && promised[..|got|] == got;
    if got == promised {
      assert got + [] == got;
    }
  }

  // ---------- what sets the flags of a stream ----------

  predicate ClosedBy(w: World, e: Event, id: U32)
  {
    || e == Shut(id)
    || (Taken(w, e).Some? && Taken(w, e).value.id == id && Taken(w, e).value.kind in {CLOSE, RESET})
  }

  predicate ResetBy(w: World, e: Event, id: U32)
  {
    || e == Abort(id)
    || (Taken(w, e).Some? && Taken(w, e).value.id == id && Taken(w, e).value.kind == RESET)
  }

  predicate EverClosed(w: World, es: seq<Event>, id: U32)
    decreases es
  {
    es != [] && (ClosedBy(w, es[0], id) || EverClosed(Step(w, es[0]), es[1..], id))
  }

  predicate EverReset(w: World, es: seq<Event>, id: U32)
    decreases es
  {
    es != [] && (ResetBy(w, es[0], id) || EverReset(Step(w, es[0]), es[1..], id))
  }

  lemma FrameFlags(s: Session, f: Frame, id: U32)
    requires id in s.streams
    ensures var s' := OnFrame(s, f);
      && id in s'.streams
      && (s'.streams[id].closed <==> s.streams[id].closed || (f.id == id && f.kind in {CLOSE, RESET}))
      && (s'.streams[id].reset <==> s.streams[id].reset || (f.id == id && f.kind == RESET))
  {
    hide Buffer;
    forall t: Stream, d {
      BufferKeepsFlags(t, d);
    }
  }

  lemma StepFlags(w: World, e: Event, id: U32)
    requires id in w.session.streams && OpenedBy(w, e) != Some(id)
    ensures id in Step(w, e).session.streams
    ensures Step(w, e).session.streams[id].closed <==> w.session.streams[id].closed || ClosedBy(w, e, id)
    ensures Step(w, e).session.streams[id].reset <==> w.session.streams[id].reset || ResetBy(w, e, id)
  {
    hide Parse, Encode, OnFrame;
    if Taken(w, e).Some? {
      FrameFlags(w.session, Taken(w, e).value, id);
    }
  }

  /** On every run a stream ends up closed, or reset, exactly when it was so before or a handled
      frame of its own or a local call said so. */
  lemma {:induction false} FlagsExactly(w: World, es: seq<Event>, n: nat, id: U32)
    requires w.maxStreams < ID_SPACE && IdsCounted(w, n) && id in w.session.streams
    ensures id in Run(w, es).session.streams
    ensures Run(w, es).session.streams[id].closed <==> w.session.streams[id].closed || EverClosed(w, es, id)
    ensures Run(w, es).session.streams[id].reset <==> w.session.streams[id].reset || EverReset(w, es, id)
    decreases es
  {
    hide Step, OpenedBy, IdsCounted, ClosedBy, ResetBy;
    if es != [] {
      StepCounts(w, es[0], n);
      assert OpenedBy(w, es[0]) != Some(id);
      StepFlags(w, es[0], id);
      FlagsExactly(Step(w, es[0]), es[1..], n + if OpenedBy(w, es[0]).Some? then 1 else 0, id);
    }
  }

  // ---------- pings ----------

  /** One pong for each ping before the goodbye, with its payload. */
  function Echoes(fs: seq<Frame>): seq<Frame>
  {
    if fs == [] || fs[0].kind == GOAWAY then []
    else (if fs[0].kind == PING then [Frame(0, PONG, fs[0].data)] else []) + Echoes(fs[1..])
  }

  lemma {:induction false} PongsEcho(w: World, fs: seq<Frame>)
    requires w.running && w.pipe == EncodeAll(fs) && AllSendable(fs)
    ensures Pongs(w) == EncodeAll(Echoes(fs))
    decreases fs
  {
    hide Pongs, Parse, Encode, OnFrame;
    DrainStep(w);
    if fs == [] {
      assert Parse([]).None? by { NothingParses(); }
    } else {
      var f, rest := fs[0], EncodeAll(fs[1..]);
      ParseEncode(f, rest);
      var next := World(rest, OnFrame(w.session, f), f.kind != GOAWAY, w.maxStreams);
      DrainStep(next);
      if f.kind != GOAWAY {
        PongsEcho(next, fs[1..]);
        var pong := Frame(0, PONG, f.data);
        assert ([pong] + Echoes(fs[1..]))[1..] == Echoes(fs[1..]);
        assert [] + Echoes(fs[1..]) == Echoes(fs[1..]) && [] + Pongs(next) == Pongs(next);
      }
    }
  }

  lemma NothingParses()
    ensures Parse([]).None?
  {
  }

  // ---------- streams the peer opens ----------

  function AcceptedBy(w: World, e: Event): seq<U32>
  {
    if e.Accept? then AsSeq(AcceptOne(w.session).1) else []
  }

  /** The ids handed out by AcceptStream. */
  function Accepted(w: World, es: seq<Event>): seq<U32>
    decreases es
  {
    if es == [] then [] else AcceptedBy(w, es[0]) + Accepted(Step(w, es[0]), es[1..])
  }

  /** The even id first seen at event e, if any. */
  function NewBy(w: World, e: Event): seq<U32>
  {
    match Taken(w, e)
    case None => []
    case Some(f) => if f.kind == DATA && f.id % 2 == 0 && f.id !in w.session.streams then [f.id] else []
  }

  /** The newly seen ids, without those that came while the backlog was full. */
  function Queued(w: World, es: seq<Event>): seq<U32>
    decreases es
  {
    if es == [] then []
    else
      (if |w.session.backlog| < BACKLOG then NewBy(w, es[0]) else []) + Queued(Step(w, es[0]), es[1..])
  }

  lemma RecvSession(w: World)
    ensures Step(w, Recv).session ==
      match Taken(w, Recv) case None => w.session case Some(f) => OnFrame(w.session, f)
  {
    hide Parse, OnFrame;
  }

  lemma FrameBacklog(s: Session, f: Frame)
    ensures var added := f.kind == DATA && f.id % 2 == 0 && f.id !in s.streams;
      && OnFrame(s, f).backlog == s.backlog + (if added && |s.backlog| < BACKLOG then [f.id] else [])
      && (added ==> f.id in OnFrame(s, f).streams)
  {
    hide Buffer;
    assert s.backlog + [] == s.backlog;
  }

  /** What event e does to the backlog and the table, s being the session afterwards. */
  ghost predicate BacklogStep(w: World, e: Event, s: Session)
  {
    var before := w.session.backlog;
    && AcceptedBy(w, e) + s.backlog == before + (if |before| < BACKLOG then NewBy(w, e) else [])
    && (|before| <= BACKLOG ==> |s.backlog| <= BACKLOG)
    && forall id | id in NewBy(w, e) :: id in s.streams
  }

  lemma RecvBacklog(w: World)
    ensures BacklogStep(w, Recv, Step(w, Recv).session)
  {
    hide Step, Taken, OnFrame;
    RecvSession(w);
    var after := Step(w, Recv).session.backlog;
    assert [] + after == after && w.session.backlog + [] == w.session.backlog;
    if Taken(w, Recv).Some? {
      FrameBacklog(w.session, Taken(w, Recv).value);
    }
  }

  lemma AcceptBacklog(w: World)
    ensures BacklogStep(w, Accept, Step(w, Accept).session)
  {
    hide Parse;
    var before := w.session.backlog;
    assert [] + before == before + [] == before;
    if before != [] {
      assert [before[0]] + before[1..] == before;
    }
  }

  lemma OtherBacklog(w: World, e: Event)
    requires !e.Recv? && !e.Accept?
    ensures BacklogStep(w, e, Step(w, e).session)
  {
    hide Parse, Encode, ReadStream;
    var before := w.session.backlog;
    assert [] + before == before + [] == before;
  }

  lemma StepBacklog(w: World, e: Event)
    ensures BacklogStep(w, e, Step(w, e).session)
  {
    hide Step, BacklogStep;
    match e
    case Recv => RecvBacklog(w);
    case Accept => AcceptBacklog(w);
    case _ => OtherBacklog(w, e);
  }

  lemma {:induction false} BacklogConserved(w: World, es: seq<Event>)
    ensures Accepted(w, es) + Run(w, es).session.backlog == w.session.backlog + Queued(w, es)
    ensures |w.session.backlog| <= BACKLOG ==> |Run(w, es).session.backlog| <= BACKLOG
    decreases es
  {
    hide Step, AcceptedBy, NewBy;
    var backlog := w.session.backlog;
    if es == [] {
      assert [] + backlog == backlog + [];
    } else {
      var e, w' := es[0], Step(w, es[0]);
      StepBacklog(w, e);
      BacklogConserved(w', es[1..]);
      var a, q := AcceptedBy(w, e), if |backlog| < BACKLOG then NewBy(w, e) else [];
      assert (a + Accepted(w', es[1..])) + Run(w', es[1..]).session.backlog ==
        a + (w'.session.backlog + Queued(w', es[1..])) == (backlog + q) + Queued(w', es[1..]);
      assert backlog + (q + Queued(w', es[1..])) == (backlog + q) + Queued(w', es[1..]);
    }
  }

  lemma {:induction false} QueuedOnce(w: World, es: seq<Event>)
    ensures forall i | 0 <= i < |Queued(w, es)| :: Queued(w, es)[i] % 2 == 0 && Queued(w, es)[i] !in w.session.streams
    ensures forall i, j | 0 <= i < j < |Queued(w, es)| :: Queued(w, es)[i] != Queued(w, es)[j]
    decreases es
  {
    hide Step, OpenedBy;
    if es != [] {
      StepBacklog(w, es[0]);
      StepIds(w, es[0]);
      QueuedOnce(Step(w, es[0]), es[1..]);
    }
  }

  /** The streams accepted so far and then those waiting are the ids the peer has newly used, in
      order, without exactly those that came while 32 were waiting; no id comes twice. */
  lemma AcceptedInOrder(m: U32, es: seq<Event>)
    ensures var all := Accepted(Start(m), es) + Run(Start(m), es).session.backlog;
      && all == Queued(Start(m), es)
      && (forall i | 0 <= i < |all| :: all[i] % 2 == 0)
      && (forall i, j | 0 <= i < j < |all| :: all[i] != all[j])
    ensures |Run(Start(m), es).session.backlog| <= BACKLOG
  {
    hide Run, Queued, Accepted;
    BacklogConserved(Start(m), es);
    QueuedOnce(Start(m), es);
    assert [] + Queued(Start(m), es) == Queued(Start(m), es);
  }

  // ---------- closing ----------

  /** The stream is registered, and closed or reset by the peer. */
  ghost predicate Ended(s: Session, id: U32, reset: bool)
  {
    id in s.streams && s.streams[id].closed && (reset ==> s.streams[id].reset)
  }

  lemma FrameEnds(s: Session, f: Frame)
    requires f.id in s.streams && (f.kind == CLOSE || f.kind == RESET)
    ensures Ended(OnFrame(s, f), f.id, f.kind == RESET)
  {
  }

  lemma FrameKeepsEnded(s: Session, f: Frame, id: U32, reset: bool)
    requires Ended(s, id, reset)
    ensures Ended(OnFrame(s, f), id, reset)
  {
    hide Buffer;
    assert forall t: Stream, d :: Buffer(t, d).closed == t.closed && Buffer(t, d).reset == t.reset by {
      forall t: Stream, d {
        BufferKeepsFlags(t, d);
      }
    }
  }

  lemma BufferKeepsFlags(t: Stream, data: seq<Byte>)
    ensures Buffer(t, data).closed == t.closed && Buffer(t, data).reset == t.reset
  {
  }

  lemma StepKeepsEnded(w: World, e: Event, id: U32, reset: bool)
    requires Ended(w.session, id, reset) && OpenedBy(w, e) != Some(id)
    ensures Ended(Step(w, e).session, id, reset)
  {
    hide Parse, Encode, OnFrame;
    if Taken(w, e).Some? {
      FrameKeepsEnded(w.session, Taken(w, e).value, id, reset);
    }
  }

  lemma {:induction false} EndedStays(w: World, es: seq<Event>, n: nat, id: U32, reset: bool)
    requires w.maxStreams < ID_SPACE && IdsCounted(w, n) && Ended(w.session, id, reset)
    ensures Ended(Run(w, es).session, id, reset)
    decreases es
  {
    hide Step, OpenedBy, IdsCounted;
    if es != [] {
      StepCounts(w, es[0], n);
      assert OpenedBy(w, es[0]) != Some(id);
      StepKeepsEnded(w, es[0], id, reset);
      EndedStays(Step(w, es[0]), es[1..], n + if OpenedBy(w, es[0]).Some? then 1 else 0, id, reset);
    }
  }

  /** On every run in which the read loop takes a close or reset of a stream in the table, no
      later read of that stream waits: it gives buffered bytes or EOF, and after a reset it gives
      nothing but the reset. */
  lemma EndedReadsNeverWait(m: U32, before: seq<Event>, after: seq<Event>, f: Frame, size: nat)
    requires m < ID_SPACE && (f.kind == CLOSE || f.kind == RESET)
    requires var w := Run(Start(m), before); Taken(w, Recv) == Some(f) && f.id in w.session.streams
    ensures var s := Run(Start(m), before + ([Recv] + after)).session;
      && f.id in s.streams
      && var r := ReadStream(s.streams[f.id], size).1;
         r != Blocked && (f.kind == RESET ==> r == WasReset)
  {
    hide Run, Taken, OnFrame, Open, AcceptOne;
    var w := Run(Start(m), before);
    var n := IdsAreCounted(Start(m), before, 0);
    RunConcat(Start(m), before, [Recv] + after);
    RunFirst(w, Recv, after);
    RecvSession(w);
    StepCounts(w, Recv, n);
    FrameEnds(w.session, f);
    EndedStays(Step(w, Recv), after, n, f.id, f.kind == RESET);
  }

  lemma RunFirst(w: World, e: Event, es: seq<Event>)
    ensures Run(w, [e] + es) == Run(Step(w, e), es)
  {
    hide Step;
    assert ([e] + es)[1..] == es;
  }

  // ---------- when local ids are never reused ----------

  ghost predicate OpensFresh(w: World)
  {
    OpenedBy(w, OpenLocal).Some? ==> OpenedBy(w, OpenLocal).value !in w.session.streams
  }

  /** A run that opens n local streams and lets the peer open k. */
  function Crowd(n: nat, k: nat): seq<Event>
    requires n <= ID_SPACE && k <= ID_SPACE
    decreases n + k
  {
    if k > 0 then Crowd(n, k - 1) + [Send(Frame(2 * (k - 1), DATA, [])), Recv]
    else if n > 0 then Crowd(n - 1, k) + [OpenLocal]
    else []
  }

  ghost predicate Crowded(w: World, n: nat, k: nat)
  {
    var s := w.session;
    && w.pipe == [] && w.running
    && |s.streams| == n + k
    && s.nextId == Wrap32(1 + 2 * n)
    && forall id: U32 :: id in s.streams <==> if id % 2 == 1 then id < 1 + 2 * n else id < 2 * k
  }

  lemma OpenCrowds(w: World, n: nat)
    requires n < w.maxStreams && n < ID_SPACE && Crowded(w, n, 0)
    ensures Crowded(Step(w, OpenLocal), n + 1, 0)
    ensures Step(w, OpenLocal).maxStreams == w.maxStreams
  {
    hide Parse, Encode, Buffer, ReadStream, OnFrame, AcceptOne, Taken;
  }

  lemma SendReceive(w: World, f: Frame)
    requires w.pipe == [] && w.running && |f.data| <= MAX_PAYLOAD && f.kind != GOAWAY
    ensures Step(Step(w, Send(f)), Recv) == w.(session := OnFrame(w.session, f))
  {
    ParseEncode(f, []);
    assert Encode(f) + [] == Encode(f) == [] + Encode(f);
  }

  lemma PeerCrowds(w: World, n: nat, k: nat)
    requires k < ID_SPACE && Crowded(w, n, k)
    ensures Crowded(w.(session := OnData(w.session, 2 * k, [])), n, k + 1)
  {
  }

  lemma RunShort(w: World, d: Event, e: Event)
    ensures Run(w, []) == w
    ensures Run(w, [d]) == Step(w, d)
    ensures Run(w, [d, e]) == Step(Step(w, d), e)
  {
    hide Step;
    assert [d, e][1..] == [e];
    assert Run(w, [d, e]) == Run(Step(w, d), [e]);
  }

  lemma {:induction false} CrowdRuns(m: U32, n: nat, k: nat)
    requires ID_SPACE <= m && n <= ID_SPACE && k <= ID_SPACE
    ensures Run(Start(m), Crowd(n, k)).maxStreams == m
    ensures Crowded(Run(Start(m), Crowd(n, k)), n, k)
    decreases n + k
  {
    hide Step, OnData, Parse, Encode, Handled;
    if k > 0 {
      CrowdRuns(m, n, k - 1);
      var f := Frame(2 * (k - 1), DATA, []);
      var w := Run(Start(m), Crowd(n, k - 1));
      RunConcat(Start(m), Crowd(n, k - 1), [Send(f), Recv]);
      SendReceive(w, f);
      PeerCrowds(w, n, k - 1);
      RunShort(w, Send(f), Recv);
    } else if n > 0 {
      CrowdRuns(m, n - 1, 0);
      RunConcat(Start(m), Crowd(n - 1, 0), [OpenLocal]);
      OpenCrowds(Run(Start(m), Crowd(n - 1, 0)), n - 1);
      RunShort(Run(Start(m), Crowd(n - 1, 0)), OpenLocal, OpenLocal);
    }
  }

  function Locals(n: nat): seq<Event>
  {
    seq(n, i => OpenLocal)
  }

  lemma {:induction false} LocalsCrowd(m: U32, n: nat)
    requires m < ID_SPACE
    ensures Run(Start(m), Locals(n)).maxStreams == m
    ensures Crowded(Run(Start(m), Locals(n)), Least(n, m), 0)
  {
    hide Step, Handled;
    if n > 0 {
      LocalsCrowd(m, n - 1);
      var w := Run(Start(m), Locals(n - 1));
      assert Locals(n) == Locals(n - 1) + [OpenLocal];
      RunConcat(Start(m), Locals(n - 1), [OpenLocal]);
      RunShort(w, OpenLocal, OpenLocal);
      if n - 1 < m {
        OpenCrowds(w, n - 1);
      } else {
        FullRefuses(w);
      }
    }
  }

  lemma FullRefuses(w: World)
    requires |w.session.streams| == w.maxStreams
    ensures Step(w, OpenLocal) == w && OpenedBy(w, OpenLocal) == None
  {
  }

  /** With nobody else opening streams, OpenStream gives out 1, 3, 5, ... until the limit. */
  lemma OpensUpToLimit(m: U32, n: nat)
    requires m < ID_SPACE
    ensures OpenedBy(Run(Start(m), Locals(n)), OpenLocal) == if n < m then Some(1 + 2 * n) else None
    ensures forall id: U32 :: id in Run(Start(m), Locals(n)).session.streams <==> id % 2 == 1 && id < 1 + 2 * Least(n, m)
  {
    hide Run;
    LocalsCrowd(m, n);
  }

  /** OpenStream never reuses an id still in the table, exactly below 2^31 allowed streams:
      at that bound the table can fill up and its size, as a uint32, wraps to 0. */
  lemma FreshIdsBound(m: U32)
    ensures (forall es: seq<Event> :: OpensFresh(Run(Start(m), es))) <==> m < ID_SPACE
  {
    if m < ID_SPACE {
      forall es: seq<Event> ensures OpensFresh(Run(Start(m), es)) {
        var n := IdsAreCounted(Start(m), es, 0);
        StepCounts(Run(Start(m), es), OpenLocal, n);
      }
    } else {
      CrowdRuns(m, ID_SPACE, ID_SPACE);
      assert !OpensFresh(Run(Start(m), Crowd(ID_SPACE, ID_SPACE)));
    }
  }
}
