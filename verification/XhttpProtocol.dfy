/** The frame protocol of app/transport/xhttp.go on values. It is the multiplexer's sibling:
    32-bit lengths, stream buffers without a bound, no reset flag of its own. */
module XhttpProtocol {
  import opened Bytes

  const HEADER: nat := 12
  const DATA: Byte := 1
  const PING: Byte := 2
  const PONG: Byte := 3
  const CLOSE: Byte := 4
  const RESET: Byte := 5
  const GOAWAY: Byte := 6

  datatype Frame = Frame(kind: Byte, id: U32, flags: Byte, data: seq<Byte>)

  function Header(kind: Byte, id: U32, flags: Byte, n: nat): (b: seq<Byte>)
    ensures |b| == HEADER
  {
    [kind] + Be32(id) + Be32(n) + [flags, 0, 0]
  }

  function Encode(f: Frame): (b: seq<Byte>)
    ensures |b| == HEADER + |f.data|
  {
    Header(f.kind, f.id, f.flags, |f.data|) + f.data
  }

  function Parse(b: seq<Byte>): (r: Option<(Frame, seq<Byte>)>)
    ensures r.Some? ==> |r.value.1| + HEADER + |r.value.0.data| == |b|
  {
    if |b| < HEADER then None
    else
      var n: nat := GetBe32(b, 5);
      if |b| < HEADER + n then None
      else Some((Frame(b[0], GetBe32(b, 1), b[9], b[HEADER..HEADER + n]), b[HEADER + n..]))
  }

  /** Exactly the frames below 4 GiB come back. */
  lemma ParseEncode(f: Frame, rest: seq<Byte>)
    ensures Parse(Encode(f) + rest) == Some((f, rest)) <==> |f.data| < 0x1_0000_0000
  {
    hide Be32, GetBe32;
    var b := Encode(f) + rest;
    assert b[1..5] == Be32(f.id);
    assert b[5..9] == Be32(|f.data|);
    Be32RoundTrip(b, 1, f.id);
    Be32RoundTrip(b, 5, |f.data|);
    if |f.data| < 0x1_0000_0000 {
      assert b[HEADER..HEADER + |f.data|] == f.data;
      assert b[HEADER + |f.data|..] == rest;
    }
  }

  /** The bytes of a frame, one by one. */
  lemma WireBytes(f: Frame)
    ensures var b := Encode(f);
      && b[0] == f.kind && Number(b[1..5]) == f.id && Number(b[5..9]) == |f.data| % 0x1_0000_0000
      && b[9] == f.flags && b[10] == b[11] == 0 && b[12..] == f.data
  {
    hide Be32, Number;
    var b := Encode(f);
    assert b[1..5] == Be32(f.id) && b[5..9] == Be32(|f.data|);
    Be32Spells(f.id);
    Be32Spells(|f.data|);
  }

  function EncodeAll(fs: seq<Frame>): seq<Byte>
  {
    if fs == [] then [] else Encode(fs[0]) + EncodeAll(fs[1..])
  }

  // ---------- streams and sessions ----------

  datatype Stream = Stream(delivered: seq<Byte>, buffered: seq<Byte>, closed: bool)

  const NEW_STREAM := Stream([], [], false)

  datatype ReadResult = Bytes(data: seq<Byte>) | Eof | Blocked

  function ReadStream(s: Stream, size: nat): (Stream, ReadResult)
  {
    if s.buffered == [] then (s, if s.closed then Eof else Blocked)
    else
      var d := Take(s.buffered, size);
      (Stream(s.delivered + d, s.buffered[|d|..], s.closed), Bytes(d))
  }

  datatype Session = Session(streams: map<U32, Stream>, nextId: U32)

  const NEW_SESSION := Session(map[], 1)

  predicate Known(s: Session, id: U32)
  {
    id in s.streams || id % 2 == 0
  }

  function Lookup(s: Session, id: U32): Stream
  {
    if id in s.streams then s.streams[id] else NEW_STREAM
  }

  function Put(s: Session, id: U32, t: Stream): Session
  {
    s.(streams := s.streams[id := t])
  }

  function Open(s: Session): Session
  {
    Session(s.streams[s.nextId := NEW_STREAM], Wrap32(s.nextId + 2))
  }

  function OnFrame(s: Session, f: Frame): Session
  {
    if f.kind == DATA && Known(s, f.id) then
      var t := Lookup(s, f.id);
      Put(s, f.id, t.(buffered := t.buffered + f.data))
    else if (f.kind == CLOSE || f.kind == RESET) && f.id in s.streams then
      Put(s, f.id, s.streams[f.id].(closed := true))
    else s
  }

  function Part(f: Frame, id: U32): seq<Byte>
  {
    if f.kind == DATA && f.id == id then f.data else []
  }

  function Project(fs: seq<Frame>, id: U32): seq<Byte>
  {
    if fs == [] then [] else Part(fs[0], id) + Project(fs[1..], id)
  }

  // ---------- runs ----------

  datatype Event = Recv | Read(id: U32, size: nat) | OpenLocal | Shut(id: U32)

  /** The receiving end: the bytes still on the wire and the session. */
  datatype World = World(pipe: seq<Byte>, session: Session, running: bool)

  function Taken(w: World, e: Event): Option<Frame>
  {
    if e.Recv? && w.running && Parse(w.pipe).Some? then Some(Parse(w.pipe).value.0) else None
  }

  function Step(w: World, e: Event): World
  {
    var s := w.session;
    match e
    case Recv =>
      if Taken(w, e).None? then w
      else
        var (f, rest) := Parse(w.pipe).value;
        World(rest, OnFrame(s, f), f.kind != GOAWAY)
    case Read(id, size) => if id in s.streams then w.(session := Put(s, id, ReadStream(s.streams[id], size).0)) else w
    case OpenLocal => w.(session := Open(s))
    case Shut(id) => if id in s.streams then w.(session := Put(s, id, s.streams[id].(closed := true))) else w
  }

  function Run(w: World, es: seq<Event>): World
    decreases es
  {
    if es == [] then w else Run(Step(w, es[0]), es[1..])
  }

  function Handled(w: World, es: seq<Event>): seq<Frame>
    decreases es
  {
    if es == [] then []
    else
      (match Taken(w, es[0]) case None => [] case Some(f) => [f]) + Handled(Step(w, es[0]), es[1..])
  }

  function ReadBy(w: World, e: Event, id: U32): seq<Byte>
  {
    var s := w.session.streams;
    if e.Read? && e.id == id && id in s && ReadStream(s[id], e.size).1.Bytes?
    then ReadStream(s[id], e.size).1.data else []
  }

  function Delivered(w: World, es: seq<Event>, id: U32): seq<Byte>
    decreases es
  {
    if es == [] then [] else ReadBy(w, es[0], id) + Delivered(Step(w, es[0]), es[1..], id)
  }

  function Opens(es: seq<Event>): nat
  {
    if es == [] then 0 else (if es[0].OpenLocal? then 1 else 0) + Opens(es[1..])
  }

  /** The read loop: frames are taken until none is complete or the peer says goodbye. */
  function Drain(w: World): World
    decreases |w.pipe|
  {
    if Taken(w, Recv).None? then w else Drain(Step(w, Recv))
  }

  function Pongs(w: World): seq<Byte>
    decreases |w.pipe|
  {
    match Taken(w, Recv)
    case None => []
    case Some(f) => (if f.kind == PING then Encode(Frame(PONG, 0, 0, f.data)) else []) + Pongs(Step(w, Recv))
  }

  /** One round of the read loop. */
  lemma DrainStep(w: World)
    ensures !w.running || Parse(w.pipe).None? ==> Drain(w) == w && Pongs(w) == []
    ensures w.running && Parse(w.pipe).Some? ==>
      var (f, rest) := Parse(w.pipe).value;
      var next := World(rest, OnFrame(w.session, f), f.kind != GOAWAY);
      && Drain(w) == Drain(next)
      && Pongs(w) == (if f.kind == PING then Encode(Frame(PONG, 0, 0, f.data)) else []) + Pongs(next)
  {
    hide Parse, Encode, OnFrame;
    if Taken(w, Recv).Some? {
      var (f, rest) := Parse(w.pipe).value;
      assert Step(w, Recv) == World(rest, OnFrame(w.session, f), f.kind != GOAWAY);
    }
  }

  // ---------- stream ids ----------

  const ID_SPACE: nat := 0x8000_0000

  /** n local streams were opened and their ids are the first n odd numbers. */
  ghost predicate IdsCounted(s: Session, n: nat)
  {
    && s.nextId == Wrap32(1 + 2 * n)
    && forall id: U32 | id % 2 == 1 && id in s.streams :: id < 1 + 2 * n
  }

  /** Each open uses the next odd number, so ids first repeat at the 2^31st further open. */
  lemma {:induction false} IdsAreCounted(w: World, es: seq<Event>, n: nat)
    requires IdsCounted(w.session, n)
    ensures IdsCounted(Run(w, es).session, n + Opens(es))
    decreases es
  {
    if es != [] {
      StepCounts(w, es[0], n);
      IdsAreCounted(Step(w, es[0]), es[1..], n + if es[0].OpenLocal? then 1 else 0);
    }
  }

  lemma FrameIds(s: Session, f: Frame)
    ensures OnFrame(s, f).nextId == s.nextId
    ensures forall id: U32 | id % 2 == 1 && id in OnFrame(s, f).streams :: id in s.streams
  {
  }

  lemma OpenCounts(s: Session, n: nat)
    requires IdsCounted(s, n)
    ensures IdsCounted(Open(s), n + 1)
  {
    Wrap32Add(1 + 2 * n, 2);
  }

  lemma OtherIds(w: World, e: Event)
    requires !e.OpenLocal?
    ensures Step(w, e).session.nextId == w.session.nextId
    ensures forall id: U32 | id % 2 == 1 && id in Step(w, e).session.streams :: id in w.session.streams
  {
    hide Parse, OnFrame, ReadStream;
    if Taken(w, e).Some? {
      FrameIds(w.session, Taken(w, e).value);
    }
  }

  lemma StepCounts(w: World, e: Event, n: nat)
    requires IdsCounted(w.session, n)
    ensures IdsCounted(Step(w, e).session, n + if e.OpenLocal? then 1 else 0)
  {
    hide Taken, OnFrame, Open, ReadStream;
    if e.OpenLocal? {
      OpenCounts(w.session, n);
    } else {
      OtherIds(w, e);
    }
  }

  /** Two opens of one session hand out the same id exactly when 2^31 divides their distance. */
  lemma OpenedIdsDistinct(i: nat, j: nat)
    ensures Wrap32(1 + 2 * i) % 2 == 1
    ensures Wrap32(1 + 2 * i) == Wrap32(1 + 2 * j) <==> (i - j) % ID_SPACE == 0
  {
    var a, b := 1 + 2 * i, 1 + 2 * j;
    if Wrap32(a) == Wrap32(b) {
      var q := a / 0x1_0000_0000 - b / 0x1_0000_0000;
      assert i - j == ID_SPACE * q;
      NoRemainder(q);
    } else if (i - j) % ID_SPACE == 0 {
      var q := (i - j) / ID_SPACE;
      assert a == b + 0x1_0000_0000 * q;
      SameRemainder(b, q);
      assert false;
    }
  }

  lemma NoRemainder(q: int)
    ensures ID_SPACE * q % ID_SPACE == 0
  {
  }

  lemma SameRemainder(b: nat, q: int)
    ensures (b + 0x1_0000_0000 * q) % 0x1_0000_0000 == b % 0x1_0000_0000
  {
  }

  // ---------- losslessness ----------

  ghost predicate Lossless(s: Session, id: U32, delivered: seq<Byte>, received: seq<Byte>)
  {
    && Lookup(s, id).delivered == delivered
    && delivered + Lookup(s, id).buffered == received
  }

  lemma StepLossless(w: World, e: Event, id: U32, delivered: seq<Byte>, received: seq<Byte>)
    requires Known(w.session, id) && Lossless(w.session, id, delivered, received)
    requires !(e.OpenLocal? && w.session.nextId == id && id in w.session.streams)
    ensures Known(Step(w, e).session, id)
    ensures Lossless(Step(w, e).session, id, delivered + ReadBy(w, e, id),
      received + match Taken(w, e) case None => [] case Some(f) => Part(f, id))
  {
    hide Parse;
    var t := Lookup(w.session, id);
    assert delivered + [] == delivered && received + [] == received;
    match e
    case Recv =>
      if Taken(w, e).Some? {
        var f := Taken(w, e).value;
        assert delivered + (t.buffered + f.data) == (delivered + t.buffered) + f.data;
      }
    case Read(i, size) =>
      if i == id && i in w.session.streams && t.buffered != [] {
        var d := Take(t.buffered, size);
        assert d + t.buffered[|d|..] == t.buffered;
        assert (delivered + d) + t.buffered[|d|..] == delivered + t.buffered;
      }
    case _ =>
  }

  lemma {:induction false} RunLossless(w: World, es: seq<Event>, n: nat, id: U32, delivered: seq<Byte>, received: seq<Byte>)
    requires n + Opens(es) <= ID_SPACE && IdsCounted(w.session, n)
    requires Known(w.session, id) && Lossless(w.session, id, delivered, received)
    ensures Lossless(Run(w, es).session, id,
      delivered + Delivered(w, es, id), received + Project(Handled(w, es), id))
    decreases es
  {
    if es == [] {
      assert delivered + [] == delivered && received + [] == received;
    } else {
      hide Step, ReadBy, Taken, Part, Lossless, Known, IdsCounted;
      var e, w' := es[0], Step(w, es[0]);
      if e.OpenLocal? {
        FreshOpen(w, n);
      }
      StepLossless(w, e, id, delivered, received);
      StepCounts(w, e, n);
      var d := delivered + ReadBy(w, e, id);
      var more := match Taken(w, e) case None => [] case Some(f) => Part(f, id);
      RunLossless(w', es[1..], n + if e.OpenLocal? then 1 else 0, id, d, received + more);
      ProjectCons(Taken(w, e), Handled(w', es[1..]), id);
      Associative(delivered, ReadBy(w, e, id), Delivered(w', es[1..], id));
      Associative(received, more, Project(Handled(w', es[1..]), id));
    }
  }

  lemma FreshOpen(w: World, n: nat)
    requires IdsCounted(w.session, n) && n < ID_SPACE
    ensures w.session.nextId !in w.session.streams
  {
  }

  lemma ProjectCons(t: Option<Frame>, fs: seq<Frame>, id: U32)
    ensures Project((match t case None => [] case Some(f) => [f]) + fs, id) ==
      (match t case None => [] case Some(f) => Part(f, id)) + Project(fs, id)
  {
    if t.Some? {
      assert ([t.value] + fs)[1..] == fs;
    } else {
      assert [] + fs == fs;
    }
  }

  lemma Associative<T>(a: seq<T>, b: seq<T>, c: seq<T>)
    ensures (a + b) + c == a + (b + c)
  {
  }

  // ---------- closing ----------

  ghost predicate Closed(s: Session, id: U32)
  {
    id in s.streams && s.streams[id].closed
  }

  lemma FrameCloses(s: Session, f: Frame)
    requires f.id in s.streams && (f.kind == CLOSE || f.kind == RESET)
    ensures Closed(OnFrame(s, f), f.id)
  {
  }

  lemma StepKeepsClosed(w: World, e: Event, id: U32)
    requires Closed(w.session, id) && !(e.OpenLocal? && w.session.nextId == id)
    ensures Closed(Step(w, e).session, id)
  {
    hide Parse;
  }

  lemma {:induction false} ClosedStays(w: World, es: seq<Event>, n: nat, id: U32)
    requires n + Opens(es) <= ID_SPACE && IdsCounted(w.session, n) && Closed(w.session, id)
    ensures Closed(Run(w, es).session, id)
    decreases es
  {
    hide Step, IdsCounted;
    if es != [] {
      if es[0].OpenLocal? {
        FreshOpen(w, n);
      }
      StepKeepsClosed(w, es[0], id);
      StepCounts(w, es[0], n);
      ClosedStays(Step(w, es[0]), es[1..], n + if es[0].OpenLocal? then 1 else 0, id);
    }
  }

  // ---------- end to end ----------

  ghost predicate Sendable(fs: seq<Frame>)
  {
    forall i | 0 <= i < |fs| :: |fs[i].data| < 0x1_0000_0000
  }

  lemma {:induction false} HandledInOrder(w: World, es: seq<Event>, fs: seq<Frame>)
    requires w.pipe == EncodeAll(fs) && Sendable(fs)
    ensures Handled(w, es) <= fs
    decreases es
  {
    if es != [] {
      hide OnFrame, Encode, ReadStream, Open;
      var w' := Step(w, es[0]);
      if Taken(w, es[0]).Some? {
        assert fs != [] by {
          assert fs == [] ==> w.pipe == [] && Parse([]).None?;
        }
        ParseEncode(fs[0], EncodeAll(fs[1..]));
        HandledInOrder(w', es[1..], fs[1..]);
      } else {
        assert w'.pipe == w.pipe;
        HandledInOrder(w', es[1..], fs);
      }
    }
  }

  lemma {:induction false} RunConcat(w: World, a: seq<Event>, b: seq<Event>)
    ensures Run(w, a + b) == Run(Run(w, a), b)
    ensures Handled(w, a + b) == Handled(w, a) + Handled(Run(w, a), b)
    ensures Opens(a + b) == Opens(a) + Opens(b)
    decreases a
  {
    if a == [] {
      assert a + b == b;
    } else {
      hide Step, Taken;
      assert (a + b)[0] == a[0] && (a + b)[1..] == a[1..] + b;
      var w', first := Step(w, a[0]), match Taken(w, a[0]) case None => [] case Some(f) => [f];
      RunConcat(w', a[1..], b);
      Associative(first, Handled(w', a[1..]), Handled(Run(w', a[1..]), b));
    }
  }

  /** From the moment a stream is known, its reads and its buffer are all the data the peer
      sent for it in the frames handled since, and EOF comes only when all of it was read. */
  lemma EndToEnd(fs: seq<Frame>, before: seq<Event>, after: seq<Event>, id: U32, size: nat)
    requires Sendable(fs) && Opens(before + after) <= ID_SPACE
    requires var s := Run(World(EncodeAll(fs), NEW_SESSION, true), before).session;
      Known(s, id) && Lookup(s, id).delivered == [] && Lookup(s, id).buffered == []
    ensures var start := World(EncodeAll(fs), NEW_SESSION, true);
      var w := Run(start, before);
      var mine := Project(Handled(w, after), id);
      var t := Lookup(Run(start, before + after).session, id);
      && Handled(start, before) + Handled(w, after) <= fs
      && Delivered(w, after, id) + t.buffered == mine
      && (ReadStream(t, size).1 == Eof ==> t.closed && Delivered(w, after, id) == mine)
  {
    hide Run, Handled, Delivered, Project, EncodeAll, Opens;
    var start := World(EncodeAll(fs), NEW_SESSION, true);
    var w := Run(start, before);
    RunConcat(start, before, after);
    HandledInOrder(start, before + after, fs);
    IdsAreCounted(start, before, 0);
    RunLossless(w, after, Opens(before), id, [], []);
    assert forall s: seq<Byte> :: [] + s == s && s + [] == s;
  }

  /** On every run in which the read loop takes a close or reset of a stream in the table, no
      later read of that stream waits. */
  lemma ClosedReadsNeverWait(pipe: seq<Byte>, before: seq<Event>, after: seq<Event>, f: Frame, size: nat)
    requires f.kind == CLOSE || f.kind == RESET
    requires Opens(before + ([Recv] + after)) <= ID_SPACE
    requires var w := Run(World(pipe, NEW_SESSION, true), before); Taken(w, Recv) == Some(f) && f.id in w.session.streams
    ensures var s := Run(World(pipe, NEW_SESSION, true), before + ([Recv] + after)).session;
      f.id in s.streams && ReadStream(s.streams[f.id], size).1 != Blocked
  {
    hide Run, Taken, OnFrame, Open, Opens, IdsCounted;
    var start := World(pipe, NEW_SESSION, true);
    var w := Run(start, before);
    RunConcat(start, before, [Recv] + after);
    RunFirst(w, Recv, after, f.id);
    assert IdsCounted(NEW_SESSION, 0) by { NoIds(); }
    IdsAreCounted(start, before, 0);
    TakenHandled(w, f);
    StepCounts(w, Recv, Opens(before));
    FrameCloses(w.session, f);
    ClosedStays(Step(w, Recv), after, Opens(before), f.id);
  }

  lemma NoIds()
    ensures IdsCounted(NEW_SESSION, 0)
  {
  }

  lemma RunFirst(w: World, e: Event, es: seq<Event>, id: U32)
    ensures Run(w, [e] + es) == Run(Step(w, e), es)
    ensures Opens([e] + es) == (if e.OpenLocal? then 1 else 0) + Opens(es)
    ensures Delivered(w, [e] + es, id) == ReadBy(w, e, id) + Delivered(Step(w, e), es, id)
    ensures Handled(w, [e] + es) == (match Taken(w, e) case None => [] case Some(f) => [f]) + Handled(Step(w, e), es)
  {
    hide Step, Taken, ReadBy;
    assert ([e] + es)[1..] == es;
  }

  lemma TakenHandled(w: World, f: Frame)
    requires Taken(w, Recv) == Some(f)
    ensures Step(w, Recv).session == OnFrame(w.session, f)
  {
  }

  // ---------- what the next read gives ----------

  function Least(a: nat, b: nat): nat
  {
    if a < b then a else b
  }

  lemma {:induction false} DeliveredNext(w: World, es: seq<Event>, e: Event, id: U32)
    ensures Delivered(w, es + [e], id) == Delivered(w, es, id) + ReadBy(Run(w, es), e, id)
    decreases es
  {
    hide Step, ReadBy;
    if es == [] {
      assert [] + [e] == [e] && [e][1..] == [];
      assert Delivered(w, [e], id) == ReadBy(w, e, id) + [] == [] + ReadBy(w, e, id);
    } else {
      assert (es + [e])[0] == es[0] && (es + [e])[1..] == es[1..] + [e];
      DeliveredNext(Step(w, es[0]), es[1..], e, id);
      Associative(ReadBy(w, es[0], id), Delivered(Step(w, es[0]), es[1..], id), ReadBy(Run(w, es), e, id));
    }
  }

  lemma ReadGives(t: Stream, got: seq<Byte>, sent: seq<Byte>, size: nat)
    requires got + t.buffered == sent
    ensures var r := ReadStream(t, size).1;
      && got <= sent
      && (r == Eof <==> t.closed && got == sent)
      && (r == Blocked <==> !t.closed && got == sent)
      && (got != sent ==> r == Bytes(sent[|got|..|got| + Least(size, |sent| - |got|)]))
  {
    assert sent[|got|..] == t.buffered;
    if t.buffered == [] {
      assert got + [] == got;
    }
    assert sent[|got|..|got| + Least(size, |sent| - |got|)] == Take(t.buffered, size);
  }

  /** The reads of a stream hand out what was sent for it piece by piece, each as much of the rest
      as fits: EOF only when the stream is closed and nothing is left, and waiting only when
      nothing is left of an open one. */
  lemma ReadsInOrder(fs: seq<Frame>, before: seq<Event>, after: seq<Event>, id: U32, size: nat)
    requires Sendable(fs) && Opens(before + after) <= ID_SPACE
    requires var s := Run(World(EncodeAll(fs), NEW_SESSION, true), before).session;
      Known(s, id) && Lookup(s, id).delivered == [] && Lookup(s, id).buffered == []
    requires id in Run(World(EncodeAll(fs), NEW_SESSION, true), before + after).session.streams
    ensures var start := World(EncodeAll(fs), NEW_SESSION, true);
      var w := Run(start, before);
      var t := Run(start, before + after).session.streams[id];
      var sent, got := Project(Handled(w, after), id), Delivered(w, after, id);
      var r, more := ReadStream(t, size).1, Delivered(w, after + [Read(id, size)], id);
      && got <= sent
      && (r == Eof <==> t.closed && got == sent)
      && (r == Blocked <==> !t.closed && got == sent)
      && (got != sent ==> r == Bytes(sent[|got|..|got| + Least(size, |sent| - |got|)]))
      && more == sent[..|got| + Least(size, |sent| - |got|)]
  {
    hide Run, Handled, Delivered, Project, EncodeAll, Opens, Sendable, Known;
    var start := World(EncodeAll(fs), NEW_SESSION, true);
    var w := Run(start, before);
    var t := Run(start, before + after).session.streams[id];
    var sent, got := Project(Handled(w, after), id), Delivered(w, after, id);
    EndToEnd(fs, before, after, id, size);
    RunConcat(start, before, after);
    DeliveredNext(w, after, Read(id, size), id);
    ReadGives(t, got, sent, size);
    var n := |got| + Least(size, |sent| - |got|);
    assert sent[..n] == sent[..|got|] + sent[|got|..n] && sent[..|got|] == got;
    if got == sent {
      assert got + [] == got;
    }
  }

  // ---------- what closes a stream ----------

  predicate ClosedBy(w: World, e: Event, id: U32)
  {
    || e == Shut(id)
    || (Taken(w, e).Some? && Taken(w, e).value.id == id && Taken(w, e).value.kind in {CLOSE, RESET})
  }

  predicate EverClosed(w: World, es: seq<Event>, id: U32)
    decreases es
  {
    es != [] && (ClosedBy(w, es[0], id) || EverClosed(Step(w, es[0]), es[1..], id))
  }

  lemma StepFlag(w: World, e: Event, id: U32)
    requires id in w.session.streams && !(e.OpenLocal? && w.session.nextId == id)
    ensures id in Step(w, e).session.streams
    ensures Step(w, e).session.streams[id].closed <==> w.session.streams[id].closed || ClosedBy(w, e, id)
  {
    hide Parse;
  }

  /** On every run a stream ends up closed exactly when it was so before, or a handled close or
      reset of its own or a local Close said so. */
  lemma {:induction false} ClosedExactly(w: World, es: seq<Event>, n: nat, id: U32)
    requires n + Opens(es) <= ID_SPACE && IdsCounted(w.session, n) && id in w.session.streams
    ensures id in Run(w, es).session.streams
    ensures Run(w, es).session.streams[id].closed <==> w.session.streams[id].closed || EverClosed(w, es, id)
    decreases es
  {
    hide Step, IdsCounted, ClosedBy;
    if es != [] {
      if es[0].OpenLocal? {
        FreshOpen(w, n);
      }
      StepFlag(w, es[0], id);
      StepCounts(w, es[0], n);
      ClosedExactly(Step(w, es[0]), es[1..], n + if es[0].OpenLocal? then 1 else 0, id);
    }
  }

  // ---------- pings ----------

  /** One pong for each ping before the goodbye, with its payload. */
  function Echoes(fs: seq<Frame>): seq<Frame>
  {
    if fs == [] || fs[0].kind == GOAWAY then []
    else (if fs[0].kind == PING then [Frame(PONG, 0, 0, fs[0].data)] else []) + Echoes(fs[1..])
  }

  lemma {:induction false} PongsEcho(w: World, fs: seq<Frame>)
    requires w.running && w.pipe == EncodeAll(fs) && Sendable(fs)
    ensures Pongs(w) == EncodeAll(Echoes(fs))
    decreases fs
  {
    hide Pongs, Parse, Encode, OnFrame;
    DrainStep(w);
    if fs == [] {
      assert Parse([]).None? by { NothingParses(); }
    } else {
      var f, rest := fs[0], EncodeAll(fs[1..]);
      ParseEncode(f, rest);
      var next := World(rest, OnFrame(w.session, f), f.kind != GOAWAY);
      DrainStep(next);
      if f.kind != GOAWAY {
        PongsEcho(next, fs[1..]);
        var pong := Frame(PONG, 0, 0, f.data);
        assert ([pong] + Echoes(fs[1..]))[1..] == Echoes(fs[1..]);
        assert [] + Echoes(fs[1..]) == Echoes(fs[1..]) && [] + Pongs(next) == Pongs(next);
      }
    }
  }

  lemma NothingParses()
    ensures Parse([]).None?
  {
  }

  // ---------- why the ids must not run out ----------

  /** A stream that is known and empty after the first events gets, in the following ones, all
      the data handled for it. */
  ghost predicate Intact(fs: seq<Frame>, before: seq<Event>, after: seq<Event>, id: U32)
  {
    var start := World(EncodeAll(fs), NEW_SESSION, true);
    var w := Run(start, before);
    var t := Lookup(Run(start, before + after).session, id);
    Known(w.session, id) && Lookup(w.session, id).delivered == [] && Lookup(w.session, id).buffered == [] ==>
      Delivered(w, after, id) + t.buffered == Project(Handled(w, after), id)
  }

  function Many(k: nat): seq<Event>
  {
    seq(k, i => OpenLocal)
  }

  lemma {:induction false} ManyOpens(w: World, k: nat, id: U32)
    ensures Opens(Many(k)) == k && Delivered(w, Many(k), id) == [] && Handled(w, Many(k)) == []
    decreases k
  {
    if k > 0 {
      ManyOpens(Step(w, OpenLocal), k - 1, id);
      assert Many(k)[1..] == Many(k - 1);
    }
  }

  /** The open after 2^31 others takes the first id again. */
  lemma IdReturns(w: World, before: seq<Event>)
    requires w.session == NEW_SESSION && Opens(before) == ID_SPACE
    ensures Lookup(Run(w, before + [OpenLocal]).session, 1) == NEW_STREAM
  {
    hide Opens;
    NoIds();
    IdsAreCounted(w, before, 0);
    RunConcat(w, before, [OpenLocal]);
    assert Run(w, before).session.nextId == 1;
    assert Run(Run(w, before), [OpenLocal]) == Step(Run(w, before), OpenLocal);
  }

  /** A stream is opened, one byte comes in for it, and 2^31 opens later its id is used again. */
  lemma ReusedIdLoses(fs: seq<Frame>)
    requires fs == [Frame(DATA, 1, 0, [7])]
    ensures Opens([OpenLocal] + ([Recv] + Many(ID_SPACE))) == ID_SPACE + 1
    ensures !Intact(fs, [OpenLocal], [Recv] + Many(ID_SPACE), 1)
  {
    hide Run, Opens, Handled, Delivered, Encode, Parse, EncodeAll;
    var start := World(EncodeAll(fs), NEW_SESSION, true);
    RunFirst(start, OpenLocal, [], 1);
    RunFirst(start, OpenLocal, [Recv] + Many(ID_SPACE), 1);
    NothingRuns(start);
    var w := Step(start, OpenLocal);
    assert [OpenLocal] + [] == [OpenLocal] && Run(start, [OpenLocal]) == w;
    OneFrame(fs[0]);
    RunFirst(w, Recv, Many(ID_SPACE), 1);
    ManyOpens(Step(w, Recv), ID_SPACE, 1);
    var most := [OpenLocal] + ([Recv] + Many(ID_SPACE - 1));
    RunFirst(start, OpenLocal, [Recv] + Many(ID_SPACE - 1), 1);
    RunFirst(w, Recv, Many(ID_SPACE - 1), 1);
    ManyOpens(Step(w, Recv), ID_SPACE - 1, 1);
    IdReturns(start, most);
    assert Many(ID_SPACE) == Many(ID_SPACE - 1) + [OpenLocal];
    assert most + [OpenLocal] == [OpenLocal] + ([Recv] + Many(ID_SPACE));
    assert Handled(w, [Recv] + Many(ID_SPACE)) == [fs[0]];
    assert Project([fs[0]], 1) == [7];
  }

  lemma NothingRuns(w: World)
    ensures Run(Step(w, OpenLocal), []) == Step(w, OpenLocal)
  {
    hide Step;
  }

  lemma OneFrame(f: Frame)
    requires |f.data| < 0x1_0000_0000
    ensures var b := EncodeAll([f]); Parse(b) == Some((f, []))
  {
    hide Encode, Parse;
    ParseEncode(f, []);
    assert EncodeAll([f]) == Encode(f) + [];
  }

  /** No stream ever loses data exactly while no more than 2^31 streams are opened. */
  lemma LosslessBound(n: nat)
    ensures (forall fs, before, after, id: U32 | Sendable(fs) && Opens(before + after) <= n :: Intact(fs, before, after, id))
      <==> n <= ID_SPACE
  {
    hide Run, Handled, Delivered, Project, EncodeAll, Opens, Lookup, Known;
    if n <= ID_SPACE {
      forall fs, before, after, id: U32 | Sendable(fs) && Opens(before + after) <= n ensures Intact(fs, before, after, id) {
        var s := Run(World(EncodeAll(fs), NEW_SESSION, true), before).session;
        if Known(s, id) && Lookup(s, id).delivered == [] && Lookup(s, id).buffered == [] {
          EndToEnd(fs, before, after, id, 0);
        }
      }
    } else {
      var fs := [Frame(DATA, 1, 0, [7])];
      ReusedIdLoses(fs);
      assert Sendable(fs) && !Intact(fs, [OpenLocal], [Recv] + Many(ID_SPACE), 1);
    }
  }
}
