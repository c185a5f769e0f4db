/** One stream of app/features/multiplex/mux.go under interleaving: a reader, the session's
    read loop and local Close or Reset take turns, one atomic step at a time. */
module MuxWakeup {
  import opened Bytes
  import P = MuxProtocol

  datatype Holder = Nobody | Reader | Loop

  /** Where the reader is. Checking, SawEmpty and Unlocking hold the stream lock. */
  datatype ReaderPc = Away | Locking | Checking | SawEmpty | Unlocking | Waiting

  /** Where the read loop is. Writing and Unlocking hold the stream lock. */
  datatype LoopPc =
    | Free
    | LockingFor(data: seq<Byte>)
    | Writing(data: seq<Byte>)
    | Wrote
    | Closing
    | Resetting
    | HalfReset
    | Sending

  /** missedClose: the stream was closed here while the reader was past its test of that, with
      no token in the channel and none about to be sent, and none has been sent since.
      missedReset: the stream was reset here while the reader was past its test of that, which
      each call makes only once, at its start. */
  datatype State = State(
    stream: P.Stream,
    token: bool,
    lock: Holder,
    reader: ReaderPc,
    loop: LoopPc,
    received: seq<Byte>,
    peerClosed: bool,
    peerReset: bool,
    missedClose: bool,
    missedReset: bool)

  const START := State(P.NEW_STREAM, false, Nobody, Away, Free, [], false, false, false, false)

  datatype Action =
    | ReaderStep(size: nat)
    | Data(data: seq<Byte>)
    | PeerClose
    | PeerReset
    | LoopStep
    | LocalClose
    | LocalReset

  /** The reader's next atomic step; None when it has to wait for another party. */
  function Read(s: State, size: nat): Option<State>
  {
    match s.reader
    case Away => Some(if s.stream.reset then s else s.(reader := Locking))
    case Locking => if s.lock == Nobody then Some(s.(lock := Reader, reader := Checking)) else None
    case Checking =>
      if s.stream.buffered == [] then Some(s.(reader := SawEmpty))
      else
        var d := Take(s.stream.buffered, size);
        Some(s.(stream := s.stream.(delivered := s.stream.delivered + d, buffered := s.stream.buffered[|d|..]),
                lock := Nobody, reader := Away, missedReset := false))
    case SawEmpty =>
      Some(if s.stream.closed then s.(lock := Nobody, reader := Away, missedReset := false) else s.(reader := Unlocking))
    case Unlocking => Some(s.(lock := Nobody, reader := Waiting))
    case Waiting => if s.token then Some(s.(token := false, reader := Locking)) else None
  }

  /** The read loop's next atomic step inside handleData, handleClose or handleReset. */
  function Serve(s: State): Option<State>
  {
    match s.loop
    case Free => None
    case LockingFor(d) => if s.lock == Nobody then Some(s.(lock := Loop, loop := Writing(d))) else None
    case Writing(d) => Some(s.(stream := P.Buffer(s.stream, d), received := s.received + d, loop := Wrote))
    case Wrote => Some(s.(lock := Nobody, loop := Sending))
    case Closing => Some(s.(stream := s.stream.(closed := true), peerClosed := true, loop := Sending))
    case Resetting => Some(s.(stream := s.stream.(reset := true), peerReset := true, loop := HalfReset))
    case HalfReset => Some(s.(stream := s.stream.(closed := true), peerClosed := true, loop := Sending))
    case Sending => Some(s.(token := true, loop := Free, missedClose := false))
  }

  /** The loop has updated the stream and not yet sent the token. */
  predicate Pending(l: LoopPc)
  {
    l.Wrote? || l.HalfReset? || l.Sending?
  }

  /** Close of the stream itself: the flag is set once, and nobody is told. */
  function CloseHere(s: State): State
  {
    if s.stream.closed then s
    else
      s.(stream := s.stream.(closed := true),
         missedClose := (s.reader.Unlocking? || s.reader.Waiting?) && !s.token && !Pending(s.loop))
  }

  function Do(s: State, a: Action): Option<State>
  {
    match a
    case ReaderStep(size) => Read(s, size)
    case Data(d) => if s.loop == Free then Some(s.(loop := LockingFor(d))) else None
    case PeerClose => if s.loop == Free then Some(s.(loop := Closing)) else None
    case PeerReset => if s.loop == Free then Some(s.(loop := Resetting)) else None
    case LoopStep => Serve(s)
    case LocalClose => Some(CloseHere(s))
    case LocalReset => Some(s.(stream := s.stream.(reset := true), missedReset := !s.reader.Away?))
  }

  /** Any interleaving: actions that are not enabled do nothing. */
  function Run(s: State, acts: seq<Action>): State
    decreases acts
  {
    if acts == [] then s
    else
      var r := Do(s, acts[0]);
      Run(if r.Some? then r.value else s, acts[1..])
  }

  predicate ReaderLocked(r: ReaderPc)
  {
    r.Checking? || r.SawEmpty? || r.Unlocking?
  }

  predicate LoopLocked(l: LoopPc)
  {
    l.Writing? || l.Wrote?
  }

  /** Something happened that a waiting reader must be told. */
  predicate News(s: State)
  {
    s.stream.buffered != [] || s.peerClosed || s.peerReset
  }

  ghost predicate Inv(s: State)
  {
    && (s.lock == Reader <==> ReaderLocked(s.reader))
    && (s.lock == Loop <==> LoopLocked(s.loop))
    && (s.reader.SawEmpty? || s.reader.Unlocking? ==> s.stream.buffered == [])
    && (s.peerClosed ==> s.stream.closed)
    && (s.peerReset && !s.peerClosed ==> s.loop.HalfReset?)
    && ((s.reader.Unlocking? || s.reader.Waiting?) && News(s) ==> s.token || Pending(s.loop))
    && (s.missedClose ==> (s.reader.Unlocking? || s.reader.Waiting?) && s.stream.closed && !s.token)
    && ((s.reader.Unlocking? || s.reader.Waiting?) && s.stream.closed ==> s.token || Pending(s.loop) || s.missedClose)
    && (s.missedReset ==> s.stream.reset)
    && (s.stream.reset && !s.reader.Away? ==> s.peerReset || s.missedReset)
    && s.stream.delivered + s.stream.buffered == Take(s.received, P.CAPACITY)
  }

  lemma LoopKeepsInv(s: State)
    requires Inv(s) && Serve(s).Some?
    ensures Inv(Serve(s).value)
  {
    hide Take, P.Buffer;
    if s.loop.Writing? {
      P.BufferKeepsPrefix(s.stream, s.received, s.loop.data);
      P.BufferKeepsFlags(s.stream, s.loop.data);
    }
  }

  lemma ReaderKeepsInv(s: State, size: nat)
    requires Inv(s) && Read(s, size).Some?
    ensures Inv(Read(s, size).value)
  {
    hide Take;
    if s.reader.Checking? && s.stream.buffered != [] {
      Moved(s.stream.delivered, s.stream.buffered, size);
    }
  }

  lemma Moved(a: seq<Byte>, b: seq<Byte>, size: nat)
    ensures var d := Take(b, size); |d| <= |b| && (a + d) + b[|d|..] == a + b
  {
    var d := Take(b, size);
    assert d + b[|d|..] == b;
  }

  lemma ActionKeepsInv(s: State, a: Action)
    requires Inv(s) && Do(s, a).Some?
    ensures Inv(Do(s, a).value)
  {
    hide Read, Serve;
    match a
    case ReaderStep(size) => ReaderKeepsInv(s, size);
    case LoopStep => LoopKeepsInv(s);
    case _ =>
  }

  lemma {:induction false} RunKeepsInv(s: State, acts: seq<Action>)
    requires Inv(s)
    ensures Inv(Run(s, acts))
    decreases acts
  {
    if acts != [] {
      hide Do, Inv;
      var r := Do(s, acts[0]);
      if r.Some? {
        ActionKeepsInv(s, acts[0]);
      }
      RunKeepsInv(if r.Some? then r.value else s, acts[1..]);
    }
  }

  /** No wakeup from the peer is ever lost, and no byte is, under any interleaving. */
  lemma NoLostWakeup(acts: seq<Action>)
    ensures var s := Run(START, acts);
      && (s.reader.Waiting? && News(s) ==> s.token || Pending(s.loop))
      && s.stream.delivered + s.stream.buffered == Take(s.received, P.CAPACITY)
  {
    RunKeepsInv(START, acts);
  }

  /** Steps the loop still needs before its token is in the channel. */
  function Delay(l: LoopPc): nat
  {
    match l
    case Wrote => 2
    case HalfReset => 2
    case Sending => 1
    case _ => 0
  }

  /** A waiting reader that has news can step, or the loop can and is closer to waking it. */
  lemma WaitingReaderIsWoken(acts: seq<Action>, size: nat)
    ensures var s := Run(START, acts);
      s.reader.Waiting? && News(s) ==>
        || Read(s, size).Some?
        || (Serve(s).Some?
            && (Serve(s).value.token || 0 < Delay(Serve(s).value.loop) < Delay(s.loop)))
  {
    NoLostWakeup(acts);
  }

  /** The reader waits although the stream is closed or reset, and neither it nor a handler can
      take a step. */
  predicate Stranded(s: State)
  {
    s.reader.Waiting? && (s.stream.closed || s.stream.reset) && Read(s, 0).None? && Serve(s).None?
  }

  /** That happens exactly when no token is there, no handler is under way, and a local Close
      came after the reader's test with no token since, or a local Reset after the call began. */
  lemma StrandedExactlyWhenMissed(acts: seq<Action>)
    ensures var s := Run(START, acts);
      Stranded(s) <==> s.reader.Waiting? && !s.token && s.loop.Free? && (s.missedClose || s.missedReset)
  {
    RunKeepsInv(START, acts);
  }

  /** Left alone, a reader that enters takes what fits of the oldest bytes and is done. */
  lemma ReaderTakes(s: State, size: nat)
    requires s.reader.Locking? && s.lock == Nobody && s.stream.buffered != []
    ensures var r := Run(s, [ReaderStep(size), ReaderStep(size)]);
      var n := if size < |s.stream.buffered| then size else |s.stream.buffered|;
      && r.reader.Away? && r.lock == Nobody
      && r.stream.delivered == s.stream.delivered + s.stream.buffered[..n]
      && r.stream.buffered == s.stream.buffered[n..]
  {
    hide Run;
    var a := ReaderStep(size);
    RunPair(s, a, a);
    if |s.stream.buffered| <= size {
      assert s.stream.buffered[..|s.stream.buffered|] == s.stream.buffered;
    }
  }

  /** With nothing buffered it is done too if the stream is closed, and otherwise waits. */
  lemma ReaderEndsOrWaits(s: State, size: nat)
    requires s.reader.Locking? && s.lock == Nobody && s.stream.buffered == []
    ensures var r := Run(s, [ReaderStep(size), ReaderStep(size)] + [ReaderStep(size), ReaderStep(size)]);
      && r.stream == s.stream
      && if s.stream.closed then Run(s, [ReaderStep(size), ReaderStep(size)] + [ReaderStep(size)]).reader.Away?
         else r.reader.Waiting? && r.lock == Nobody
  {
    hide Run;
    var a := ReaderStep(size);
    var s1 := s.(lock := Reader, reader := Checking);
    var s2 := s1.(reader := SawEmpty);
    RunPair(s, a, a);
    assert Run(s, [a, a]) == s2;
    RunPair(s2, a, a);
    RunConcat(s, [a, a], [a, a]);
    RunConcat(s, [a, a], [a]);
  }

  /** One token wakes the reader once: with nothing to tell it, it is back waiting, the token gone. */
  lemma TokenWakesOnce(s: State, size: nat)
    requires s.reader.Waiting? && s.token && s.lock == Nobody && s.stream.buffered == [] && !s.stream.closed
    ensures var a := ReaderStep(size); Run(s, [a] + ([a, a] + [a, a])) == s.(token := false)
  {
    hide Run;
    var a := ReaderStep(size);
    var woken := s.(token := false, reader := Locking);
    RunPair(s, a, a);
    RunConcat(s, [a], [a, a] + [a, a]);
    var s2 := woken.(lock := Reader, reader := SawEmpty);
    RunPair(woken, a, a);
    assert Run(woken, [a, a]) == s2;
    RunPair(s2, a, a);
    RunConcat(woken, [a, a], [a, a]);
  }

  /** Left alone, the handler of a data frame stores what there is room for and sends the token. */
  lemma HandlerStores(s: State, d: seq<Byte>)
    requires s.loop == LockingFor(d) && s.lock == Nobody
    ensures var r := Run(s, [LoopStep, LoopStep] + [LoopStep, LoopStep]);
      var used := |s.stream.delivered| + |s.stream.buffered|;
      && r.loop.Free? && r.token && r.lock == Nobody
      && (used + |d| <= P.CAPACITY ==> r.stream.buffered == s.stream.buffered + d)
      && r.stream.delivered == s.stream.delivered
  {
    hide Run;
    var s1 := s.(lock := Loop, loop := Writing(d));
    var s2 := s1.(stream := P.Buffer(s.stream, d), received := s.received + d, loop := Wrote);
    var s3 := s2.(lock := Nobody, loop := Sending);
    RunPair(s, LoopStep, LoopStep);
    RunPair(s2, LoopStep, LoopStep);
    RunConcat(s, [LoopStep, LoopStep], [LoopStep, LoopStep]);
  }

  lemma RunPair(s: State, a: Action, b: Action)
    ensures var r := if Do(s, a).Some? then Do(s, a).value else s;
      && Run(s, [a]) == r
      && Run(s, [a, b]) == if Do(r, b).Some? then Do(r, b).value else r
  {
    hide Do;
    assert [a][1..] == [] && [a, b][1..] == [b] && [b][1..] == [];
    var r := if Do(s, a).Some? then Do(s, a).value else s;
    assert Run(s, [a, b]) == Run(r, [b]);
  }

  lemma {:induction false} RunConcat(s: State, a: seq<Action>, b: seq<Action>)
    ensures Run(s, a + b) == Run(Run(s, a), b)
    decreases a
  {
    hide Do;
    if a == [] {
      assert a + b == b;
    } else {
      assert (a + b)[1..] == a[1..] + b;
      var r := Do(s, a[0]);
      RunConcat(if r.Some? then r.value else s, a[1..], b);
    }
  }

  /** The reader has found the stream open and empty and waits. */
  const WAITING := START.(reader := Waiting)

  lemma ReachWaiting(acts: seq<Action>)
    ensures var r := ReaderStep(0);
      Run(START, [r] + ([r] + ([r] + ([r] + ([r] + acts))))) == Run(WAITING, acts)
  {
    hide Run;
    var r := ReaderStep(0);
    var s1 := START.(reader := Locking);
    var s2 := s1.(lock := Reader, reader := Checking);
    RunStep(s2.(reader := Unlocking), r, acts);
    RunStep(s2.(reader := SawEmpty), r, [r] + acts);
    RunStep(s2, r, [r] + ([r] + acts));
    RunStep(s1, r, [r] + ([r] + ([r] + acts)));
    RunStep(START, r, [r] + ([r] + ([r] + ([r] + acts))));
  }

  /** And it does happen: Close signals nobody. */
  lemma LocalCloseStrands()
    ensures exists acts :: var s := Run(START, acts);
      Stranded(s) && !News(s) && s.stream.closed
  {
    var r := ReaderStep(0);
    var s := WAITING.(stream := P.NEW_STREAM.(closed := true), missedClose := true);
    assert Run(s, []) == s;
    hide Run;
    RunStep(WAITING, LocalClose, []);
    ReachWaiting([LocalClose] + []);
    assert Stranded(s) && !News(s);
  }

  /** Nor does local Reset: the reader waits on, and would after any wakeup but data or a close. */
  lemma LocalResetStrands()
    ensures exists acts :: var s := Run(START, acts);
      Stranded(s) && !News(s) && s.stream.reset && !s.stream.closed
  {
    var r := ReaderStep(0);
    var s := WAITING.(stream := P.NEW_STREAM.(reset := true), missedReset := true);
    assert Run(s, []) == s;
    hide Run;
    RunStep(WAITING, LocalReset, []);
    ReachWaiting([LocalReset] + []);
    assert Stranded(s) && !News(s);
  }

  lemma RunStep(s: State, a: Action, acts: seq<Action>)
    requires Do(s, a).Some?
    ensures Run(s, [a] + acts) == Run(Do(s, a).value, acts)
  {
    assert ([a] + acts)[1..] == acts;
  }
}
