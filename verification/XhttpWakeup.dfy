/** One stream of app/transport/xhttp.go under interleaving. Readers wait on a condition
    variable; data is signalled under the stream lock, the peer's close and reset without it,
    and a local Close not at all. */
module XhttpWakeup {
  import opened Bytes

  datatype Holder = Nobody | Reader | Loop

  /** Checking, SawEmpty and Joining hold the lock; Wait joins the waiters, then unlocks. */
  datatype ReaderPc = Away | Locking | Checking | SawEmpty | Joining | Leaving | Parked

  /** Appending and Signalling hold the lock; Closing and Closed do not. */
  datatype LoopPc =
    | Free
    | LockingFor(data: seq<Byte>)
    | Appending(data: seq<Byte>)
    | Signalling
    | Unlocking
    | Closing
    | Closed

  /** late: no signal has been sent since a close that the reader can have missed: one signalled
      after its test and before it joined the waiters, or a local one made after its test. */
  datatype State = State(
    delivered: seq<Byte>,
    buffered: seq<Byte>,
    received: seq<Byte>,
    closed: bool,
    notified: bool,
    lock: Holder,
    reader: ReaderPc,
    loop: LoopPc,
    late: bool)

  const START := State([], [], [], false, false, Nobody, Away, Free, false)

  datatype Action = ReaderStep(size: nat) | Data(data: seq<Byte>) | PeerClose | LoopStep | LocalClose

  /** cond.Signal wakes a waiter that has joined and is lost on anyone else. */
  function Signal(s: State): State
  {
    if s.reader.Leaving? || s.reader.Parked? then s.(notified := true, late := false)
    else s.(late := s.closed && s.reader.Joining?)
  }

  function Read(s: State, size: nat): Option<State>
  {
    match s.reader
    case Away => Some(s.(reader := Locking))
    case Locking => if s.lock == Nobody then Some(s.(lock := Reader, reader := Checking)) else None
    case Checking =>
      if s.buffered == [] then Some(s.(reader := SawEmpty))
      else
        var d := Take(s.buffered, size);
        Some(s.(delivered := s.delivered + d, buffered := s.buffered[|d|..], lock := Nobody, reader := Away))
    case SawEmpty =>
      Some(if s.closed then s.(lock := Nobody, reader := Away) else s.(reader := Joining, late := false))
    case Joining => Some(s.(reader := Leaving, notified := false))
    case Leaving => Some(s.(lock := Nobody, reader := Parked))
    case Parked => if s.notified then Some(s.(notified := false, reader := Locking)) else None
  }

  function Serve(s: State): Option<State>
  {
    match s.loop
    case Free => None
    case LockingFor(d) => if s.lock == Nobody then Some(s.(lock := Loop, loop := Appending(d))) else None
    case Appending(d) => Some(s.(buffered := s.buffered + d, received := s.received + d, loop := Signalling))
    case Signalling => Some(Signal(s).(loop := Unlocking))
    case Unlocking => Some(s.(lock := Nobody, loop := Free))
    case Closing => Some(s.(closed := true, loop := Closed))
    case Closed => Some(Signal(s).(loop := Free))
  }

  /** Close of the stream itself: the flag is set once, and nobody is told. */
  function CloseHere(s: State): State
  {
    if s.closed then s
    else s.(closed := true, late := s.reader.Joining? || ((s.reader.Leaving? || s.reader.Parked?) && !s.notified))
  }

  function Do(s: State, a: Action): Option<State>
  {
    match a
    case LocalClose => Some(CloseHere(s))
    case ReaderStep(size) => Read(s, size)
    case Data(d) => if s.loop == Free then Some(s.(loop := LockingFor(d))) else None
    case PeerClose => if s.loop == Free then Some(s.(loop := Closing)) else None
    case LoopStep => Serve(s)
  }

  /** Any interleaving: actions that are not enabled do nothing. */
  function Run(s: State, acts: seq<Action>): State
    decreases acts
  {
    if acts == [] then s
    else
      var r := Do(s, acts[0]);
      Run(if r.Some? then r.value else s, acts[1..])
  }

  predicate InLock(r: ReaderPc)
  {
    r.Checking? || r.SawEmpty? || r.Joining? || r.Leaving?
  }

  predicate LoopLocked(l: LoopPc)
  {
    l.Appending? || l.Signalling? || l.Unlocking?
  }

  ghost predicate Inv(s: State)
  {
    && (s.lock == Reader <==> InLock(s.reader))
    && (s.lock == Loop <==> LoopLocked(s.loop))
    && (s.reader.SawEmpty? || s.reader.Joining? || s.reader.Leaving? ==> s.buffered == [])
    && (s.loop.Closed? ==> s.closed)
    && (s.reader.Parked? && s.buffered != [] ==> s.notified || s.loop.Signalling?)
    && (s.closed && (s.reader.Joining? || s.reader.Leaving? || s.reader.Parked?) ==>
          s.loop.Closed? || (s.late <==> (s.reader.Joining? || !s.notified)))
    && (s.notified && s.reader.Parked? ==> !s.late)
    && (s.notified && s.reader.Leaving? ==> !s.late)
    && (s.late ==> s.closed)
  }

  ghost predicate Whole(s: State)
  {
    s.delivered + s.buffered == s.received
  }

  lemma {:induction false} RunKeepsInv(s: State, acts: seq<Action>)
    requires Inv(s) && Whole(s)
    ensures Inv(Run(s, acts)) && Whole(Run(s, acts))
    decreases acts
  {
    if acts != [] {
      hide Do, Inv, Whole;
      var a, r := acts[0], Do(s, acts[0]);
      if r.Some? {
        ActionKeepsInv(s, a);
        ActionKeepsBytes(s, a);
      }
      RunKeepsInv(if r.Some? then r.value else s, acts[1..]);
    }
  }

  lemma ReaderKeepsInv(s: State, size: nat)
    requires Inv(s) && Read(s, size).Some?
    ensures Inv(Read(s, size).value)
  {
    hide Take;
  }

  lemma LoopKeepsInv(s: State)
    requires Inv(s) && Serve(s).Some?
    ensures Inv(Serve(s).value)
  {
  }

  lemma ActionKeepsInv(s: State, a: Action)
    requires Inv(s) && Do(s, a).Some?
    ensures Inv(Do(s, a).value)
  {
    hide Read, Serve;
    match a
    case ReaderStep(size) => ReaderKeepsInv(s, size);
    case LoopStep => LoopKeepsInv(s);
    case _ =>
  }

  lemma ActionKeepsBytes(s: State, a: Action)
    requires Whole(s) && Do(s, a).Some?
    ensures Whole(Do(s, a).value)
  {
    if a.ReaderStep? && s.reader.Checking? && s.buffered != [] {
      Moved(s.delivered, s.buffered, Take(s.buffered, a.size));
    }
    if a.LoopStep? && s.loop.Appending? {
      Appended(s.delivered, s.buffered, s.loop.data);
    }
    hide Take;
  }

  lemma Moved(a: seq<Byte>, b: seq<Byte>, d: seq<Byte>)
    requires d <= b
    ensures (a + d) + b[|d|..] == a + b
  {
    assert d + b[|d|..] == b;
  }

  lemma Appended(a: seq<Byte>, b: seq<Byte>, d: seq<Byte>)
    ensures a + (b + d) == (a + b) + d
  {
  }

  /** Data wakeups are never lost, and neither is a byte. */
  lemma NoLostData(acts: seq<Action>)
    ensures var s := Run(START, acts);
      && (s.reader.Parked? && s.buffered != [] ==> s.notified || s.loop.Signalling?)
      && s.delivered + s.buffered == s.received
  {
    RunKeepsInv(START, acts);
  }

  /** The handler under way, if any, has sent its signal. */
  predicate Quiet(l: LoopPc)
  {
    l.Free? || l.Unlocking?
  }

  /** The reader sleeps although the stream is closed, and nothing under way will wake it. */
  predicate Stranded(s: State)
  {
    s.reader.Parked? && s.closed && !s.notified && Quiet(s.loop)
  }

  /** A reader sleeps through a close exactly when it came late: signalled between the reader's
      test and its Wait, or made here without a signal; and no later signal is under way. */
  lemma CloseIsMissedExactlyWhenLate(acts: seq<Action>)
    ensures var s := Run(START, acts);
      Stranded(s) <==> s.reader.Parked? && s.late && Quiet(s.loop)
  {
    RunKeepsInv(START, acts);
  }

  /** Left alone, a reader that enters takes what fits of the oldest bytes and is done. */
  lemma ReaderTakes(s: State, size: nat)
    requires s.reader.Locking? && s.lock == Nobody && s.buffered != []
    ensures var r := Run(s, [ReaderStep(size), ReaderStep(size)]);
      var n := if size < |s.buffered| then size else |s.buffered|;
      && r.reader.Away? && r.lock == Nobody
      && r.delivered == s.delivered + s.buffered[..n] && r.buffered == s.buffered[n..]
  {
    hide Run;
    var a := ReaderStep(size);
    RunPair(s, a, a);
    if |s.buffered| <= size {
      assert s.buffered[..|s.buffered|] == s.buffered;
    }
  }

  /** With nothing buffered it is done too if the stream is closed, and otherwise parks. */
  lemma ReaderEndsOrParks(s: State, size: nat)
    requires s.reader.Locking? && s.lock == Nobody && s.buffered == []
    ensures var a := ReaderStep(size);
      if s.closed then Run(s, [a, a] + [a]).reader.Away? && Run(s, [a, a] + [a]).lock == Nobody
      else Run(s, [a, a] + ([a, a] + [a])).reader.Parked? && Run(s, [a, a] + ([a, a] + [a])).lock == Nobody
  {
    hide Run;
    var a := ReaderStep(size);
    var s2 := s.(lock := Reader, reader := SawEmpty);
    RunPair(s, a, a);
    assert Run(s, [a, a]) == s2;
    RunPair(s2, a, a);
    RunConcat(s, [a, a], [a]);
    if !s.closed {
      var s4 := s2.(reader := Leaving, late := false, notified := false);
      assert Run(s2, [a, a]) == s4;
      RunPair(s4, a, a);
      RunConcat(s2, [a, a], [a]);
      RunConcat(s, [a, a], [a, a] + [a]);
    }
  }

  /** One signal wakes the reader once: with nothing to tell it, it parks again, not notified. */
  lemma SignalWakesOnce(s: State, size: nat)
    requires s.reader.Parked? && s.notified && s.lock == Nobody && s.buffered == [] && !s.closed
    ensures var a := ReaderStep(size);
      var r := Run(s, [a] + ([a, a] + ([a, a] + [a])));
      r.reader.Parked? && !r.notified && r.lock == Nobody && r.buffered == []
  {
    hide Run;
    var a := ReaderStep(size);
    var woken := s.(notified := false, reader := Locking);
    RunPair(s, a, a);
    RunConcat(s, [a], [a, a] + ([a, a] + [a]));
    var s2 := woken.(lock := Reader, reader := SawEmpty);
    RunPair(woken, a, a);
    assert Run(woken, [a, a]) == s2;
    var s4 := s2.(reader := Leaving, late := false, notified := false);
    RunPair(s2, a, a);
    assert Run(s2, [a, a]) == s4;
    RunPair(s4, a, a);
    RunConcat(s2, [a, a], [a]);
    RunConcat(woken, [a, a], [a, a] + [a]);
  }

  /** Left alone, the handler of a data frame stores it all and wakes a parked reader. */
  lemma HandlerStores(s: State, d: seq<Byte>)
    requires s.loop == LockingFor(d) && s.lock == Nobody
    ensures var r := Run(s, [LoopStep, LoopStep] + [LoopStep, LoopStep]);
      && r.loop.Free? && r.lock == Nobody && r.delivered == s.delivered
      && r.buffered == s.buffered + d && (s.reader.Parked? ==> r.notified)
  {
    hide Run;
    var s2 := s.(lock := Loop, buffered := s.buffered + d, received := s.received + d, loop := Signalling);
    RunPair(s, LoopStep, LoopStep);
    assert Run(s, [LoopStep, LoopStep]) == s2;
    RunPair(s2, LoopStep, LoopStep);
    RunConcat(s, [LoopStep, LoopStep], [LoopStep, LoopStep]);
  }

  lemma RunPair(s: State, a: Action, b: Action)
    ensures var r := if Do(s, a).Some? then Do(s, a).value else s;
      && Run(s, [a]) == r
      && Run(s, [a, b]) == if Do(r, b).Some? then Do(r, b).value else r
  {
    hide Do;
    assert [a][1..] == [] && [a, b][1..] == [b] && [b][1..] == [];
    var r := if Do(s, a).Some? then Do(s, a).value else s;
    assert Run(s, [a, b]) == Run(r, [b]);
  }

  lemma {:induction false} RunConcat(s: State, a: seq<Action>, b: seq<Action>)
    ensures Run(s, a + b) == Run(Run(s, a), b)
    decreases a
  {
    hide Do;
    if a == [] {
      assert a + b == b;
    } else {
      assert (a + b)[1..] == a[1..] + b;
      var r := Do(s, a[0]);
      RunConcat(if r.Some? then r.value else s, a[1..], b);
    }
  }

  lemma RunStep(s: State, a: Action, acts: seq<Action>)
    requires Do(s, a).Some?
    ensures Run(s, [a] + acts) == Run(Do(s, a).value, acts)
  {
    assert ([a] + acts)[1..] == acts;
  }

  /** The reader has found the stream open and empty and is about to join the waiters. */
  const JOINING := START.(lock := Reader, reader := Joining)

  lemma ReachJoining(acts: seq<Action>)
    ensures var r := ReaderStep(0); Run(START, [r] + ([r] + ([r] + ([r] + acts)))) == Run(JOINING, acts)
  {
    var r := ReaderStep(0);
    var s1 := START.(reader := Locking);
    var s2 := s1.(lock := Reader, reader := Checking);
    RunStep(s2.(reader := SawEmpty), r, acts);
    RunStep(s2, r, [r] + acts);
    RunStep(s1, r, [r] + ([r] + acts));
    RunStep(START, r, [r] + ([r] + ([r] + acts)));
  }

  lemma CloseWhileJoining()
    ensures var r := ReaderStep(0);
      Run(JOINING, [PeerClose] + ([LoopStep] + ([LoopStep] + ([r] + ([r] + []))))) ==
      JOINING.(closed := true, late := true, lock := Nobody, reader := Parked)
  {
    var r := ReaderStep(0);
    var closed := JOINING.(closed := true, loop := Closed);
    var signalled := closed.(loop := Free, late := true);
    var joined := signalled.(reader := Leaving);
    assert Run(joined.(lock := Nobody, reader := Parked), []) == joined.(lock := Nobody, reader := Parked);
    hide Run;
    RunStep(joined, r, []);
    RunStep(signalled, r, [r] + []);
    RunStep(closed, LoopStep, [r] + ([r] + []));
    RunStep(JOINING.(loop := Closing), LoopStep, [LoopStep] + ([r] + ([r] + [])));
    RunStep(JOINING, PeerClose, [LoopStep] + ([LoopStep] + ([r] + ([r] + []))));
  }

  /** And that can happen: after it no step of either party is enabled. */
  lemma CloseCanBeMissed()
    ensures exists acts :: var s := Run(START, acts);
      Stranded(s) && Read(s, 0).None? && Serve(s).None?
  {
    hide Run;
    var r := ReaderStep(0);
    CloseWhileJoining();
    ReachJoining([PeerClose] + ([LoopStep] + ([LoopStep] + ([r] + ([r] + [])))));
  }

  /** A local Close of a stream whose reader sleeps is one of the late ones. */
  lemma LocalCloseStrands()
    ensures exists acts :: var s := Run(START, acts);
      Stranded(s) && s.received == [] && Read(s, 0).None? && Serve(s).None?
  {
    var r := ReaderStep(0);
    var parked := JOINING.(lock := Nobody, reader := Parked);
    var s := parked.(closed := true, late := true);
    assert Run(s, []) == s;
    hide Run;
    RunStep(parked, LocalClose, []);
    RunStep(JOINING.(reader := Leaving), r, [LocalClose] + []);
    RunStep(JOINING, r, [r] + ([LocalClose] + []));
    ReachJoining([r] + ([r] + ([LocalClose] + [])));
  }
}
