/** The worker pool of app/core/worker.go as interleaved atomic steps: callers of Submit, worker
    goroutines, scale-up under a lock, idle exit and Stop. Tasks are numbered as they are queued. */
module WorkerPool {
  datatype Config = Config(numWorkers: nat, queueSize: nat, numCPU: nat)

  function Max(a: int, b: int): int {
    if a > b then a else b
  }

  function Min(a: int, b: int): int {
    if a < b then a else b
  }

  function MinWorkers(c: Config): nat {
    Max(2, c.numWorkers / 4)
  }

  function MaxWorkers(c: Config): nat {
    c.numCPU * 4
  }

  /** A worker goroutine between two of its atomic steps. */
  datatype Worker =
    | Idle
    | Received(t: nat)
    | Active(t: nat)
    | Numbered(t: nat)
    | Ran(t: nat)
    | Inactive(t: nat)
    | Completed
    | TimedOut
    | Loaded(current: int)
    | Leaving
    | Left
    | Exited
    | Stopped

  /** A call of Submit between two of its atomic steps; Scaling holds the pool lock. */
  datatype Caller =
    | Entered
    | Pressed
    | Scaling(current: int, made: nat, wanted: nat, counted: bool)
    | Sending
    | Queued
    | Dropped
    | Failed

  datatype State = State(
    config: Config,
    queue: seq<nat>,
    next: nat,
    workers: seq<Worker>,
    callers: seq<Caller>,
    locked: bool,
    numWorkers: int,
    active: int,
    submitted: nat,
    completed: nat,
    stopped: bool,
    cancelled: bool,
    ran: seq<nat>,
    done: seq<nat>)

  function Idlers(n: nat): (ws: seq<Worker>)
    ensures |ws| == n
  {
    seq(n, i => Idle)
  }

  function Start(c: Config): State
  {
    State(c, [], 0, Idlers(c.numWorkers), [], false, c.numWorkers, 0, 0, 0, false, false, [], [])
  }

  datatype Action =
    | Call
    | CallerStep(j: nat)
    | CallerFail(j: nat)
    | Handoff(j: nat, i: nat)
    | Take(i: nat)
    | Timeout(i: nat)
    | Quit(i: nat)
    | WorkerStep(i: nat)
    | StopFlag
    | Cancel

  function SetWorker(s: State, i: nat, w: Worker): State
    requires i < |s.workers|
  {
    s.(workers := s.workers[i := w])
  }

  function SetCaller(s: State, j: nat, c: Caller): State
    requires j < |s.callers|
  {
    s.(callers := s.callers[j := c])
  }

  /** Running a task and accounting for it. */
  function Work(s: State, i: nat): State
    requires i < |s.workers|
  {
    match s.workers[i]
    case Received(t) => SetWorker(s, i, Active(t)).(active := s.active + 1)
    case Active(t) => SetWorker(s, i, Numbered(t)).(submitted := s.submitted + 1)
    case Numbered(t) => SetWorker(s, i, Ran(t)).(ran := s.ran + [t])
    case Ran(t) => SetWorker(s, i, Inactive(t)).(active := s.active - 1)
    case Inactive(t) => SetWorker(s, i, Completed).(completed := s.completed + 1, done := s.done + [t])
    case _ => s
  }

  /** Coming back to the loop, or leaving it after a timeout if there are workers to spare. */
  function Retire(s: State, i: nat): State
    requires i < |s.workers|
  {
    match s.workers[i]
    case Completed => SetWorker(s, i, Idle)
    case TimedOut => SetWorker(s, i, Loaded(s.numWorkers))
    case Loaded(current) => SetWorker(s, i, if current > MinWorkers(s.config) then Leaving else Idle)
    case Leaving => SetWorker(s, i, Left).(numWorkers := s.numWorkers - 1)
    case Left => SetWorker(s, i, Exited)
    case _ => s
  }

  function StepWorker(s: State, i: nat): State
    requires i < |s.workers|
  {
    if Holds(s.workers[i]) then Work(s, i) else Retire(s, i)
  }

  function StepCaller(s: State, j: nat): State
    requires j < |s.callers|
  {
    match s.callers[j]
    case Entered =>
      if s.stopped then SetCaller(s, j, Dropped)
      else SetCaller(s, j, if |s.queue| > s.config.queueSize * 3 / 4 then Pressed else Sending)
    case Pressed =>
      if s.locked then s
      else
        var wanted := if s.numWorkers >= MaxWorkers(s.config) then 0 else Min(4, MaxWorkers(s.config) - s.numWorkers);
        SetCaller(s, j, Scaling(s.numWorkers, 0, wanted, false)).(locked := true)
    case Scaling(current, made, wanted, counted) =>
      if counted then
        SetCaller(s, j, Scaling(current, made + 1, wanted, false)).(workers := s.workers + [Idle])
      else if made < wanted then
        SetCaller(s, j, Scaling(current, made, wanted, true)).(numWorkers := s.numWorkers + 1)
      else SetCaller(s, j, Sending).(locked := false)
    case Sending =>
      if |s.queue| < s.config.queueSize
      then SetCaller(s, j, Queued).(queue := s.queue + [s.next], next := s.next + 1)
      else s
    case Queued => s
    case Dropped => s
    case Failed => s
  }

  function Do(s: State, a: Action): State
  {
    match a
    case Call => s.(callers := s.callers + [Entered])
    case CallerStep(j) => if j < |s.callers| then StepCaller(s, j) else s
    case CallerFail(j) => if j < |s.callers| && s.callers[j].Sending? && s.cancelled then SetCaller(s, j, Failed) else s
    case Handoff(j, i) =>
      if s.config.queueSize == 0 && j < |s.callers| && s.callers[j].Sending? && i < |s.workers| && s.workers[i].Idle?
      then SetWorker(SetCaller(s, j, Queued), i, Received(s.next)).(next := s.next + 1)
      else s
    case Take(i) =>
      if i < |s.workers| && s.workers[i].Idle? && s.queue != []
      then SetWorker(s, i, Received(s.queue[0])).(queue := s.queue[1..])
      else s
    case Timeout(i) => if i < |s.workers| && s.workers[i].Idle? then SetWorker(s, i, TimedOut) else s
    case Quit(i) => if i < |s.workers| && s.workers[i].Idle? && s.cancelled then SetWorker(s, i, Stopped) else s
    case WorkerStep(i) => if i < |s.workers| then StepWorker(s, i) else s
    case StopFlag => s.(stopped := true)
    case Cancel => if s.stopped then s.(cancelled := true) else s
  }

  function Run(s: State, acts: seq<Action>): State
    decreases acts
  {
    if acts == [] then s else Run(Do(s, acts[0]), acts[1..])
  }

  // ---------- counting workers and the tasks they hold ----------

  predicate Holds(w: Worker) {
    w.Received? || w.Active? || w.Numbered? || w.Ran? || w.Inactive?
  }

  predicate Busy(w: Worker) {
    w.Active? || w.Numbered? || w.Ran?
  }

  /** Between the two counter updates. */
  predicate Accounted(w: Worker) {
    w.Numbered? || w.Ran? || w.Inactive?
  }

  predicate HasRun(w: Worker) {
    w.Ran? || w.Inactive?
  }

  /** Still included in numWorkers. */
  predicate Enrolled(w: Worker) {
    !w.Left? && !w.Exited?
  }

  /** Kinds of workers to count; those that hold task t, or hold it and have run it, among them. */
  datatype Kind = KBusy | KAccounted | KEnrolled | KHolds(t: nat) | KHasRun(t: nat)

  predicate Is(k: Kind, w: Worker) {
    match k
    case KBusy => Busy(w)
    case KAccounted => Accounted(w)
    case KEnrolled => Enrolled(w)
    case KHolds(t) => Holds(w) && w.t == t
    case KHasRun(t) => HasRun(w) && w.t == t
  }

  function One(b: bool): nat {
    if b then 1 else 0
  }

  function Count(ws: seq<Worker>, k: Kind): nat
  {
    if ws == [] then 0 else Count(ws[..|ws| - 1], k) + One(Is(k, ws[|ws| - 1]))
  }

  function Times(log: seq<nat>, t: nat): nat
  {
    if log == [] then 0 else Times(log[..|log| - 1], t) + One(log[|log| - 1] == t)
  }

  lemma {:induction false} CountUpdate(ws: seq<Worker>, i: nat, w: Worker, k: Kind)
    requires i < |ws|
    ensures Count(ws[i := w], k) + One(Is(k, ws[i])) == Count(ws, k) + One(Is(k, w))
  {
    var n, us := |ws| - 1, ws[i := w];
    if i < n {
      CountUpdate(ws[..n], i, w, k);
      assert us[..n] == ws[..n][i := w];
    } else {
      assert us[..n] == ws[..n];
    }
  }

  lemma UpdateWorker(ws: seq<Worker>, i: nat, w: Worker)
    requires i < |ws|
    ensures forall k :: Count(ws[i := w], k) + One(Is(k, ws[i])) == Count(ws, k) + One(Is(k, w))
  {
    forall k {
      CountUpdate(ws, i, w, k);
    }
  }

  lemma CountSnoc(ws: seq<Worker>, w: Worker, k: Kind)
    ensures Count(ws + [w], k) == Count(ws, k) + One(Is(k, w))
  {
    assert (ws + [w])[..|ws|] == ws;
  }

  lemma TimesSnoc(log: seq<nat>, u: nat, t: nat)
    ensures Times(log + [u], t) == Times(log, t) + One(u == t)
  {
    assert (log + [u])[..|log|] == log;
  }

  // ---------- conservation ----------

  /** The queue holds the most recently queued tasks, oldest first. */
  ghost predicate Fifo(s: State)
  {
    && |s.queue| <= s.next && |s.queue| <= s.config.queueSize
    && forall i | 0 <= i < |s.queue| :: s.queue[i] == s.next - |s.queue| + i
  }

  /** Task t is in one place: queued, held by one worker, or done; and it has run once if it
      is done or its worker is past running it. */
  ghost predicate InOnePlace(s: State, t: nat)
  {
    && One(s.next - |s.queue| <= t < s.next) + Count(s.workers, KHolds(t)) + Times(s.done, t) == One(t < s.next)
    && Times(s.ran, t) == Times(s.done, t) + Count(s.workers, KHasRun(t))
  }

  ghost predicate Balanced(s: State)
  {
    && s.submitted == s.completed + Count(s.workers, KAccounted)
    && s.active == Count(s.workers, KBusy)
    && s.completed == |s.done|
  }

  ghost predicate Conserved(s: State, t: nat)
  {
    Fifo(s) && InOnePlace(s, t) && Balanced(s)
  }

  lemma WorkPlaces(s: State, i: nat, t: nat)
    requires InOnePlace(s, t) && i < |s.workers| && Holds(s.workers[i])
    ensures InOnePlace(Work(s, i), t)
  {
    hide Count, Times;
    var w, s' := s.workers[i], Work(s, i);
    CountUpdate(s.workers, i, s'.workers[i], KHolds(t));
    CountUpdate(s.workers, i, s'.workers[i], KHasRun(t));
    TimesSnoc(s.done, w.t, t);
    TimesSnoc(s.ran, w.t, t);
  }

  lemma RetirePlaces(s: State, i: nat, t: nat)
    requires InOnePlace(s, t) && i < |s.workers| && !Holds(s.workers[i])
    ensures InOnePlace(Retire(s, i), t)
  {
    hide Count, Times;
    var s' := Retire(s, i);
    CountUpdate(s.workers, i, s'.workers[i], KHolds(t));
    CountUpdate(s.workers, i, s'.workers[i], KHasRun(t));
  }

  lemma WorkBalances(s: State, i: nat)
    requires Balanced(s) && i < |s.workers| && Holds(s.workers[i])
    ensures Balanced(Work(s, i))
  {
    hide Count;
    var s' := Work(s, i);
    CountUpdate(s.workers, i, s'.workers[i], KAccounted);
    CountUpdate(s.workers, i, s'.workers[i], KBusy);
  }

  lemma RetireBalances(s: State, i: nat)
    requires Balanced(s) && i < |s.workers| && !Holds(s.workers[i])
    ensures Balanced(Retire(s, i))
  {
    hide Count;
    var s' := Retire(s, i);
    CountUpdate(s.workers, i, s'.workers[i], KAccounted);
    CountUpdate(s.workers, i, s'.workers[i], KBusy);
  }

  lemma WorkerConserves(s: State, i: nat, t: nat)
    requires Conserved(s, t) && i < |s.workers|
    ensures Conserved(StepWorker(s, i), t)
  {
    StepFrame(s, i);
    hide Work, Retire, InOnePlace, Balanced;
    if Holds(s.workers[i]) {
      WorkPlaces(s, i, t);
      WorkBalances(s, i);
    } else {
      RetirePlaces(s, i, t);
      RetireBalances(s, i);
    }
  }

  /** What a worker's own step leaves alone. */
  ghost predicate WorkerFrame(s: State, s': State)
  {
    && s'.queue == s.queue && s'.next == s.next && s'.config == s.config
    && s'.locked == s.locked && s'.callers == s.callers && s'.numWorkers <= s.numWorkers
  }

  lemma WorkFrame(s: State, i: nat)
    requires i < |s.workers|
    ensures WorkerFrame(s, Work(s, i))
  {
  }

  lemma RetireFrame(s: State, i: nat)
    requires i < |s.workers|
    ensures WorkerFrame(s, Retire(s, i))
  {
  }

  lemma StepFrame(s: State, i: nat)
    requires i < |s.workers|
    ensures WorkerFrame(s, StepWorker(s, i))
  {
    hide Work, Retire, WorkerFrame;
    WorkFrame(s, i);
    RetireFrame(s, i);
  }

  /** A caller's step at most starts a worker or queues the next task. */
  ghost predicate CallerShape(s: State, s': State)
  {
    && s'.config == s.config && s'.done == s.done && s'.ran == s.ran
    && s'.submitted == s.submitted && s'.completed == s.completed && s'.active == s.active
    && if s'.queue == s.queue
       then s'.next == s.next && (s'.workers == s.workers || s'.workers == s.workers + [Idle])
       else
         && s'.workers == s.workers && |s.queue| < s.config.queueSize
         && s'.queue == s.queue + [s.next] && s'.next == s.next + 1
  }

  lemma CallerShaped(s: State, j: nat)
    requires j < |s.callers|
    ensures CallerShape(s, StepCaller(s, j))
  {
    hide Min, MaxWorkers;
    var s' := StepCaller(s, j);
    if s.callers[j].Sending? && |s.queue| < s.config.queueSize {
      assert |s'.queue| != |s.queue|;
    } else {
      assert s'.queue == s.queue;
    }
  }

  /** Running a task takes no decision and leaves nobody. */
  lemma WorkShape(s: State, i: nat)
    requires i < |s.workers|
    ensures var s' := Work(s, i);
      && WorkerFrame(s, s') && s'.numWorkers == s.numWorkers
      && i < |s'.workers| && s'.workers == s.workers[i := s'.workers[i]]
      && (s'.workers[i] == s.workers[i] || (Holds(s.workers[i]) && (Holds(s'.workers[i]) || s'.workers[i].Completed?)))
  {
    hide WorkerFrame;
    WorkFrame(s, i);
  }

  lemma CallerPlaces(s: State, j: nat, t: nat)
    requires Fifo(s) && InOnePlace(s, t) && j < |s.callers|
    ensures Fifo(StepCaller(s, j)) && InOnePlace(StepCaller(s, j), t)
  {
    hide Count, Times, StepCaller;
    CallerShaped(s, j);
    CountSnoc(s.workers, Idle, KHolds(t));
    CountSnoc(s.workers, Idle, KHasRun(t));
  }

  lemma CallerBalances(s: State, j: nat)
    requires Balanced(s) && j < |s.callers|
    ensures Balanced(StepCaller(s, j))
  {
    hide Count, StepCaller;
    CallerShaped(s, j);
    CountSnoc(s.workers, Idle, KAccounted);
    CountSnoc(s.workers, Idle, KBusy);
  }

  lemma MoveConserves(s: State, i: nat, w: Worker, s': State, t: nat)
    requires i < |s.workers| && s.workers[i].Idle? && (w.TimedOut? || w.Stopped?)
    requires s' == SetWorker(s, i, w) && Conserved(s, t)
    ensures Conserved(s', t)
  {
    hide Count, Times;
    UpdateWorker(s.workers, i, w);
  }

  lemma TakeConserves(s: State, i: nat, t: nat)
    requires Conserved(s, t) && i < |s.workers| && s.workers[i].Idle? && s.queue != []
    ensures Conserved(Do(s, Take(i)), t)
  {
    hide Count, Times;
    UpdateWorker(s.workers, i, Received(s.queue[0]));
  }

  lemma HandoffConserves(s: State, j: nat, i: nat, t: nat)
    requires Conserved(s, t) && i < |s.workers|
    ensures Conserved(Do(s, Handoff(j, i)), t)
  {
    hide Count, Times;
    UpdateWorker(s.workers, i, Received(s.next));
  }

  lemma CallerConserves(s: State, j: nat, t: nat)
    requires Conserved(s, t) && j < |s.callers|
    ensures Conserved(StepCaller(s, j), t)
  {
    hide InOnePlace, Balanced, Fifo;
    CallerPlaces(s, j, t);
    CallerBalances(s, j);
  }

  lemma ActionConserves(s: State, a: Action, t: nat)
    requires Conserved(s, t)
    ensures Conserved(Do(s, a), t)
  {
    match a
    case WorkerStep(i) => if i < |s.workers| { WorkerConserves(s, i, t); }
    case CallerStep(j) => if j < |s.callers| { CallerConserves(s, j, t); }
    case Timeout(i) => if Do(s, a) != s { MoveConserves(s, i, TimedOut, Do(s, a), t); }
    case Quit(i) => if Do(s, a) != s { MoveConserves(s, i, Stopped, Do(s, a), t); }
    case Take(i) => if Do(s, a) != s { TakeConserves(s, i, t); }
    case Handoff(j, i) => if Do(s, a) != s { HandoffConserves(s, j, i, t); }
    case _ =>
  }

  lemma {:induction false} RunConserves(s: State, acts: seq<Action>, t: nat)
    requires Conserved(s, t)
    ensures Conserved(Run(s, acts), t)
    decreases acts
  {
    if acts != [] {
      hide Do, Conserved;
      ActionConserves(s, acts[0], t);
      RunConserves(Do(s, acts[0]), acts[1..], t);
    }
  }

  lemma {:induction false} IdlePool(n: nat)
    ensures forall k :: Count(Idlers(n), k) == if k == KEnrolled then n else 0
  {
    if n > 0 {
      IdlePool(n - 1);
      assert Idlers(n)[..n - 1] == Idlers(n - 1);
    }
  }

  /** On every run each queued task is queued, held by exactly one worker, or done, never two of
      these; none runs twice; and the two counters differ by the workers between their updates. */
  lemma Conservation(c: Config, acts: seq<Action>, t: nat)
    ensures Conserved(Run(Start(c), acts), t)
    ensures Times(Run(Start(c), acts).ran, t) <= 1
    ensures Run(Start(c), acts).completed <= Run(Start(c), acts).submitted
  {
    hide Run, Count, Times;
    IdlePool(c.numWorkers);
    assert Times([], t) == 0 by { NothingYet(t); }
    RunConserves(Start(c), acts, t);
    var s := Run(Start(c), acts);
    RunnersHold(s.workers, t);
  }

  lemma NothingYet(t: nat)
    ensures Times([], t) == 0
  {
  }

  lemma {:induction false} RunnersHold(ws: seq<Worker>, t: nat)
    ensures Count(ws, KHasRun(t)) <= Count(ws, KHolds(t))
  {
    if ws != [] {
      RunnersHold(ws[..|ws| - 1], t);
    }
  }

  // ---------- how many workers ----------

  /** The caller that scales up, if any, holds the lock; it has announced at most one worker
      that it has not started yet, and stays within the limit it computed. */
  ghost predicate ScalerOk(s: State, c: Caller)
  {
    c.Scaling? ==>
      && s.locked && c.made <= c.wanted
      && (c.counted ==> c.made < c.wanted)
      && s.numWorkers <= Max(Max(s.config.numWorkers, MaxWorkers(s.config)), 0)
      && (c.wanted > 0 ==> c.current + c.wanted <= MaxWorkers(s.config)
                           && s.numWorkers <= c.current + c.made + One(c.counted))
  }

  predicate Announced(c: Caller) {
    c.Scaling? && c.counted
  }

  ghost predicate Bounded(s: State)
  {
    && s.numWorkers <= Max(s.config.numWorkers, MaxWorkers(s.config))
    && (forall j | 0 <= j < |s.callers| :: ScalerOk(s, s.callers[j]))
    && (forall i, j | 0 <= i < |s.callers| && 0 <= j < |s.callers| && i != j ::
          !(s.callers[i].Scaling? && s.callers[j].Scaling?))
  }

  /** Steps that start no worker and take no lock. */
  lemma QuietBounded(s: State, s': State)
    requires Bounded(s) && s'.config == s.config && s'.locked == s.locked && s'.numWorkers <= s.numWorkers
    requires |s.callers| <= |s'.callers|
    requires forall j | 0 <= j < |s.callers| :: s'.callers[j] == s.callers[j] || !s'.callers[j].Scaling?
    requires forall j | |s.callers| <= j < |s'.callers| :: !s'.callers[j].Scaling?
    ensures Bounded(s')
  {
    forall j | 0 <= j < |s'.callers| ensures ScalerOk(s', s'.callers[j]) {
      if j < |s.callers| {
        assert ScalerOk(s, s.callers[j]);
      }
    }
  }

  lemma ActionBounded(s: State, a: Action)
    requires Bounded(s)
    ensures Bounded(Do(s, a))
  {
    hide StepWorker, StepCaller, Bounded;
    if a.CallerStep? {
      if a.j < |s.callers| {
        CallerBounded(s, a.j);
      }
    } else {
      if a.WorkerStep? && a.i < |s.workers| {
        StepFrame(s, a.i);
      }
      QuietBounded(s, Do(s, a));
    }
  }

  lemma CallerBounded(s: State, j: nat)
    requires Bounded(s) && j < |s.callers|
    ensures Bounded(StepCaller(s, j))
  {
    var s' := StepCaller(s, j);
    assert ScalerOk(s, s.callers[j]);
    if s.callers[j].Scaling? || (s.callers[j].Pressed? && !s.locked) {
      forall i | 0 <= i < |s'.callers| && i != j ensures ScalerOk(s', s'.callers[i]) && !s'.callers[i].Scaling? {
        assert ScalerOk(s, s.callers[i]);
      }
      assert ScalerOk(s', s'.callers[j]);
    } else {
      hide Bounded;
      QuietBounded(s, s');
    }
  }

  lemma {:induction false} RunBounded(s: State, acts: seq<Action>)
    requires Bounded(s)
    ensures Bounded(Run(s, acts))
    decreases acts
  {
    if acts != [] {
      hide Do, Bounded;
      ActionBounded(s, acts[0]);
      RunBounded(Do(s, acts[0]), acts[1..]);
    }
  }

  /** numWorkers never exceeds what the pool started with or four per CPU, whichever is more. */
  lemma WorkerLimit(c: Config, acts: seq<Action>)
    ensures Run(Start(c), acts).numWorkers <= Max(c.numWorkers, MaxWorkers(c))
  {
    RunBounded(Start(c), acts);
    SameConfig(Start(c), acts);
  }

  lemma ActionKeepsConfig(s: State, a: Action)
    ensures Do(s, a).config == s.config
  {
  }

  lemma {:induction false} SameConfig(s: State, acts: seq<Action>)
    ensures Run(s, acts).config == s.config
    decreases acts
  {
    if acts != [] {
      hide Do;
      ActionKeepsConfig(s, acts[0]);
      SameConfig(Do(s, acts[0]), acts[1..]);
    }
  }

  // ---------- numWorkers counts the workers ----------

  /** numWorkers is the enrolled workers and the one announced but not started yet, if any. */
  ghost predicate Counted(s: State)
  {
    s.numWorkers == Count(s.workers, KEnrolled) + One(exists j | 0 <= j < |s.callers| :: Announced(s.callers[j]))
  }

  /** Announcing a worker and counting it are one step, starting it the next. */
  ghost predicate Announces(s: State, s': State, j: nat)
  {
    && j < |s.callers| == |s'.callers| && s'.callers == s.callers[j := s'.callers[j]]
    && (s'.workers == s.workers || s'.workers == s.workers + [Idle])
    && s'.numWorkers + |s.workers| + One(Announced(s.callers[j])) ==
       s.numWorkers + |s'.workers| + One(Announced(s'.callers[j]))
    && (Announced(s'.callers[j]) ==> s.callers[j].Scaling?)
  }

  lemma ScalingAnnounces(s: State, j: nat)
    requires j < |s.callers| && s.callers[j].Scaling?
    ensures Announces(s, StepCaller(s, j), j)
  {
    hide Min, MaxWorkers;
  }

  lemma CallerAnnounces(s: State, j: nat)
    requires j < |s.callers|
    ensures Announces(s, StepCaller(s, j), j)
  {
    hide Min, MaxWorkers;
    if s.callers[j].Scaling? {
      ScalingAnnounces(s, j);
    } else {
      assert StepCaller(s, j).workers == s.workers && !Announced(StepCaller(s, j).callers[j]);
    }
  }

  lemma CallerCounted(s: State, j: nat)
    requires Bounded(s) && Counted(s) && j < |s.callers|
    ensures Counted(StepCaller(s, j))
  {
    hide Count, StepCaller, ScalerOk;
    CallerAnnounces(s, j);
    CountSnoc(s.workers, Idle, KEnrolled);
    var s' := StepCaller(s, j);
    if s.callers[j].Scaling? {
      assert forall i | 0 <= i < |s.callers| && i != j :: !Announced(s'.callers[i]);
      assert Announced(s.callers[j]) <==> exists i | 0 <= i < |s.callers| :: Announced(s.callers[i]);
      assert Announced(s'.callers[j]) <==> exists i | 0 <= i < |s'.callers| :: Announced(s'.callers[i]);
    } else {
      AnnouncedKept(s.callers, s'.callers);
    }
  }

  lemma AnnouncedKept(cs: seq<Caller>, ds: seq<Caller>)
    requires |cs| <= |ds|
    requires forall i | 0 <= i < |cs| :: Announced(ds[i]) == Announced(cs[i])
    requires forall i | |cs| <= i < |ds| :: !Announced(ds[i])
    ensures (exists i | 0 <= i < |cs| :: Announced(cs[i])) <==> (exists i | 0 <= i < |ds| :: Announced(ds[i]))
  {
    if i :| 0 <= i < |cs| && Announced(cs[i]) {
      assert Announced(ds[i]);
    }
  }

  lemma WorkCounted(s: State, i: nat)
    requires Counted(s) && i < |s.workers| && Holds(s.workers[i])
    ensures Counted(Work(s, i))
  {
    hide Count, Work;
    WorkShape(s, i);
    CountUpdate(s.workers, i, Work(s, i).workers[i], KEnrolled);
  }

  /** Leaving the pool and being counted out are one step. */
  lemma RetireCount(s: State, i: nat)
    requires i < |s.workers| && !Holds(s.workers[i])
    ensures var s' := Retire(s, i);
      && s'.callers == s.callers && i < |s'.workers| && s'.workers == s.workers[i := s'.workers[i]]
      && s'.numWorkers - One(Is(KEnrolled, s'.workers[i])) == s.numWorkers - One(Is(KEnrolled, s.workers[i]))
  {
  }

  lemma RetireCounted(s: State, i: nat)
    requires Counted(s) && i < |s.workers| && !Holds(s.workers[i])
    ensures Counted(Retire(s, i))
  {
    hide Count, Retire, Is;
    RetireCount(s, i);
    CountUpdate(s.workers, i, Retire(s, i).workers[i], KEnrolled);
  }

  lemma WorkerCounted(s: State, i: nat)
    requires Counted(s) && i < |s.workers|
    ensures Counted(StepWorker(s, i))
  {
    hide Counted, Work, Retire;
    if Holds(s.workers[i]) {
      WorkCounted(s, i);
    } else {
      RetireCounted(s, i);
    }
  }

  lemma ActionCounted(s: State, a: Action)
    requires Bounded(s) && Counted(s)
    ensures Counted(Do(s, a))
  {
    hide Count, StepWorker, StepCaller, Bounded;
    match a
    case WorkerStep(i) => if i < |s.workers| { WorkerCounted(s, i); }
    case CallerStep(j) => if j < |s.callers| { CallerCounted(s, j); }
    case Timeout(i) => if i < |s.workers| { CountUpdate(s.workers, i, TimedOut, KEnrolled); }
    case Quit(i) => if i < |s.workers| { CountUpdate(s.workers, i, Stopped, KEnrolled); }
    case Take(i) => if i < |s.workers| && s.queue != [] { CountUpdate(s.workers, i, Received(s.queue[0]), KEnrolled); }
    case Handoff(j, i) =>
      if i < |s.workers| { CountUpdate(s.workers, i, Received(s.next), KEnrolled); }
      AnnouncedKept(s.callers, Do(s, a).callers);
    case _ => AnnouncedKept(s.callers, Do(s, a).callers);
  }

  lemma {:induction false} RunCounted(s: State, acts: seq<Action>)
    requires Bounded(s) && Counted(s)
    ensures Counted(Run(s, acts))
    decreases acts
  {
    if acts != [] {
      hide Do, Bounded, Counted;
      ActionBounded(s, acts[0]);
      ActionCounted(s, acts[0]);
      RunCounted(Do(s, acts[0]), acts[1..]);
    }
  }

  /** The counter is exact on every run, so in particular it is never negative. */
  lemma WorkersAreCounted(c: Config, acts: seq<Action>)
    ensures Counted(Run(Start(c), acts)) && 0 <= Run(Start(c), acts).numWorkers
  {
    hide Count;
    IdlePool(c.numWorkers);
    RunCounted(Start(c), acts);
  }

  // ---------- the minimum ----------

  predicate Deciding(w: Worker) {
    w.Loaded? || w.Leaving?
  }

  /** No two workers are ever between loading the count and lowering it. */
  ghost predicate OneAtATime(s: State, acts: seq<Action>)
    decreases acts
  {
    && (forall i, j | 0 <= i < |s.workers| && 0 <= j < |s.workers| && i != j ::
          !(Deciding(s.workers[i]) && Deciding(s.workers[j])))
    && (acts == [] || OneAtATime(Do(s, acts[0]), acts[1..]))
  }

  function Floor(c: Config): nat {
    Min(c.numWorkers, MinWorkers(c))
  }

  /** What a deciding worker has seen still stands. */
  predicate Sound(w: Worker, numWorkers: int, minWorkers: int)
  {
    (w.Loaded? ==> w.current <= numWorkers) && (w.Leaving? ==> minWorkers < numWorkers)
  }

  ghost predicate AboveFloor(s: State)
  {
    && Floor(s.config) <= s.numWorkers
    && forall i | 0 <= i < |s.workers| :: Sound(s.workers[i], s.numWorkers, MinWorkers(s.config))
  }

  /** Steps that lower nothing and change worker i only, soundly. */
  lemma StepsAboveFloor(s: State, s': State)
    requires AboveFloor(s) && s'.config == s.config && s.numWorkers <= s'.numWorkers && |s.workers| <= |s'.workers|
    requires forall i | 0 <= i < |s'.workers| ::
      (i < |s.workers| && s'.workers[i] == s.workers[i]) || Sound(s'.workers[i], s'.numWorkers, MinWorkers(s.config))
    ensures AboveFloor(s')
  {
    forall i | 0 <= i < |s'.workers| ensures Sound(s'.workers[i], s'.numWorkers, MinWorkers(s.config)) {
      assert i < |s.workers| ==> Sound(s.workers[i], s.numWorkers, MinWorkers(s.config));
    }
  }

  /** The one worker that leaves has seen a count above the minimum, and it still is. */
  lemma LeaveAboveFloor(s: State, i: nat)
    requires AboveFloor(s) && OneAtATime(s, []) && i < |s.workers| && s.workers[i].Leaving?
    ensures AboveFloor(Retire(s, i))
  {
    var s' := Retire(s, i);
    assert Sound(s.workers[i], s.numWorkers, MinWorkers(s.config));
    forall k | 0 <= k < |s.workers| ensures Sound(s'.workers[k], s'.numWorkers, MinWorkers(s.config)) {
      assert k != i ==> !(Deciding(s.workers[i]) && Deciding(s.workers[k]));
    }
  }

  lemma RetireSound(s: State, i: nat)
    requires i < |s.workers| && !s.workers[i].Leaving? && Sound(s.workers[i], s.numWorkers, MinWorkers(s.config))
    ensures var s' := Retire(s, i);
      && s'.config == s.config && s'.numWorkers == s.numWorkers && i < |s'.workers|
      && s'.workers == s.workers[i := s'.workers[i]]
      && Sound(s'.workers[i], s'.numWorkers, MinWorkers(s.config))
  {
  }

  lemma RetireAboveFloor(s: State, i: nat)
    requires AboveFloor(s) && OneAtATime(s, []) && i < |s.workers|
    ensures AboveFloor(Retire(s, i))
  {
    assert Sound(s.workers[i], s.numWorkers, MinWorkers(s.config));
    hide AboveFloor, Retire, Sound;
    if s.workers[i].Leaving? {
      LeaveAboveFloor(s, i);
    } else {
      RetireSound(s, i);
      StepsAboveFloor(s, Retire(s, i));
    }
  }

  lemma WorkAboveFloor(s: State, i: nat)
    requires AboveFloor(s) && i < |s.workers|
    ensures AboveFloor(Work(s, i))
  {
    hide AboveFloor, Work;
    WorkShape(s, i);
    StepsAboveFloor(s, Work(s, i));
  }

  lemma CallerAboveFloor(s: State, j: nat)
    requires AboveFloor(s) && j < |s.callers|
    ensures AboveFloor(StepCaller(s, j))
  {
    hide AboveFloor;
    StepsAboveFloor(s, StepCaller(s, j));
  }

  lemma ActionAboveFloor(s: State, a: Action)
    requires AboveFloor(s) && OneAtATime(s, [])
    ensures AboveFloor(Do(s, a))
  {
    hide AboveFloor, Work, Retire, StepCaller;
    match a
    case WorkerStep(i) => if i < |s.workers| { WorkAboveFloor(s, i); RetireAboveFloor(s, i); }
    case CallerStep(j) => if j < |s.callers| { CallerAboveFloor(s, j); }
    case _ => StepsAboveFloor(s, Do(s, a));
  }

  lemma {:induction false} RunAboveFloor(s: State, acts: seq<Action>)
    requires AboveFloor(s) && OneAtATime(s, acts)
    ensures AboveFloor(Run(s, acts))
    decreases acts
  {
    if acts != [] {
      hide Do, AboveFloor;
      ActionAboveFloor(s, acts[0]);
      RunAboveFloor(Do(s, acts[0]), acts[1..]);
    }
  }

  /** When idle exits are decided one at a time every pool keeps the promised minimum. */
  lemma FloorHoldsOneAtATime(c: Config, acts: seq<Action>)
    requires OneAtATime(Start(c), acts)
    ensures Floor(c) <= Run(Start(c), acts).numWorkers
  {
    RunAboveFloor(Start(c), acts);
    SameConfig(Start(c), acts);
  }

  // ---------- the pools that keep the minimum on every run ----------

  /** No more workers than the least minimum, and nothing that could ever add one. */
  predicate NeverScales(c: Config)
  {
    c.numWorkers <= 2 && (c.queueSize == 0 || c.numCPU == 0)
  }

  predicate Staying(w: Worker) {
    !w.Leaving? && (w.Loaded? ==> w.current <= 2)
  }

  predicate AddsNobody(c: Caller, config: Config) {
    (c.Pressed? ==> config.numCPU == 0) && (c.Scaling? ==> c.wanted == 0 && !c.counted)
  }

  ghost predicate Steady(s: State)
  {
    && NeverScales(s.config) && s.numWorkers == s.config.numWorkers && |s.queue| <= s.config.queueSize
    && (forall i | 0 <= i < |s.workers| :: Staying(s.workers[i]))
    && (forall j | 0 <= j < |s.callers| :: AddsNobody(s.callers[j], s.config))
  }

  lemma RetireSteady(s: State, i: nat)
    requires Steady(s) && i < |s.workers|
    ensures Steady(Retire(s, i))
  {
    assert Staying(s.workers[i]);
  }

  lemma WorkSteady(s: State, i: nat)
    requires Steady(s) && i < |s.workers|
    ensures Steady(Work(s, i))
  {
    hide Work;
    WorkShape(s, i);
  }

  lemma WorkerSteady(s: State, i: nat)
    requires Steady(s) && i < |s.workers|
    ensures Steady(StepWorker(s, i))
  {
    hide Steady, Work, Retire;
    WorkSteady(s, i);
    RetireSteady(s, i);
  }

  lemma CallerSteady(s: State, j: nat)
    requires Steady(s) && j < |s.callers|
    ensures Steady(StepCaller(s, j))
  {
    assert AddsNobody(s.callers[j], s.config);
  }

  lemma ActionSteady(s: State, a: Action)
    requires Steady(s)
    ensures Steady(Do(s, a))
  {
    hide StepWorker, StepCaller;
    match a
    case WorkerStep(i) => if i < |s.workers| { WorkerSteady(s, i); }
    case CallerStep(j) => if j < |s.callers| { CallerSteady(s, j); }
    case _ =>
  }

  lemma {:induction false} RunSteady(s: State, acts: seq<Action>)
    requires Steady(s)
    ensures Steady(Run(s, acts))
    decreases acts
  {
    if acts != [] {
      hide Do, Steady;
      ActionSteady(s, acts[0]);
      RunSteady(Do(s, acts[0]), acts[1..]);
    }
  }

  // ---------- one party at a time ----------

  lemma {:induction false} RunConcat(s: State, a: seq<Action>, b: seq<Action>)
    ensures Run(s, a + b) == Run(Run(s, a), b)
    decreases a
  {
    if a == [] {
      assert a + b == b;
    } else {
      hide Do;
      assert (a + b)[1..] == a[1..] + b;
      RunConcat(Do(s, a[0]), a[1..], b);
    }
  }

  lemma RunTwo(s: State, a: Action, b: Action)
    ensures Run(s, [a, b]) == Do(Do(s, a), b)
  {
    hide Do;
    assert [a, b][1..] == [b] && [b][1..] == [];
    assert Run(Do(s, a), [b]) == Run(Do(Do(s, a), b), []);
  }

  lemma RunThree(s: State, a: Action, b: Action, c: Action)
    ensures Run(s, [a, b, c]) == Do(Do(Do(s, a), b), c)
  {
    hide Do;
    assert [a, b, c][1..] == [b, c] && [b, c][1..] == [c] && [c][1..] == [];
    assert Run(Do(Do(s, a), b), [c]) == Run(Do(Do(Do(s, a), b), c), []);
  }

  /** How many workers a call of Submit starts: if more than three quarters of the queue are
      taken and there are fewer workers than four per CPU, four at most and no more than those. */
  function Added(s: State): nat
  {
    if 4 * |s.queue| > 3 * s.config.queueSize && s.numWorkers < 4 * s.config.numCPU
    then (if 4 * s.config.numCPU - s.numWorkers < 4 then 4 * s.config.numCPU - s.numWorkers else 4)
    else 0
  }

  /** A call of Submit that has made room for its task, in state s. */
  function Pressured(s: State): State
  {
    s.(callers := s.callers + [Sending], workers := s.workers + Idlers(Added(s)), numWorkers := s.numWorkers + Added(s))
  }

  /** It has started m of the workers it wants. */
  function Raised(s: State, wanted: nat, m: nat): State
  {
    s.(callers := s.callers + [Scaling(s.numWorkers, m, wanted, false)], locked := true,
       workers := s.workers + Idlers(m), numWorkers := s.numWorkers + m)
  }

  lemma RaiseOne(s: State, wanted: nat, m: nat)
    requires m < wanted
    ensures var step := CallerStep(|s.callers|);
      Do(Do(Raised(s, wanted, m), step), step) == Raised(s, wanted, m + 1)
  {
    var k := |s.callers|;
    var r, t := Raised(s, wanted, m), Raised(s, wanted, m + 1);
    var counted := r.callers[k := Scaling(s.numWorkers, m, wanted, true)];
    assert counted[k := Scaling(s.numWorkers, m + 1, wanted, false)] == t.callers;
    assert s.workers + Idlers(m) + [Idle] == s.workers + Idlers(m + 1);
    assert Do(r, CallerStep(k)) == r.(callers := counted, numWorkers := s.numWorkers + m + 1);
  }

  lemma {:induction false} RaiseAll(s: State, wanted: nat, m: nat) returns (acts: seq<Action>)
    requires m <= wanted
    ensures Run(Raised(s, wanted, m), acts) == Raised(s, wanted, wanted)
    decreases wanted - m
  {
    hide Do, Raised;
    if m == wanted {
      acts := [];
    } else {
      var step := CallerStep(|s.callers|);
      RaiseOne(s, wanted, m);
      RunTwo(Raised(s, wanted, m), step, step);
      var rest := RaiseAll(s, wanted, m + 1);
      RunConcat(Raised(s, wanted, m), [step, step], rest);
      acts := [step, step] + rest;
    }
  }

  lemma OverMark(n: nat, size: nat)
    ensures n > size * 3 / 4 <==> 4 * n > 3 * size
  {
  }

  lemma EnterAlone(s: State)
    requires !s.stopped
    ensures Run(s, [Call, CallerStep(|s.callers|)]) ==
      s.(callers := s.callers + [if 4 * |s.queue| > 3 * s.config.queueSize then Pressed else Sending])
  {
    var k := |s.callers|;
    var entered := s.(callers := s.callers + [Entered]);
    OverMark(|s.queue|, s.config.queueSize);
    RunTwo(s, Call, CallerStep(k));
    assert entered.callers[k := Pressed] == s.callers + [Pressed];
    assert entered.callers[k := Sending] == s.callers + [Sending];
  }

  /** The lock is taken, the limit computed once, and all the workers wanted are started. */
  lemma ScaleAlone(s: State) returns (acts: seq<Action>)
    requires !s.locked && 4 * |s.queue| > 3 * s.config.queueSize
    ensures Run(s.(callers := s.callers + [Pressed]), acts) == Pressured(s)
  {
    var k, n := |s.callers|, Added(s);
    var pressed, step := s.(callers := s.callers + [Pressed]), CallerStep(k);
    assert pressed.callers[k := Scaling(s.numWorkers, 0, n, false)] == s.callers + [Scaling(s.numWorkers, 0, n, false)];
    assert s.workers + Idlers(0) == s.workers;
    assert Do(pressed, step) == Raised(s, n, 0);
    var up := RaiseAll(s, n, 0);
    var last := Raised(s, n, n);
    assert last.callers[k := Sending] == s.callers + [Sending];
    assert Do(last, step) == Pressured(s);
    hide Do, Raised, Pressured;
    RunTwo(pressed, step, step);
    RunTwo(last, step, step);
    RunConcat(pressed, [step], up);
    RunConcat(pressed, [step] + up, [step]);
    acts := [step] + up + [step];
  }

  lemma PressAlone(s: State) returns (acts: seq<Action>)
    requires !s.stopped && !s.locked
    ensures Run(s, acts) == Pressured(s)
  {
    var enter := [Call, CallerStep(|s.callers|)];
    EnterAlone(s);
    if 4 * |s.queue| > 3 * s.config.queueSize {
      var up := ScaleAlone(s);
      RunConcat(s, enter, up);
      acts := enter + up;
    } else {
      assert s.workers + Idlers(0) == s.workers;
      acts := enter;
    }
  }

  /** A call of Submit by itself: under pressure it first starts workers as Added says, and then
      its task is the last in the queue. */
  lemma SubmitAlone(s: State) returns (acts: seq<Action>)
    requires !s.stopped && !s.locked && |s.queue| < s.config.queueSize
    ensures Run(s, acts) == s.(
      callers := s.callers + [Queued], queue := s.queue + [s.next], next := s.next + 1,
      workers := s.workers + Idlers(Added(s)), numWorkers := s.numWorkers + Added(s))
  {
    var step := CallerStep(|s.callers|);
    var up := PressAlone(s);
    acts := up + [step];
    RunConcat(s, up, [step]);
    RunTwo(Pressured(s), step, step);
    assert Pressured(s).callers[|s.callers| := Queued] == s.callers + [Queued];
  }

  lemma Works(s: State, i: nat)
    requires i < |s.workers|
    ensures s.workers[i].Received? ==>
      Do(s, WorkerStep(i)) == SetWorker(s, i, Active(s.workers[i].t)).(active := s.active + 1)
    ensures s.workers[i].Active? ==>
      Do(s, WorkerStep(i)) == SetWorker(s, i, Numbered(s.workers[i].t)).(submitted := s.submitted + 1)
    ensures s.workers[i].Numbered? ==>
      Do(s, WorkerStep(i)) == SetWorker(s, i, Ran(s.workers[i].t)).(ran := s.ran + [s.workers[i].t])
    ensures s.workers[i].Ran? ==>
      Do(s, WorkerStep(i)) == SetWorker(s, i, Inactive(s.workers[i].t)).(active := s.active - 1)
    ensures s.workers[i].Inactive? ==>
      Do(s, WorkerStep(i)) == SetWorker(s, i, Completed).(completed := s.completed + 1, done := s.done + [s.workers[i].t])
  {
  }

  /** A worker by itself runs the task it has taken, once, and accounts for it. */
  lemma TaskAlone(s: State, i: nat)
    requires i < |s.workers| && s.workers[i].Received?
    ensures var t, step := s.workers[i].t, WorkerStep(i);
      Run(s, [step, step, step] + [step, step]) == s.(workers := s.workers[i := Completed],
        submitted := s.submitted + 1, completed := s.completed + 1, ran := s.ran + [t], done := s.done + [t])
  {
    hide Do;
    var t, step := s.workers[i].t, WorkerStep(i);
    var s1, s2, s3 := Do(s, step), Do(Do(s, step), step), Do(Do(Do(s, step), step), step);
    var s4 := Do(s3, step);
    Overwritten(s.workers, i, Active(t), Numbered(t));
    Overwritten(s.workers, i, Numbered(t), Ran(t));
    Overwritten(s.workers, i, Ran(t), Inactive(t));
    Overwritten(s.workers, i, Inactive(t), Completed);
    Works(s, i);
    Works(s1, i);
    Works(s2, i);
    Works(s3, i);
    Works(s4, i);
    RunThree(s, step, step, step);
    RunTwo(s3, step, step);
    RunConcat(s, [step, step, step], [step, step]);
  }

  lemma Overwritten(ws: seq<Worker>, i: nat, v: Worker, w: Worker)
    requires i < |ws|
    ensures ws[i := v][i := w] == ws[i := w]
  {
  }

  lemma Decides(s: State, i: nat)
    requires i < |s.workers|
    ensures s.workers[i].Idle? ==> Do(s, Timeout(i)) == SetWorker(s, i, TimedOut)
    ensures s.workers[i].TimedOut? ==> Do(s, WorkerStep(i)) == SetWorker(s, i, Loaded(s.numWorkers))
    ensures s.workers[i].Loaded? ==> var n := s.workers[i].current;
      Do(s, WorkerStep(i)) == SetWorker(s, i, if 3 <= n && s.config.numWorkers < 4 * n then Leaving else Idle)
    ensures s.workers[i].Leaving? ==> Do(s, WorkerStep(i)) == SetWorker(s, i, Left).(numWorkers := s.numWorkers - 1)
  {
    if s.workers[i].Loaded? {
      QuarterMark(s.workers[i].current, s.config.numWorkers);
    }
  }

  /** An idle worker by itself whose timer fires leaves exactly when there are at least three workers
      and more than a quarter of the initial number. */
  lemma TimeoutAlone(s: State, i: nat)
    requires i < |s.workers| && s.workers[i].Idle?
    ensures var step := WorkerStep(i); var leaves := 3 <= s.numWorkers && s.config.numWorkers < 4 * s.numWorkers;
      && Run(s, [Timeout(i), step, step]) == SetWorker(s, i, if leaves then Leaving else Idle)
      && (leaves ==> Do(SetWorker(s, i, Leaving), step) == SetWorker(s, i, Left).(numWorkers := s.numWorkers - 1))
  {
    hide Do;
    var step := WorkerStep(i);
    Overwritten(s.workers, i, TimedOut, Loaded(s.numWorkers));
    Overwritten(s.workers, i, Loaded(s.numWorkers), Leaving);
    Overwritten(s.workers, i, Loaded(s.numWorkers), Idle);
    Overwritten(s.workers, i, Leaving, Left);
    Decides(s, i);
    Decides(SetWorker(s, i, TimedOut), i);
    Decides(SetWorker(s, i, Loaded(s.numWorkers)), i);
    Decides(SetWorker(s, i, Leaving), i);
    RunThree(s, Timeout(i), step, step);
  }

  lemma QuarterMark(n: int, initial: nat)
    ensures n > initial / 4 <==> initial < 4 * n
  {
  }

  // ---------- after Stop ----------

  predicate Turned(c: Caller) {
    c.Entered? || c.Dropped?
  }

  lemma StopStep(s: State, a: Action, n: nat)
    requires s.stopped && n <= |s.callers| && forall j | n <= j < |s.callers| :: Turned(s.callers[j])
    ensures var s' := Do(s, a);
      s'.stopped && n <= |s'.callers| && forall j | n <= j < |s'.callers| :: Turned(s'.callers[j])
  {
    hide Work, Retire;
    if a.WorkerStep? && a.i < |s.workers| {
      WorkShape(s, a.i);
      WorkFlags(s, a.i);
      RetireShape(s, a.i);
    }
  }

  lemma {:induction false} TurnedAway(s: State, acts: seq<Action>, n: nat)
    requires s.stopped && n <= |s.callers| && forall j | n <= j < |s.callers| :: Turned(s.callers[j])
    ensures var s' := Run(s, acts); n <= |s'.callers| && forall j | n <= j < |s'.callers| :: Turned(s'.callers[j])
    decreases acts
  {
    if acts != [] {
      hide Do;
      StopStep(s, acts[0], n);
      TurnedAway(Do(s, acts[0]), acts[1..], n);
    }
  }

  /** Whatever the interleaving, no call that enters after Stop ever queues its task. */
  lemma NothingAfterStop(s: State, acts: seq<Action>)
    requires s.stopped
    ensures var s' := Run(s, acts);
      |s.callers| <= |s'.callers| && forall j | |s.callers| <= j < |s'.callers| :: !s'.callers[j].Sending? && !s'.callers[j].Queued?
  {
    hide Run;
    TurnedAway(s, acts, |s.callers|);
  }

  /** Workers and callers give up only after the context is cancelled, and that only after Stop. */
  ghost predicate GivesUpOnlyCancelled(s: State)
  {
    && (s.cancelled ==> s.stopped)
    && (forall i | 0 <= i < |s.workers| :: s.workers[i].Stopped? ==> s.cancelled)
    && (forall j | 0 <= j < |s.callers| :: s.callers[j].Failed? ==> s.cancelled)
  }

  lemma ActionGivesUp(s: State, a: Action)
    requires GivesUpOnlyCancelled(s)
    ensures GivesUpOnlyCancelled(Do(s, a))
  {
    hide Work, Retire, StepCaller;
    if a.WorkerStep? && a.i < |s.workers| {
      WorkerGivesUp(s, a.i);
    } else if a.CallerStep? && a.j < |s.callers| {
      CallerGivesUp(s, a.j);
    }
  }

  lemma RetireShape(s: State, i: nat)
    requires i < |s.workers|
    ensures var s' := Retire(s, i);
      && s'.callers == s.callers && s'.stopped == s.stopped && s'.cancelled == s.cancelled
      && i < |s'.workers| && s'.workers == s.workers[i := s'.workers[i]]
      && (s'.workers[i].Stopped? ==> s.workers[i].Stopped?)
  {
  }

  lemma WorkFlags(s: State, i: nat)
    requires i < |s.workers|
    ensures Work(s, i).stopped == s.stopped && Work(s, i).cancelled == s.cancelled
  {
  }

  lemma WorkerGivesUp(s: State, i: nat)
    requires GivesUpOnlyCancelled(s) && i < |s.workers|
    ensures GivesUpOnlyCancelled(Work(s, i)) && GivesUpOnlyCancelled(Retire(s, i))
  {
    hide Work, Retire;
    WorkShape(s, i);
    WorkFlags(s, i);
    RetireShape(s, i);
  }

  lemma CallerGivesUp(s: State, j: nat)
    requires GivesUpOnlyCancelled(s) && j < |s.callers|
    ensures GivesUpOnlyCancelled(StepCaller(s, j))
  {
  }

  lemma {:induction false} RunGivesUp(s: State, acts: seq<Action>)
    requires GivesUpOnlyCancelled(s)
    ensures GivesUpOnlyCancelled(Run(s, acts))
    decreases acts
  {
    if acts != [] {
      hide Do, GivesUpOnlyCancelled;
      ActionGivesUp(s, acts[0]);
      RunGivesUp(Do(s, acts[0]), acts[1..]);
    }
  }

  /** On every run of a new pool nobody gives up before Stop. */
  lemma NobodyGivesUpBeforeStop(c: Config, acts: seq<Action>)
    ensures GivesUpOnlyCancelled(Run(Start(c), acts))
  {
    hide Run;
    RunGivesUp(Start(c), acts);
  }

  // ---------- runs to zero workers ----------


  /** All workers are idle and there are more of them than the minimum. */
  ghost predicate Spare(s: State)
  {
    && MinWorkers(s.config) < s.numWorkers == |s.workers|
    && forall i | 0 <= i < |s.workers| :: s.workers[i].Idle?
  }

  /** s with its first k workers in one state and the others in another. */
  function Mix(s: State, k: nat, first: Worker, rest: Worker): State
  {
    s.(workers := seq(|s.workers|, i => if i < k then first else rest))
  }

  lemma {:induction false} AllDecide(s: State, k: nat) returns (acts: seq<Action>)
    requires Spare(s) && k <= |s.workers|
    ensures Run(s, acts) == Mix(s, k, Leaving, Idle)
  {
    if k == 0 {
      acts := [];
      assert Mix(s, 0, Leaving, Idle).workers == s.workers;
    } else {
      var before := AllDecide(s, k - 1);
      var t, i := Mix(s, k - 1, Leaving, Idle), k - 1;
      var t1, t2 := SetWorker(t, i, TimedOut), SetWorker(t, i, Loaded(s.numWorkers));
      var step := WorkerStep(i);
      assert Do(t, Timeout(i)) == t1 && Do(t2, step) == SetWorker(t, i, Leaving);
      assert t1.workers[i := Loaded(s.numWorkers)] == t2.workers && Do(t1, step) == t2;
      assert t.workers[i := Leaving] == Mix(s, k, Leaving, Idle).workers;
      RunThree(t, Timeout(i), step, step);
      acts := before + [Timeout(i), step, step];
      RunConcat(s, before, [Timeout(i), step, step]);
    }
  }

  lemma {:induction false} AllLeave(s: State, k: nat) returns (acts: seq<Action>)
    requires Spare(s) && k <= |s.workers|
    ensures Run(s, acts) == Mix(s, k, Left, Leaving).(numWorkers := |s.workers| - k)
  {
    if k == 0 {
      acts := AllDecide(s, |s.workers|);
      assert Mix(s, |s.workers|, Leaving, Idle).workers == Mix(s, 0, Left, Leaving).workers;
    } else {
      var before := AllLeave(s, k - 1);
      var t := Mix(s, k - 1, Left, Leaving).(numWorkers := |s.workers| - (k - 1));
      assert t.workers[k - 1 := Left] == Mix(s, k, Left, Leaving).workers;
      acts := before + [WorkerStep(k - 1)];
      RunConcat(s, before, [WorkerStep(k - 1)]);
      assert [WorkerStep(k - 1)][1..] == [];
    }
  }

  /** k calls of Submit have queued their tasks and no worker has taken one. */
  function Filled(c: Config, k: nat): State
  {
    Start(c).(queue := seq(k, i => i), next := k, callers := seq(k, i => Queued))
  }

  lemma {:induction false} Fill(c: Config, k: nat) returns (acts: seq<Action>)
    requires 0 < c.queueSize && k <= c.queueSize * 3 / 4 + 1
    ensures Run(Start(c), acts) == Filled(c, k)
  {
    if k == 0 {
      acts := [];
      assert Filled(c, 0) == Start(c);
    } else {
      var before := Fill(c, k - 1);
      var s, step := Filled(c, k - 1), CallerStep(k - 1);
      var s1 := s.(callers := s.callers + [Entered]);
      var s2 := s.(callers := s.callers + [Sending]);
      assert s1.callers[k - 1 := Sending] == s2.callers && Do(s1, step) == s2;
      assert s2.callers[k - 1 := Queued] == Filled(c, k).callers;
      assert s.queue + [k - 1] == Filled(c, k).queue;
      assert Do(s2, step) == Filled(c, k);
      RunThree(s, Call, step, step);
      acts := before + [Call, step, step];
      RunConcat(Start(c), before, [Call, step, step]);
    }
  }

  /** Pressure on the queue takes a pool of one or two workers above the minimum. */
  lemma ScaleUp(c: Config) returns (acts: seq<Action>)
    requires 1 <= c.numWorkers <= 2 && 0 < c.queueSize && 0 < c.numCPU
    ensures Spare(Run(Start(c), acts))
  {
    hide Do, Run;
    var s := Filled(c, c.queueSize * 3 / 4 + 1);
    var before := Fill(c, c.queueSize * 3 / 4 + 1);
    var up := PressAlone(s);
    acts := before + up;
    RunConcat(Start(c), before, up);
  }

  /** Any other pool that has workers can lose all of them. */
  lemma FloorCanFail(c: Config)
    requires 0 < c.numWorkers && !NeverScales(c)
    ensures exists acts :: Run(Start(c), acts).numWorkers == 0
  {
    var up := [];
    if c.numWorkers <= 2 {
      up := ScaleUp(c);
    }
    var s := Run(Start(c), up);
    var down := AllLeave(s, |s.workers|);
    RunConcat(Start(c), up, down);
    assert Run(Start(c), up + down).numWorkers == 0;
  }

  /** The promised minimum, or the smaller number a pool was asked for, is kept on every run by
      exactly the pools without workers and those of at most two that can never scale up. */
  lemma FloorExactlyWhenNeverScaling(c: Config)
    ensures (forall acts :: Floor(c) <= Run(Start(c), acts).numWorkers) <==>
      c.numWorkers == 0 || NeverScales(c)
  {
    hide Run;
    if c.numWorkers == 0 {
      forall acts ensures Floor(c) <= Run(Start(c), acts).numWorkers {
        WorkersAreCounted(c, acts);
      }
    } else if NeverScales(c) {
      forall acts ensures Floor(c) <= Run(Start(c), acts).numWorkers {
        RunSteady(Start(c), acts);
        SameConfig(Start(c), acts);
      }
    } else {
      FloorCanFail(c);
    }
  }
}
