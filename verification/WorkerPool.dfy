/**
  The server's bounded worker pool as an interleaving of atomic steps: the acceptor, the workers, and a caller of
  `stop`. The queue mutex is explicit: a worker that has found nothing to do holds it until it blocks on the
  condition variable. The stop flag and the notifications are not protected by it, as in the source.
  */
module WorkerPool {
  import opened Prelude

  /** Connections are numbered in the order in which they are accepted. */
  type Conn = nat

  datatype Worker =
    | Checking        // awake: about to lock the mutex and evaluate the wait condition
    | Deciding        // holds the mutex, condition was false, about to block
    | Blocked         // waiting on the condition variable
    | Busy(conn: Conn)
    | Exited          // left the loop because of the stop flag
    | Died            // an exception ended the thread

  datatype Acceptor =
    | AtTop | Polling | Holding(conn: Conn) | Counting | Notifying | Leaving | Joining | Reclaiming | Returned

  /** `enqueued`, `dispatched`, `reclaimed`, `closed` are histories; `stoppedMidCheck` records a stop during a check. */
  datatype State = State(
    acceptor: Acceptor,
    workers: seq<Worker>,
    queue: seq<Conn>,
    stopping: bool,
    total: nat,
    acceptedCount: nat,
    rejectedCount: nat,
    enqueued: seq<Conn>,
    dispatched: seq<Conn>,
    reclaimed: seq<Conn>,
    closed: seq<Conn>,
    stoppedMidCheck: bool)

  datatype Step =
    | Stop | WakeAll | SpuriousWake(i: nat)
    | Top | PollIdle | Accept | Offer | CountAccepted | NotifyOne(i: nat) | Leave | Join | Reclaim
    | Check(i: nat) | Block(i: nat) | Finish(i: nat) | Die(i: nat)

  function Initial(maxConnections: nat): State {
    State(AtTop, seq(Max(1, maxConnections), _ => Checking), [], false, 0, 0, 0, [], [], [], [], false)
  }

  predicate AnyWorker(ws: seq<Worker>, w: Worker) {
    exists i :: 0 <= i < |ws| && ws[i] == w
  }

  predicate MutexFree(s: State) {
    !AnyWorker(s.workers, Deciding)
  }

  predicate WorkerIs(s: State, i: nat, w: Worker) {
    i < |s.workers| && s.workers[i] == w
  }

  predicate Done(w: Worker) {
    w == Exited || w == Died
  }

  /** Waking is only ever the change from blocked to about-to-check. */
  function Woken(ws: seq<Worker>): (r: seq<Worker>)
    ensures |r| == |ws|
    ensures forall i :: 0 <= i < |ws| ==> r[i] == if ws[i] == Blocked then Checking else ws[i]
  {
    seq(|ws|, i requires 0 <= i < |ws| => if ws[i] == Blocked then Checking else ws[i])
  }

  predicate Enabled(max: nat, s: State, step: Step) {
    match step
    case Stop => true
    case WakeAll => true
    case SpuriousWake(i) => WorkerIs(s, i, Blocked)
    case Top => s.acceptor == AtTop
    case PollIdle => s.acceptor == Polling
    case Accept => s.acceptor == Polling
    case Offer => s.acceptor.Holding? && MutexFree(s)
    case CountAccepted => s.acceptor == Counting
    case NotifyOne(i) => s.acceptor == Notifying && (AnyWorker(s.workers, Blocked) ==> WorkerIs(s, i, Blocked))
    case Leave => s.acceptor == Leaving
    case Join => s.acceptor == Joining && forall i :: 0 <= i < |s.workers| ==> Done(s.workers[i])
    case Reclaim => s.acceptor == Reclaiming && MutexFree(s)
    case Check(i) => WorkerIs(s, i, Checking) && MutexFree(s)
    case Block(i) => WorkerIs(s, i, Deciding)
    case Finish(i) => i < |s.workers| && s.workers[i].Busy?
    case Die(i) => i < |s.workers| && s.workers[i].Busy?
  }

  function WithWorker(s: State, i: nat, w: Worker): State
    requires i < |s.workers|
  {
    s.(workers := s.workers[i := w])
  }

  /** The acceptor offers an accepted connection to the queue, or closes it when the queue is full. */
  function OfferConnection(max: nat, s: State): State
    requires s.acceptor.Holding?
  {
    var c := s.acceptor.conn;
    if |s.queue| >= max then
      s.(acceptor := AtTop, rejectedCount := s.rejectedCount + 1, closed := s.closed + [c])
    else
      s.(acceptor := Counting, queue := s.queue + [c], enqueued := s.enqueued + [c])
  }

  /** A worker evaluates the wait condition under the mutex, and goes on or prepares to block. */
  function CheckQueue(s: State, i: nat): State
    requires i < |s.workers|
  {
    if s.queue != [] then
      WithWorker(s, i, Busy(s.queue[0])).(queue := s.queue[1..], dispatched := s.dispatched + [s.queue[0]])
    else if s.stopping then WithWorker(s, i, Exited)
    else WithWorker(s, i, Deciding)
  }

  function Apply(max: nat, s: State, step: Step): State
    requires Enabled(max, s, step)
  {
    match step
    case Stop => s.(stopping := true, stoppedMidCheck := s.stoppedMidCheck || !MutexFree(s))
    case WakeAll => s.(workers := Woken(s.workers))
    case SpuriousWake(i) => WithWorker(s, i, Checking)
    case Top => s.(acceptor := if s.stopping then Leaving else Polling)
    case PollIdle => s.(acceptor := AtTop)
    case Accept => s.(acceptor := Holding(s.total), total := s.total + 1)
    case Offer => OfferConnection(max, s)
    case CountAccepted => s.(acceptor := Notifying, acceptedCount := s.acceptedCount + 1)
    case NotifyOne(i) => (if AnyWorker(s.workers, Blocked) then WithWorker(s, i, Checking) else s).(acceptor := AtTop)
    case Leave => s.(acceptor := Joining, workers := Woken(s.workers))
    case Join => s.(acceptor := Reclaiming)
    case Reclaim => s.(acceptor := Returned, queue := [], reclaimed := s.queue, closed := s.closed + s.queue)
    case Check(i) => CheckQueue(s, i)
    case Block(i) => WithWorker(s, i, Blocked)
    case Finish(i) => WithWorker(s, i, Checking).(closed := s.closed + [s.workers[i].conn])
    case Die(i) => WithWorker(s, i, Died).(closed := s.closed + [s.workers[i].conn])
  }

  ghost predicate IsRun(max: nat, states: seq<State>, steps: seq<Step>) {
    && |states| == |steps| + 1
    && states[0] == Initial(max)
    && forall i :: 0 <= i < |steps| ==>
         Enabled(max, states[i], steps[i]) && states[i + 1] == Apply(max, states[i], steps[i])
  }

  // ---------------------------------------------------------------- counting workers

  /** What is counted of workers: about to check the queue, serving connection `c`, serving anything. */
  datatype Measure = Awake | Serving(c: Conn) | Occupied

  function Weight(m: Measure, w: Worker): (n: nat)
    ensures n <= 1
  {
    match m
    case Awake => if w == Checking then 1 else 0
    case Serving(c) => if w == Busy(c) then 1 else 0
    case Occupied => if w.Busy? then 1 else 0
  }

  function HowMany(m: Measure, ws: seq<Worker>): (n: nat)
    ensures n <= |ws|
  {
    if ws == [] then 0 else Weight(m, ws[0]) + HowMany(m, ws[1..])
  }

  lemma {:induction false} HowManyUpdate(m: Measure, ws: seq<Worker>, i: nat, w: Worker)
    requires i < |ws|
    ensures HowMany(m, ws[i := w]) + Weight(m, ws[i]) == HowMany(m, ws) + Weight(m, w)
  {
    hide Weight;
    if i == 0 {
      assert ws[i := w][1..] == ws[1..];
    } else {
      assert ws[i := w][1..] == ws[1..][i - 1 := w];
      HowManyUpdate(m, ws[1..], i - 1, w);
    }
  }

  /** Waking does not change who serves what. */
  lemma {:induction false} HowManyWoken(m: Measure, ws: seq<Worker>)
    requires m != Awake
    ensures HowMany(m, Woken(ws)) == HowMany(m, ws)
  {
    if ws == [] {
    } else {
      assert Woken(ws)[1..] == Woken(ws[1..]);
      HowManyWoken(m, ws[1..]);
    }
  }

  lemma {:induction false} NobodyBusy(m: Measure, ws: seq<Worker>)
    requires m != Awake && forall i :: 0 <= i < |ws| ==> !ws[i].Busy?
    ensures HowMany(m, ws) == 0
  {
    if ws == [] {
    } else {
      NobodyBusy(m, ws[1..]);
    }
  }

  // ---------------------------------------------------------------- no stranded work

  /** Pending `notify_one` calls: pushes whose notification has not happened yet. */
  function Pending(a: Acceptor): nat {
    if a == Counting || a == Notifying then 1 else 0
  }

  /**
    A worker blocks only when the queue is empty, and whenever some worker is blocked every queued connection is
    matched by a worker that will look at the queue or by a notification still to come.
    */
  predicate NoStrandedWork(s: State) {
    && (AnyWorker(s.workers, Deciding) ==> s.queue == [])
    && (AnyWorker(s.workers, Blocked) ==> |s.queue| <= HowMany(Awake, s.workers) + Pending(s.acceptor))
  }

  lemma OneWorkerKeepsWork(s: State, i: nat, w: Worker, s': State)
    requires NoStrandedWork(s) && i < |s.workers|
    requires s'.workers == s.workers[i := w] && s'.acceptor == s.acceptor
    requires w != Deciding || s.queue == []
    requires s'.queue == s.queue || (s.queue != [] && s'.queue == s.queue[1..])
    requires if s.workers[i] == Checking && w != Checking then |s'.queue| < |s.queue| || s.queue == []
             else s'.queue == s.queue
    requires w == Blocked ==> s.queue == []
    ensures NoStrandedWork(s')
  {
    HowManyUpdate(Awake, s.workers, i, w);
    if AnyWorker(s'.workers, Blocked) && w != Blocked {
      var j :| 0 <= j < |s'.workers| && s'.workers[j] == Blocked;
      assert s.workers[j] == Blocked;
    }
    if AnyWorker(s'.workers, Deciding) && w != Deciding {
      var j :| 0 <= j < |s'.workers| && s'.workers[j] == Deciding;
      assert s.workers[j] == Deciding;
    }
  }

  lemma WokenKeepsWork(s: State, s': State)
    requires NoStrandedWork(s) && s'.workers == Woken(s.workers) && s'.queue == s.queue
    ensures NoStrandedWork(s')
  {
    if AnyWorker(s'.workers, Deciding) {
      var j :| 0 <= j < |s'.workers| && s'.workers[j] == Deciding;
      assert s.workers[j] == Deciding;
    }
  }

  lemma StepKeepsWork(max: nat, s: State, step: Step)
    requires Enabled(max, s, step) && NoStrandedWork(s)
    ensures NoStrandedWork(Apply(max, s, step))
  {
    var s' := Apply(max, s, step);
    match step
    case Stop =>
    case WakeAll => WokenKeepsWork(s, s');
    case SpuriousWake(i) => OneWorkerKeepsWork(s, i, Checking, s');
    case Top =>
    case PollIdle =>
    case Accept =>
    case Offer =>
    case CountAccepted =>
    case NotifyOne(i) =>
      if AnyWorker(s.workers, Blocked) {
        HowManyUpdate(Awake, s.workers, i, Checking);
        if AnyWorker(s'.workers, Deciding) {
          var j :| 0 <= j < |s'.workers| && s'.workers[j] == Deciding;
          assert s.workers[j] == Deciding;
        }
      }
    case Leave => WokenKeepsWork(s, s');
    case Join =>
    case Reclaim =>
    case Check(i) => OneWorkerKeepsWork(s, i, s'.workers[i], s');
    case Block(i) => OneWorkerKeepsWork(s, i, Blocked, s');
    case Finish(i) => OneWorkerKeepsWork(s, i, Checking, s');
    case Die(i) => OneWorkerKeepsWork(s, i, Died, s');
  }

  // ---------------------------------------------------------------- descriptors

  function Occurrences(cs: seq<Conn>, c: Conn): nat {
    multiset(cs)[c]
  }

  lemma OccurrencesConcat(a: seq<Conn>, b: seq<Conn>, c: Conn)
    ensures Occurrences(a + b, c) == Occurrences(a, c) + Occurrences(b, c)
  {
  }

  lemma OccurrencesPop(cs: seq<Conn>, c: Conn)
    requires cs != []
    ensures Occurrences(cs, c) == (if cs[0] == c then 1 else 0) + Occurrences(cs[1..], c)
  {
    assert cs == [cs[0]] + cs[1..];
    OccurrencesConcat([cs[0]], cs[1..], c);
  }

  /** How many owners connection `c` has: the acceptor, places in the queue, workers, and times closed. */
  function Owners(s: State, c: Conn): nat {
    (if s.acceptor == Holding(c) then 1 else 0)
    + Occurrences(s.queue, c) + HowMany(Serving(c), s.workers) + Occurrences(s.closed, c)
  }

  /** An accepted connection has exactly one owner, any other none. */
  predicate OwnedOnce(s: State, c: Conn) {
    Owners(s, c) == if c < s.total then 1 else 0
  }

  lemma WorkerStepKeepsOwner(s: State, i: nat, w: Worker, s': State, c: Conn)
    requires OwnedOnce(s, c) && i < |s.workers| && s'.workers == s.workers[i := w] && s'.total == s.total
    requires s'.acceptor == s.acceptor || (!s'.acceptor.Holding? && !s.acceptor.Holding?)
    requires Occurrences(s'.queue, c) + Weight(Serving(c), w) + Occurrences(s'.closed, c)
             == Occurrences(s.queue, c) + Weight(Serving(c), s.workers[i]) + Occurrences(s.closed, c)
    ensures OwnedOnce(s', c)
  {
    hide Occurrences, Weight;
    HowManyUpdate(Serving(c), s.workers, i, w);
  }

  lemma CheckKeepsOwner(s: State, i: nat, c: Conn)
    requires OwnedOnce(s, c) && WorkerIs(s, i, Checking)
    ensures OwnedOnce(CheckQueue(s, i), c)
  {
    hide Occurrences, OwnedOnce;
    var s' := CheckQueue(s, i);
    if s.queue != [] {
      OccurrencesPop(s.queue, c);
    }
    WorkerStepKeepsOwner(s, i, s'.workers[i], s', c);
  }

  lemma CloseKeepsOwner(s: State, i: nat, w: Worker, c: Conn)
    requires OwnedOnce(s, c) && i < |s.workers| && s.workers[i].Busy? && !w.Busy?
    ensures OwnedOnce(WithWorker(s, i, w).(closed := s.closed + [s.workers[i].conn]), c)
  {
    OccurrencesConcat(s.closed, [s.workers[i].conn], c);
    hide OwnedOnce;
    WorkerStepKeepsOwner(s, i, w, WithWorker(s, i, w).(closed := s.closed + [s.workers[i].conn]), c);
  }

  lemma AcceptorStepKeepsOwner(max: nat, s: State, step: Step, c: Conn)
    requires Enabled(max, s, step) && OwnedOnce(s, c)
    requires step in {Stop, Top, PollIdle, Accept, Offer, CountAccepted, Join, Reclaim}
    ensures OwnedOnce(Apply(max, s, step), c)
  {
    match step
    case Offer =>
      OccurrencesConcat(s.closed, [s.acceptor.conn], c);
      OccurrencesConcat(s.queue, [s.acceptor.conn], c);
    case Reclaim => OccurrencesConcat(s.closed, s.queue, c);
    case _ =>
  }

  /** No step loses a connection, gives it a second owner, or closes it twice. */
  lemma StepKeepsOwner(max: nat, s: State, step: Step, c: Conn)
    requires Enabled(max, s, step) && OwnedOnce(s, c)
    ensures OwnedOnce(Apply(max, s, step), c)
  {
    hide OwnedOnce, Occurrences, MutexFree, CheckQueue, OfferConnection;
    var s' := Apply(max, s, step);
    match step
    case WakeAll => WokenKeepsOwner(s, s', c);
    case Leave => WokenKeepsOwner(s, s', c);
    case SpuriousWake(i) => WorkerStepKeepsOwner(s, i, Checking, s', c);
    case Block(i) => WorkerStepKeepsOwner(s, i, Blocked, s', c);
    case NotifyOne(i) => NotifyKeepsOwner(max, s, i, c);
    case Check(i) => CheckKeepsOwner(s, i, c);
    case Finish(i) => CloseKeepsOwner(s, i, Checking, c);
    case Die(i) => CloseKeepsOwner(s, i, Died, c);
    case _ => AcceptorStepKeepsOwner(max, s, step, c);
  }

  lemma NotifyKeepsOwner(max: nat, s: State, i: nat, c: Conn)
    requires Enabled(max, s, NotifyOne(i)) && OwnedOnce(s, c)
    ensures OwnedOnce(Apply(max, s, NotifyOne(i)), c)
  {
    if AnyWorker(s.workers, Blocked) {
      WorkerStepKeepsOwner(s, i, Checking, Apply(max, s, NotifyOne(i)), c);
    }
  }

  lemma WokenKeepsOwner(s: State, s': State, c: Conn)
    requires OwnedOnce(s, c) && s'.workers == Woken(s.workers) && s'.total == s.total
    requires s'.queue == s.queue && s'.closed == s.closed
    requires s'.acceptor == s.acceptor || (!s'.acceptor.Holding? && !s.acceptor.Holding?)
    ensures OwnedOnce(s', c)
  {
    HowManyWoken(Serving(c), s.workers);
  }

  // ---------------------------------------------------------------- order, counters, bounds, shutdown

  predicate Increasing(cs: seq<Conn>, below: nat) {
    && (forall i, j :: 0 <= i < j < |cs| ==> cs[i] < cs[j])
    && (forall i :: 0 <= i < |cs| ==> cs[i] < below)
  }

  predicate Joined(a: Acceptor) {
    a == Reclaiming || a == Returned
  }

  /** The acceptor may still enqueue a connection before it looks at the stop flag again. */
  function MayStillPush(a: Acceptor): nat {
    if a == Polling || a.Holding? then 1 else 0
  }

  predicate Bookkeeping(max: nat, s: State) {
    && |s.workers| == Max(1, max)
    && |s.queue| <= max
    && s.enqueued == s.dispatched + s.queue + s.reclaimed
    && Increasing(s.enqueued, if s.acceptor.Holding? then s.acceptor.conn else s.total)
    && (s.acceptor.Holding? ==> s.acceptor.conn < s.total)
    && s.total == |s.enqueued| + s.rejectedCount + (if s.acceptor.Holding? then 1 else 0)
    && s.acceptedCount + (if s.acceptor == Counting then 1 else 0) == |s.enqueued|
    && (s.acceptor != Returned ==> s.reclaimed == [])
    && (s.acceptor == Returned ==> s.queue == [])
    && (Joined(s.acceptor) ==> forall i :: 0 <= i < |s.workers| ==> Done(s.workers[i]))
    && (s.acceptor in {Leaving, Joining, Reclaiming, Returned} ==> s.stopping)
    && (AnyWorker(s.workers, Exited) ==> s.stopping && |s.queue| + |s.reclaimed| + MayStillPush(s.acceptor) <= 1)
  }

  lemma WorkerStepKeepsBooks(max: nat, s: State, i: nat, w: Worker, s': State)
    requires Bookkeeping(max, s) && i < |s.workers| && !Joined(s.acceptor)
    requires w != Exited
    requires s' == s.(workers := s.workers[i := w], closed := s'.closed)
    ensures Bookkeeping(max, s')
  {
    if AnyWorker(s'.workers, Exited) {
      var j :| 0 <= j < |s'.workers| && s'.workers[j] == Exited;
      assert s.workers[j] == Exited;
    }
  }

  lemma WokenKeepsBooks(max: nat, s: State, s': State)
    requires Bookkeeping(max, s)
    requires s' == s.(workers := Woken(s.workers))
    ensures Bookkeeping(max, s')
  {
    if AnyWorker(s'.workers, Exited) {
      var j :| 0 <= j < |s'.workers| && s'.workers[j] == Exited;
      assert s.workers[j] == Exited;
    }
  }

  lemma CheckKeepsBooks(max: nat, s: State, i: nat)
    requires Bookkeeping(max, s) && WorkerIs(s, i, Checking)
    ensures Bookkeeping(max, CheckQueue(s, i))
  {
    var s' := CheckQueue(s, i);
    NotJoinedWhile(max, s, i);
    if s.queue != [] {
      assert s.dispatched + s.queue == (s.dispatched + [s.queue[0]]) + s.queue[1..];
    }
    if AnyWorker(s'.workers, Exited) && s'.workers[i] != Exited {
      var j :| 0 <= j < |s'.workers| && s'.workers[j] == Exited;
      assert s.workers[j] == Exited;
    }
  }

  lemma OfferKeepsBooks(max: nat, s: State)
    requires Bookkeeping(max, s) && s.acceptor.Holding?
    ensures Bookkeeping(max, OfferConnection(max, s))
  {
    if |s.queue| < max {
      assert s.enqueued + [s.acceptor.conn] == s.dispatched + (s.queue + [s.acceptor.conn]) + [];
    }
  }

  lemma NotJoinedWhile(max: nat, s: State, i: nat)
    requires Bookkeeping(max, s) && i < |s.workers| && !Done(s.workers[i])
    ensures !Joined(s.acceptor)
  {
  }

  lemma AcceptorStepKeepsBooks(max: nat, s: State, step: Step)
    requires Enabled(max, s, step) && Bookkeeping(max, s)
    requires step in {Stop, Top, PollIdle, Accept, CountAccepted, Join, Reclaim}
    ensures Bookkeeping(max, Apply(max, s, step))
  {
  }

  lemma LeaveKeepsBooks(max: nat, s: State)
    requires Bookkeeping(max, s) && s.acceptor == Leaving
    ensures Bookkeeping(max, s.(acceptor := Joining, workers := Woken(s.workers)))
  {
    WokenKeepsBooks(max, s, s.(workers := Woken(s.workers)));
  }

  lemma NotifyKeepsBooks(max: nat, s: State, i: nat)
    requires Enabled(max, s, NotifyOne(i)) && Bookkeeping(max, s)
    ensures Bookkeeping(max, Apply(max, s, NotifyOne(i)))
  {
    if AnyWorker(s.workers, Blocked) {
      WorkerStepKeepsBooks(max, s, i, Checking, WithWorker(s, i, Checking));
    }
  }

  lemma StepKeepsBooks(max: nat, s: State, step: Step)
    requires Enabled(max, s, step) && Bookkeeping(max, s)
    ensures Bookkeeping(max, Apply(max, s, step))
  {
    hide Bookkeeping, MutexFree, CheckQueue, OfferConnection;
    var s' := Apply(max, s, step);
    match step
    case WakeAll => WokenKeepsBooks(max, s, s');
    case Leave => LeaveKeepsBooks(max, s);
    case SpuriousWake(i) =>
      NotJoinedWhile(max, s, i);
      WorkerStepKeepsBooks(max, s, i, Checking, s');
    case NotifyOne(i) => NotifyKeepsBooks(max, s, i);
    case Offer => OfferKeepsBooks(max, s);
    case Check(i) => CheckKeepsBooks(max, s, i);
    case Block(i) =>
      NotJoinedWhile(max, s, i);
      WorkerStepKeepsBooks(max, s, i, Blocked, s');
    case Finish(i) =>
      NotJoinedWhile(max, s, i);
      WorkerStepKeepsBooks(max, s, i, Checking, s');
    case Die(i) =>
      NotJoinedWhile(max, s, i);
      WorkerStepKeepsBooks(max, s, i, Died, s');
    case _ => AcceptorStepKeepsBooks(max, s, step);
  }

  // ---------------------------------------------------------------- whole runs

  lemma InitialIsGood(max: nat)
    ensures NoStrandedWork(Initial(max)) && Bookkeeping(max, Initial(max))
    ensures forall c :: OwnedOnce(Initial(max), c)
  {
    hide OwnedOnce;
    forall c ensures OwnedOnce(Initial(max), c) {
      NothingOwnedYet(max, c);
    }
  }

  lemma NothingOwnedYet(max: nat, c: Conn)
    ensures OwnedOnce(Initial(max), c)
  {
    NobodyBusy(Serving(c), Initial(max).workers);
  }

  lemma {:induction false} RunsAreGood(max: nat, states: seq<State>, steps: seq<Step>, k: nat)
    requires IsRun(max, states, steps) && k < |states|
    ensures NoStrandedWork(states[k]) && Bookkeeping(max, states[k])
  {
    hide NoStrandedWork, Bookkeeping, Apply, Enabled;
    if k == 0 {
      InitialIsGood(max);
    } else {
      RunsAreGood(max, states, steps, k - 1);
      StepKeepsWork(max, states[k - 1], steps[k - 1]);
      StepKeepsBooks(max, states[k - 1], steps[k - 1]);
    }
  }

  /** In every state of every run, each accepted connection has exactly one owner and no other connection has any. */
  lemma {:induction false} EveryDescriptorOwnedOnce(max: nat, states: seq<State>, steps: seq<Step>, k: nat, c: Conn)
    requires IsRun(max, states, steps) && k < |states|
    ensures OwnedOnce(states[k], c)
  {
    hide OwnedOnce, Apply, Enabled;
    if k == 0 {
      InitialIsGood(max);
    } else {
      EveryDescriptorOwnedOnce(max, states, steps, k - 1, c);
      StepKeepsOwner(max, states[k - 1], steps[k - 1], c);
    }
  }

  // ---------------------------------------------------------------- how many descriptors are open

  /** Accepted connections are held, queued, served or closed. */
  predicate Tally(s: State) {
    s.total == (if s.acceptor.Holding? then 1 else 0) + |s.queue| + HowMany(Occupied, s.workers) + |s.closed|
  }

  lemma StepKeepsTally(max: nat, s: State, step: Step)
    requires Enabled(max, s, step) && Tally(s)
    ensures Tally(Apply(max, s, step))
  {
    hide MutexFree, HowMany;
    match step
    case WakeAll => HowManyWoken(Occupied, s.workers);
    case Leave => HowManyWoken(Occupied, s.workers);
    case SpuriousWake(i) => HowManyUpdate(Occupied, s.workers, i, Checking);
    case NotifyOne(i) =>
      if AnyWorker(s.workers, Blocked) {
        HowManyUpdate(Occupied, s.workers, i, Checking);
      }
    case Check(i) => HowManyUpdate(Occupied, s.workers, i, CheckQueue(s, i).workers[i]);
    case Block(i) => HowManyUpdate(Occupied, s.workers, i, Blocked);
    case Finish(i) => HowManyUpdate(Occupied, s.workers, i, Checking);
    case Die(i) => HowManyUpdate(Occupied, s.workers, i, Died);
    case _ =>
  }

  lemma {:induction false} RunsTally(max: nat, states: seq<State>, steps: seq<Step>, k: nat)
    requires IsRun(max, states, steps) && k < |states|
    ensures Tally(states[k])
  {
    hide Apply, Enabled;
    if k == 0 {
      NobodyBusy(Occupied, Initial(max).workers);
    } else {
      RunsTally(max, states, steps, k - 1);
      StepKeepsTally(max, states[k - 1], steps[k - 1]);
    }
  }

  /** Accepted and not yet closed. */
  function OpenDescriptors(s: State): int {
    s.total - |s.closed|
  }

  /**
    Bounds over every run: open client descriptors never exceed the queue, the workers and the one in the acceptor's
    hand (2 * max + 1 for every configuration that passes validation), connections are dispatched in the order in which
    they were accepted and before any still queued, and the two counters account for every accepted connection.
    */
  lemma PoolBounds(max: nat, states: seq<State>, steps: seq<Step>, k: nat)
    requires IsRun(max, states, steps) && k < |states|
    ensures var s := states[k];
            && 0 <= OpenDescriptors(s) <= max + Max(1, max) + 1
            && (max >= 1 ==> OpenDescriptors(s) <= 2 * max + 1)
            && s.enqueued == s.dispatched + s.queue + s.reclaimed
            && Increasing(s.dispatched + s.queue, s.total)
            && s.total == s.acceptedCount + s.rejectedCount
                          + (if s.acceptor.Holding? || s.acceptor == Counting then 1 else 0)
  {
    RunsTally(max, states, steps, k);
    RunsAreGood(max, states, steps, k);
    var s := states[k];
    assert s.dispatched + s.queue == s.enqueued[..|s.dispatched + s.queue|];
    assert HowMany(Occupied, s.workers) <= |s.workers|;
  }

  // ---------------------------------------------------------------- who is refused, who is served

  /** A connection is offered while the queue is full, or while it is not. */
  predicate Offered(max: nat, s: State, step: Step, full: bool) {
    step == Offer && (|s.queue| >= max <==> full)
  }

  /** Refusals are exactly the offers to a full queue; any other offer is queued behind those already there. */
  lemma RefusedExactlyWhenFull(max: nat, states: seq<State>, steps: seq<Step>, k: nat)
    requires IsRun(max, states, steps) && k < |steps|
    ensures var s, s' := states[k], states[k + 1];
            && s'.rejectedCount == s.rejectedCount + (if Offered(max, s, steps[k], true) then 1 else 0)
            && (Offered(max, s, steps[k], true) ==>
                  s.acceptor.Holding? && s'.queue == s.queue && s'.closed == s.closed + [s.acceptor.conn])
            && (Offered(max, s, steps[k], false) ==>
                  s.acceptor.Holding? && s'.queue == s.queue + [s.acceptor.conn] && s'.closed == s.closed
                  && s'.enqueued == s.enqueued + [s.acceptor.conn])
            && (!Offered(max, s, steps[k], false) ==> s'.enqueued == s.enqueued && |s'.queue| <= |s.queue|)
  {
    hide MutexFree;
  }

  /** How many of the first `k` steps offered a connection to a full queue, or to one with room. */
  ghost function Offers(max: nat, states: seq<State>, steps: seq<Step>, k: nat, full: bool): nat
    requires k <= |steps| <= |states|
  {
    if k == 0 then 0
    else Offers(max, states, steps, k - 1, full) + if Offered(max, states[k - 1], steps[k - 1], full) then 1 else 0
  }

  /** In every state of every run the two counters count those offers. */
  lemma {:induction false} CountersCountOffers(max: nat, states: seq<State>, steps: seq<Step>, k: nat)
    requires IsRun(max, states, steps) && k < |states|
    ensures states[k].rejectedCount == Offers(max, states, steps, k, true)
    ensures |states[k].enqueued| == Offers(max, states, steps, k, false)
    ensures states[k].acceptedCount + (if states[k].acceptor == Counting then 1 else 0)
            == Offers(max, states, steps, k, false)
  {
    hide Apply, Enabled, Offered;
    RunsAreGood(max, states, steps, k);
    if k == 0 {
    } else {
      CountersCountOffers(max, states, steps, k - 1);
      RefusedExactlyWhenFull(max, states, steps, k - 1);
      NoOfferIsBoth(max, states[k - 1], steps[k - 1]);
    }
  }

  lemma NoOfferIsBoth(max: nat, s: State, step: Step)
    ensures !(Offered(max, s, step, true) && Offered(max, s, step, false))
  {
  }

  /**
    What happens to worker `i` in a step of a run: it gets a connection exactly when it checks a queue that holds one,
    and then the oldest; it leaves exactly when it checks an empty queue and the stop flag is up; it is lost exactly
    when it dies; and having finished a connection, or been woken, it checks again.
    */
  lemma WorkerChangesExactlyWhen(max: nat, states: seq<State>, steps: seq<Step>, k: nat, i: nat)
    requires IsRun(max, states, steps) && k < |steps| && i < |states[k].workers|
    ensures |states[k + 1].workers| == |states[k].workers|
    ensures var w, w', queue := states[k].workers[i], states[k + 1].workers[i], states[k].queue;
            && (w' != w && w'.Busy? <==> steps[k] == Check(i) && queue != [])
            && (w' != w && w'.Busy? ==> w'.conn == queue[0] && states[k + 1].queue == queue[1..])
            && (w' != w && w' == Exited <==> steps[k] == Check(i) && queue == [] && states[k].stopping)
            && (w' != w && w' == Died <==> steps[k] == Die(i))
            && (w.Busy? && w' == Checking <==> steps[k] == Finish(i))
            && (w == Blocked && steps[k] in {WakeAll, Leave} ==> w' == Checking)
            && (w == Deciding && w' != w <==> steps[k] == Block(i))
            && (w == Deciding && w' != w ==> w' == Blocked)
  {
    hide MutexFree, OfferConnection;
    OfferKeepsWorkers(max, states[k], steps[k]);
  }

  lemma OfferKeepsWorkers(max: nat, s: State, step: Step)
    requires Enabled(max, s, step)
    ensures step == Offer ==> OfferConnection(max, s).workers == s.workers
  {
  }

  /** The acceptor turns to leaving exactly when it finds the stop flag up at the top of its loop. */
  lemma LeavesExactlyWhenStopped(max: nat, states: seq<State>, steps: seq<Step>, k: nat)
    requires IsRun(max, states, steps) && k < |steps|
    ensures states[k].acceptor != Leaving && states[k + 1].acceptor == Leaving <==>
            steps[k] == Top && states[k].stopping
    ensures steps[k] == Top && !states[k].stopping ==> states[k + 1].acceptor == Polling
  {
    hide MutexFree, CheckQueue;
    CheckKeepsAcceptor(max, states[k], steps[k]);
  }

  lemma CheckKeepsAcceptor(max: nat, s: State, step: Step)
    requires Enabled(max, s, step)
    ensures step.Check? ==> CheckQueue(s, step.i).acceptor == s.acceptor
  {
  }

  /** Work is never stranded, in any state of any run: while a worker is blocked, queued connections have takers. */
  lemma QueuedWorkHasATaker(max: nat, states: seq<State>, steps: seq<Step>, k: nat)
    requires IsRun(max, states, steps) && k < |states| && AnyWorker(states[k].workers, Blocked)
    ensures |states[k].queue| <= HowMany(Awake, states[k].workers) + Pending(states[k].acceptor)
  {
    RunsAreGood(max, states, steps, k);
  }

  /**
    When `run` returns, every accepted connection has been closed exactly once; and unless every worker died by an
    exception, at most one of them was left for the final reclaim loop.
    */
  lemma ReturnedMeansAllClosed(max: nat, states: seq<State>, steps: seq<Step>, k: nat, c: Conn)
    requires IsRun(max, states, steps) && k < |states| && states[k].acceptor == Returned
    ensures Occurrences(states[k].closed, c) == if c < states[k].total then 1 else 0
    ensures OpenDescriptors(states[k]) == 0
    ensures (exists i :: 0 <= i < |states[k].workers| && states[k].workers[i] != Died) ==> |states[k].reclaimed| <= 1
  {
    var s := states[k];
    RunsAreGood(max, states, steps, k);
    RunsTally(max, states, steps, k);
    EveryDescriptorOwnedOnce(max, states, steps, k, c);
    assert forall i :: 0 <= i < |s.workers| ==> Done(s.workers[i]);
    NobodyBusy(Serving(c), s.workers);
    NobodyBusy(Occupied, s.workers);
  }

  // ---------------------------------------------------------------- shutdown

  /** A stop that did not hit a worker between its check and its block leaves nobody blocked once `run` joins. */
  predicate CleanShutdown(s: State) {
    s.stopping && !s.stoppedMidCheck ==>
      && MutexFree(s)
      && (s.acceptor in {Joining, Reclaiming, Returned} ==> !AnyWorker(s.workers, Blocked))
  }

  lemma StepKeepsShutdown(max: nat, s: State, step: Step)
    requires Enabled(max, s, step) && CleanShutdown(s) && Bookkeeping(max, s)
    ensures CleanShutdown(Apply(max, s, step))
  {
    var s' := Apply(max, s, step);
    if s'.stopping && !s'.stoppedMidCheck && s.stopping {
      assert forall j :: 0 <= j < |s'.workers| && s'.workers[j] == Deciding ==> s.workers[j] == Deciding;
      if s'.acceptor in {Joining, Reclaiming, Returned} {
        assert forall j :: 0 <= j < |s'.workers| && s'.workers[j] == Blocked ==> s.workers[j] == Blocked;
      }
    }
  }

  lemma {:induction false} StopOutsideChecksLetsRunJoin(max: nat, states: seq<State>, steps: seq<Step>, k: nat)
    requires IsRun(max, states, steps) && k < |states|
    ensures CleanShutdown(states[k])
  {
    hide Apply, Enabled, Bookkeeping, CleanShutdown;
    if k == 0 {
      InitialIsClean(max);
    } else {
      StopOutsideChecksLetsRunJoin(max, states, steps, k - 1);
      RunsAreGood(max, states, steps, k - 1);
      StepKeepsShutdown(max, states[k - 1], steps[k - 1]);
    }
  }

  lemma InitialIsClean(max: nat)
    ensures CleanShutdown(Initial(max))
  {
  }

  /** The wake-ups that `run` itself does not make: another `stop`, or a spurious one of worker `i`. */
  predicate Wakes(step: Step, i: nat) {
    step == WakeAll || step == SpuriousWake(i)
  }

  /** Nobody blocks or is about to, the stop flag is up, and `run` has made its own notify_all. */
  predicate NobodyWaits(s: State) {
    && s.stopping
    && s.acceptor in {Joining, Reclaiming, Returned}
    && forall i :: 0 <= i < |s.workers| ==> s.workers[i] != Blocked && s.workers[i] != Deciding
  }

  lemma StepKeepsNobodyWaiting(max: nat, s: State, step: Step)
    requires Enabled(max, s, step) && NobodyWaits(s)
    ensures NobodyWaits(Apply(max, s, step))
  {
  }

  /** If no worker is between its check and its block when `run` notifies all, none ever waits again. */
  lemma {:induction false} LeavingOutsideChecksFreesEveryone(max: nat, states: seq<State>, steps: seq<Step>,
                                                             k: nat, j: nat)
    requires IsRun(max, states, steps) && k < j < |states| && steps[k] == Leave && MutexFree(states[k])
    ensures NobodyWaits(states[j])
  {
    hide Apply, Enabled, NobodyWaits;
    if j == k + 1 {
      RunsAreGood(max, states, steps, k);
      LeaveFreesEveryone(max, states[k]);
    } else {
      LeavingOutsideChecksFreesEveryone(max, states, steps, k, j - 1);
      StepKeepsNobodyWaiting(max, states[j - 1], steps[j - 1]);
    }
  }

  lemma LeaveFreesEveryone(max: nat, s: State)
    requires Enabled(max, s, Leave) && MutexFree(s) && Bookkeeping(max, s)
    ensures NobodyWaits(Apply(max, s, Leave))
  {
  }

  /** `run` is joining and worker `i` waits, or is about to, on the condition variable. */
  predicate Stuck(s: State, i: nat) {
    s.acceptor == Joining && i < |s.workers| && s.workers[i] in {Deciding, Blocked}
  }

  lemma StepKeepsStuck(max: nat, s: State, step: Step, i: nat)
    requires Enabled(max, s, step) && Stuck(s, i) && !Wakes(step, i)
    ensures Stuck(Apply(max, s, step), i)
  {
    hide MutexFree;
    assert step == Join ==> Done(s.workers[i]);
  }

  /** If a worker is there, it stays there and `run` keeps joining until somebody else wakes it. */
  lemma {:induction false} LeavingDuringACheckStrands(max: nat, states: seq<State>, steps: seq<Step>,
                                                      k: nat, j: nat, i: nat)
    requires IsRun(max, states, steps) && k < j < |states| && steps[k] == Leave && WorkerIs(states[k], i, Deciding)
    requires forall n :: k < n < j ==> !Wakes(steps[n], i)
    ensures Stuck(states[j], i)
  {
    hide Apply, Enabled, Stuck, Wakes;
    if j == k + 1 {
      LeaveStrands(max, states[k], i);
    } else {
      LeavingDuringACheckStrands(max, states, steps, k, j - 1, i);
      StepKeepsStuck(max, states[j - 1], steps[j - 1], i);
    }
  }

  lemma LeaveStrands(max: nat, s: State, i: nat)
    requires Enabled(max, s, Leave) && WorkerIs(s, i, Deciding)
    ensures Stuck(Apply(max, s, Leave), i)
  {
  }

  ghost predicate StuckFrom(states: seq<State>, k: nat, i: nat) {
    forall j :: k < j < |states| ==> Stuck(states[j], i)
  }

  /** After step `k` nobody else wakes anybody. */
  predicate Undisturbed(steps: seq<Step>, k: nat) {
    forall n :: k < n < |steps| ==> steps[n] != WakeAll && !steps[n].SpuriousWake?
  }

  /**
    When `stop` reaches everybody, exactly: on a run with no wake-up after `run`'s own, some worker is stranded, in
    every state that follows, if and only if one was between its check and its block when `run` called notify_all.
    */
  lemma StrandedExactlyWhen(max: nat, states: seq<State>, steps: seq<Step>, k: nat)
    requires IsRun(max, states, steps) && k < |steps| && steps[k] == Leave && Undisturbed(steps, k)
    ensures (exists i: nat :: StuckFrom(states, k, i)) <==> !MutexFree(states[k])
  {
    hide Apply, Enabled;
    if MutexFree(states[k]) {
      LeavingOutsideChecksFreesEveryone(max, states, steps, k, k + 1);
      forall i: nat ensures !StuckFrom(states, k, i) {
        assert !Stuck(states[k + 1], i);
      }
    } else {
      var i: nat :| i < |states[k].workers| && states[k].workers[i] == Deciding;
      forall j | k < j < |states| ensures Stuck(states[j], i) {
        LeavingDuringACheckStrands(max, states, steps, k, j, i);
      }
      assert StuckFrom(states, k, i);
    }
  }

  /**
    The flag is stored without the mutex, so stranding is real: here `run` is joining, the only worker is blocked,
    and both `notify_all` calls are in the past. Only a spurious wake-up lets `run` return.
    */
  lemma StopDuringACheckCanLeaveAWorkerBlocked() returns (states: seq<State>, steps: seq<Step>)
    ensures IsRun(1, states, steps) && |states| == |steps| + 1
    ensures var s := states[|steps|];
            s.acceptor == Joining && s.stopping && s.workers == [Blocked] && s.queue == []
  {
    states, steps := StopDuringACheck();
    hide IsRun;
    states, steps := ExtendRun(1, states, steps, PollIdle);
    states, steps := ExtendRun(1, states, steps, Top);
    states, steps := ExtendRun(1, states, steps, Leave);
    assert states[|steps|].workers == [Deciding];
    states, steps := ExtendRun(1, states, steps, Block(0));
  }

  /** A stop during a check is harmless when the worker blocks before `run` notifies: the timing of `run` decides. */
  lemma StopDuringACheckCanBeHarmless() returns (states: seq<State>, steps: seq<Step>)
    ensures IsRun(1, states, steps) && |states| == |steps| + 1
    ensures var s := states[|steps|];
            s.acceptor == Joining && s.stopping && s.stoppedMidCheck && s.workers == [Checking]
  {
    states, steps := StopDuringACheck();
    hide IsRun;
    states, steps := ExtendRun(1, states, steps, Block(0));
    states, steps := ExtendRun(1, states, steps, PollIdle);
    states, steps := ExtendRun(1, states, steps, Top);
    assert states[|steps|].workers == [Blocked];
    states, steps := ExtendRun(1, states, steps, Leave);
    assert states[|steps|].workers == [Checking];
  }

  lemma StopDuringACheck() returns (states: seq<State>, steps: seq<Step>)
    ensures IsRun(1, states, steps) && |states| == |steps| + 1
    ensures var s := states[|steps|];
            s.acceptor == Polling && s.stopping && s.stoppedMidCheck && s.workers == [Deciding] && s.queue == []
  {
    assert Initial(1).workers == [Checking];
    states, steps := [Initial(1)], [];
    assert IsRun(1, states, steps);
    hide IsRun;
    states, steps := ExtendRun(1, states, steps, Check(0));
    assert states[|steps|].workers == [Deciding];
    states, steps := ExtendRun(1, states, steps, Top);
    assert states[|steps|].workers[0] == Deciding;
    states, steps := ExtendRun(1, states, steps, Stop);
    states, steps := ExtendRun(1, states, steps, WakeAll);
    assert states[|steps|].workers == [Deciding];
  }

  /** A connection that is accepted, queued, served and closed, after which `run` is stopped and returns. */
  lemma ConnectionIsServed() returns (states: seq<State>, steps: seq<Step>)
    ensures IsRun(1, states, steps) && |states| == |steps| + 1
    ensures var s := states[|steps|];
            && s.acceptor == Returned && s.workers == [Exited] && s.total == 1 && s.dispatched == s.closed == [0]
            && s.acceptedCount == 1 && s.rejectedCount == 0 && s.reclaimed == []
  {
    states, steps := ServeOne();
    hide IsRun;
    states, steps := ExtendRun(1, states, steps, Stop);
    states, steps := ExtendRun(1, states, steps, Check(0));
    assert states[|steps|].workers == [Exited];
    states, steps := ExtendRun(1, states, steps, Top);
    states, steps := ExtendRun(1, states, steps, Leave);
    assert states[|steps|].workers == [Exited];
    states, steps := ExtendRun(1, states, steps, Join);
    states, steps := ExtendRun(1, states, steps, Reclaim);
  }

  lemma ServeOne() returns (states: seq<State>, steps: seq<Step>)
    ensures IsRun(1, states, steps) && |states| == |steps| + 1
    ensures states[|steps|] == State(AtTop, [Checking], [], false, 1, 1, 0, [0], [0], [], [0], false)
  {
    states, steps := DispatchOne();
    hide IsRun;
    states, steps := ExtendRun(1, states, steps, NotifyOne(0));
    assert states[|steps|].workers == [Busy(0)];
    states, steps := ExtendRun(1, states, steps, Finish(0));
    assert states[|steps|].workers == [Checking];
  }

  lemma DispatchOne() returns (states: seq<State>, steps: seq<Step>)
    ensures IsRun(1, states, steps) && |states| == |steps| + 1
    ensures states[|steps|] == State(Notifying, [Busy(0)], [], false, 1, 1, 0, [0], [0], [], [], false)
  {
    states, steps := QueueOne();
    hide IsRun;
    states, steps := ExtendRun(1, states, steps, Check(0));
    assert states[|steps|].workers == [Busy(0)] && states[|steps|].queue == [];
    states, steps := ExtendRun(1, states, steps, CountAccepted);
  }

  lemma QueueOne() returns (states: seq<State>, steps: seq<Step>)
    ensures IsRun(1, states, steps) && |states| == |steps| + 1
    ensures states[|steps|] == State(Counting, [Checking], [0], false, 1, 0, 0, [0], [], [], [], false)
  {
    assert Initial(1).workers == [Checking];
    states, steps := [Initial(1)], [];
    assert IsRun(1, states, steps);
    hide IsRun;
    states, steps := ExtendRun(1, states, steps, Top);
    states, steps := ExtendRun(1, states, steps, Accept);
    states, steps := ExtendRun(1, states, steps, Offer);
  }

  lemma ExtendRun(max: nat, states: seq<State>, steps: seq<Step>, step: Step)
    returns (states': seq<State>, steps': seq<Step>)
    requires IsRun(max, states, steps) && |states| == |steps| + 1 && Enabled(max, states[|steps|], step)
    ensures IsRun(max, states', steps') && |states'| == |steps'| + 1
    ensures states'[|steps'|] == Apply(max, states[|steps|], step)
  {
    hide Apply, Enabled;
    states', steps' := states + [Apply(max, states[|steps|], step)], steps + [step];
  }
}
