/**
  `run_benchmark` as an interleaving of its threads' atomic actions on the shared counters and the summary.
  `compare_exchange_weak` may fail spuriously and works on a possibly stale local value.
  */
module Benchmark {
  import opened Prelude

  const UINT32_RANGE: nat := 0x1_0000_0000

  datatype Thread =
    | Starting               // constructing its client
    | Abandoning(n: nat)     // took the outstanding work with exchange(0), not posted yet
    | WarmLoading
    | WarmClaiming(seen: nat)
    | WarmRunning
    | Loading                // about to load `remaining` in `claim`
    | Claiming(seen: nat)    // local `current` in `claim`
    | Running                // owns one connection
    | Posting(ok: bool)      // its record is written, the summary not updated yet
    | Finished               // `claim` returned false
    | SetupFailed
    | Died                   // an exception escaped the worker

  datatype State = State(
    threads: seq<Thread>,
    remaining: nat,
    warmRemaining: nat,
    successful: nat,
    failed: nat,
    samples: nat,
    categories: nat,
    runFailures: nat,
    setupFailures: nat,
    abandoned: nat,
    lost: nat,
    warmed: nat,
    written: nat)

  datatype Config = Config(connections: nat, concurrency: nat, warmup: nat)

  /** The counters are 32-bit. */
  predicate ValidConfig(c: Config) {
    c.connections < UINT32_RANGE && c.warmup < UINT32_RANGE
  }

  function Initial(c: Config): State {
    State(seq(Min(c.concurrency, c.connections), _ => Starting), c.connections, c.warmup, 0, 0, 0, 0, 0, 0, 0, 0, 0, 0)
  }

  datatype Step =
    | SetupOk(i: nat) | SetupFail(i: nat) | Post(i: nat)
    | WarmLoad(i: nat) | WarmTry(i: nat, spurious: bool) | WarmDone(i: nat)
    | Load(i: nat) | Try(i: nat, spurious: bool) | RunDone(i: nat, ok: bool) | PostRun(i: nat)
    | Die(i: nat)

  /** `current - 1` in 32-bit unsigned arithmetic. */
  function Decrement(current: nat): nat {
    (current + UINT32_RANGE - 1) % UINT32_RANGE
  }

  predicate Enabled(s: State, step: Step) {
    && step.i < |s.threads|
    && var t := s.threads[step.i];
       match step
       case SetupOk(_) => t == Starting
       case SetupFail(_) => t == Starting
       case Post(_) => t.Abandoning?
       case WarmLoad(_) => t == WarmLoading
       case WarmTry(_, _) => t.WarmClaiming?
       case WarmDone(_) => t == WarmRunning
       case Load(_) => t == Loading
       case Try(_, _) => t.Claiming?
       case RunDone(_, _) => t == Running
       case PostRun(_) => t.Posting?
       case Die(_) => t in {WarmLoading, WarmRunning, Loading, Running}
  }

  function With(s: State, i: nat, t: Thread): State
    requires i < |s.threads|
  {
    s.(threads := s.threads[i := t])
  }

  /** One turn of the loop in `claim(remaining)`. */
  function TryClaim(s: State, i: nat, spurious: bool): State
    requires i < |s.threads| && s.threads[i].Claiming?
  {
    var current := s.threads[i].seen;
    if current == 0 then With(s, i, Finished)
    else if !spurious && s.remaining == current then With(s, i, Running).(remaining := Decrement(current))
    else With(s, i, Claiming(s.remaining))
  }

  /** The same loop on the warm-up counter. */
  function TryWarm(s: State, i: nat, spurious: bool): State
    requires i < |s.threads| && s.threads[i].WarmClaiming?
  {
    var current := s.threads[i].seen;
    if current == 0 then With(s, i, Loading)
    else if !spurious && s.warmRemaining == current then With(s, i, WarmRunning).(warmRemaining := Decrement(current))
    else With(s, i, WarmClaiming(s.warmRemaining))
  }

  /** The summary is updated under its mutex with the outcome of a connection. */
  function PostResult(s: State, i: nat): State
    requires i < |s.threads| && s.threads[i].Posting?
  {
    if s.threads[i].ok then
      With(s, i, Loading).(successful := s.successful + 1, samples := s.samples + 1)
    else
      With(s, i, Loading).(failed := s.failed + 1, categories := s.categories + 1, runFailures := s.runFailures + 1)
  }

  function Apply(s: State, step: Step): State
    requires Enabled(s, step)
  {
    var i := step.i;
    match step
    case SetupOk(_) => With(s, i, WarmLoading)
    case SetupFail(_) => With(s, i, Abandoning(s.remaining)).(remaining := 0)
    case Post(_) => With(s, i, SetupFailed).(failed := s.failed + s.threads[i].n, categories := s.categories + 1,
                                             setupFailures := s.setupFailures + 1,
                                             abandoned := s.abandoned + s.threads[i].n)
    case WarmLoad(_) => With(s, i, WarmClaiming(s.warmRemaining))
    case WarmTry(_, spurious) => TryWarm(s, i, spurious)
    case WarmDone(_) => With(s, i, WarmLoading).(warmed := s.warmed + 1, written := s.written + 1)
    case Load(_) => With(s, i, Claiming(s.remaining))
    case Try(_, spurious) => TryClaim(s, i, spurious)
    case RunDone(_, ok) => With(s, i, Posting(ok)).(written := s.written + 1)
    case PostRun(_) => PostResult(s, i)
    case Die(_) => With(s, i, Died).(lost := s.lost + Weight(Taken, s.threads[i]))
  }

  // ---------------------------------------------------------------- conservation

  /**
    What is counted of a thread: connections taken from the pool and not reported yet, records written that the summary
    does not show yet, connections abandoned and not reported yet, connections that ended well or badly and are not
    reported yet, and warm-up connections under way.
    */
  datatype Measure = Taken | Unposted | Given | Ended(ok: bool) | Warming

  function Weight(m: Measure, t: Thread): nat {
    match m
    case Taken => (match t case Running => 1 case Posting(_) => 1 case Abandoning(n) => n case _ => 0)
    case Unposted => if t.Posting? then 1 else 0
    case Given => if t.Abandoning? then t.n else 0
    case Ended(ok) => if t == Posting(ok) then 1 else 0
    case Warming => if t == WarmRunning then 1 else 0
  }

  function Total(m: Measure, ts: seq<Thread>): nat {
    if ts == [] then 0 else Weight(m, ts[0]) + Total(m, ts[1..])
  }

  lemma {:induction false} TotalUpdate(m: Measure, ts: seq<Thread>, i: nat, t: Thread)
    requires i < |ts|
    ensures Total(m, ts[i := t]) + Weight(m, ts[i]) == Total(m, ts) + Weight(m, t)
  {
    hide Weight;
    if i == 0 {
      assert ts[i := t][1..] == ts[1..];
    } else {
      assert ts[i := t][1..] == ts[1..][i - 1 := t];
      TotalUpdate(m, ts[1..], i - 1, t);
    }
  }

  lemma {:induction false} TotalZero(m: Measure, ts: seq<Thread>)
    requires forall i :: 0 <= i < |ts| ==> Weight(m, ts[i]) == 0
    ensures Total(m, ts) == 0
  {
    hide Weight;
    if ts == [] {
    } else {
      TotalZero(m, ts[1..]);
    }
  }

  /** The pool was seen empty by this thread, or emptied by it. */
  predicate SawEmpty(t: Thread) {
    t == Finished || t == SetupFailed || t.Abandoning? || t == Claiming(0)
  }

  predicate Conserved(c: Config, s: State) {
    && |s.threads| == Min(c.concurrency, c.connections)
    && s.successful + s.failed + s.lost + Total(Taken, s.threads) + s.remaining == c.connections
    && (|s.threads| == 0 ==> s.remaining == c.connections)
    && s.warmRemaining <= c.warmup
    && s.samples == s.successful
    && s.categories == s.runFailures + s.setupFailures
    && s.failed == s.runFailures + s.abandoned
    && s.written == s.warmed + s.successful + s.runFailures + Total(Unposted, s.threads)
    && (forall i :: 0 <= i < |s.threads| && SawEmpty(s.threads[i]) ==> s.remaining == 0)
    && ((forall i :: 0 <= i < |s.threads| ==> s.threads[i] != Died) ==> s.lost == 0)
  }

  lemma DecrementIsExact(current: nat)
    requires 0 < current < UINT32_RANGE
    ensures Decrement(current) == current - 1
  {
  }

  lemma ThreadStepConserves(c: Config, s: State, i: nat, t: Thread, s': State)
    requires Conserved(c, s) && i < |s.threads| && s'.threads == s.threads[i := t]
    requires s'.successful + s'.failed + s'.lost + Weight(Taken, t) + s'.remaining
             == s.successful + s.failed + s.lost + Weight(Taken, s.threads[i]) + s.remaining
    requires s'.warmRemaining <= s.warmRemaining && s'.samples + s.successful == s.samples + s'.successful
    requires s'.categories + s.runFailures + s.setupFailures == s.categories + s'.runFailures + s'.setupFailures
    requires s'.failed + s.runFailures + s.abandoned == s.failed + s'.runFailures + s'.abandoned
    requires s'.written + s.warmed + s.successful + s.runFailures + Weight(Unposted, s.threads[i])
             == s.written + s'.warmed + s'.successful + s'.runFailures + Weight(Unposted, t)
    requires s'.remaining <= s.remaining && (SawEmpty(t) ==> s'.remaining == 0)
    requires s.threads[i] != Died && (s'.lost == s.lost || t == Died)
    ensures Conserved(c, s')
  {
    TotalUpdate(Taken, s.threads, i, t);
    TotalUpdate(Unposted, s.threads, i, t);
    assert s'.threads[i] == t;
    if forall j :: 0 <= j < |s'.threads| ==> s'.threads[j] != Died {
      forall j | 0 <= j < |s.threads| ensures s.threads[j] != Died {
        assert s'.threads[j] != Died;
      }
    }
    forall j | 0 <= j < |s'.threads| && SawEmpty(s'.threads[j]) ensures s'.remaining == 0 {
      if j != i {
        assert s.threads[j] == s'.threads[j];
      }
    }
  }

  lemma TryConserves(c: Config, s: State, i: nat, spurious: bool)
    requires ValidConfig(c) && Conserved(c, s) && i < |s.threads| && s.threads[i].Claiming?
    ensures Conserved(c, TryClaim(s, i, spurious))
  {
    var s' := TryClaim(s, i, spurious);
    assert s.remaining <= c.connections;
    if 0 < s.threads[i].seen < UINT32_RANGE {
      DecrementIsExact(s.threads[i].seen);
    }
    hide Conserved, Decrement;
    ThreadStepConserves(c, s, i, s'.threads[i], s');
  }

  lemma TryWarmConserves(c: Config, s: State, i: nat, spurious: bool)
    requires ValidConfig(c) && Conserved(c, s) && i < |s.threads| && s.threads[i].WarmClaiming?
    ensures Conserved(c, TryWarm(s, i, spurious))
  {
    var s' := TryWarm(s, i, spurious);
    assert s.warmRemaining <= c.warmup;
    if 0 < s.threads[i].seen < UINT32_RANGE {
      DecrementIsExact(s.threads[i].seen);
    }
    hide Conserved, Decrement;
    ThreadStepConserves(c, s, i, s'.threads[i], s');
  }

  lemma SetupStepConserves(c: Config, s: State, step: Step)
    requires Conserved(c, s) && Enabled(s, step)
    requires step.SetupOk? || step.SetupFail? || step.Post? || step.WarmLoad? || step.WarmDone?
    ensures Conserved(c, Apply(s, step))
  {
    hide Conserved;
    match step
    case SetupOk(i) => ThreadStepConserves(c, s, i, WarmLoading, Apply(s, step));
    case SetupFail(i) => ThreadStepConserves(c, s, i, Abandoning(s.remaining), Apply(s, step));
    case Post(i) =>
      EmptyWasSeen(c, s, i);
      ThreadStepConserves(c, s, i, SetupFailed, Apply(s, step));
    case WarmLoad(i) => ThreadStepConserves(c, s, i, WarmClaiming(s.warmRemaining), Apply(s, step));
    case WarmDone(i) => ThreadStepConserves(c, s, i, WarmLoading, Apply(s, step));
  }

  lemma RunStepConserves(c: Config, s: State, step: Step)
    requires Conserved(c, s) && Enabled(s, step)
    requires step.Load? || step.RunDone? || step.PostRun? || step.Die?
    ensures Conserved(c, Apply(s, step))
  {
    hide Conserved;
    match step
    case Load(i) => ThreadStepConserves(c, s, i, Claiming(s.remaining), Apply(s, step));
    case RunDone(i, ok) => ThreadStepConserves(c, s, i, Posting(ok), Apply(s, step));
    case PostRun(i) => ThreadStepConserves(c, s, i, Loading, Apply(s, step));
    case Die(i) => ThreadStepConserves(c, s, i, Died, Apply(s, step));
  }

  lemma StepConserves(c: Config, s: State, step: Step)
    requires ValidConfig(c) && Conserved(c, s) && Enabled(s, step)
    ensures Conserved(c, Apply(s, step))
  {
    hide Conserved, TryClaim, TryWarm, With;
    match step
    case Try(i, spurious) => TryConserves(c, s, i, spurious);
    case WarmTry(i, spurious) => TryWarmConserves(c, s, i, spurious);
    case SetupOk(_) => SetupStepConserves(c, s, step);
    case SetupFail(_) => SetupStepConserves(c, s, step);
    case Post(_) => SetupStepConserves(c, s, step);
    case WarmLoad(_) => SetupStepConserves(c, s, step);
    case WarmDone(_) => SetupStepConserves(c, s, step);
    case Load(_) => RunStepConserves(c, s, step);
    case RunDone(_, _) => RunStepConserves(c, s, step);
    case PostRun(_) => RunStepConserves(c, s, step);
    case Die(_) => RunStepConserves(c, s, step);
  }

  lemma EmptyWasSeen(c: Config, s: State, i: nat)
    requires Conserved(c, s) && i < |s.threads| && SawEmpty(s.threads[i])
    ensures s.remaining == 0
  {
  }

  ghost predicate IsRun(c: Config, states: seq<State>, steps: seq<Step>) {
    && |states| == |steps| + 1
    && states[0] == Initial(c)
    && forall i :: 0 <= i < |steps| ==> Enabled(states[i], steps[i]) && states[i + 1] == Apply(states[i], steps[i])
  }

  /**
    On every interleaving the requested connections are exactly those succeeded, failed, lost with a dead thread, in a
    thread's hand, or still in the pool, so the 32-bit counter never wraps; samples and categories match the counts, and
    the metrics file holds one record per completed connection, warm-ups and connections not posted yet included.
    */
  lemma {:induction false} ConnectionsAreConserved(c: Config, states: seq<State>, steps: seq<Step>, k: nat)
    requires ValidConfig(c) && IsRun(c, states, steps) && k < |states|
    ensures Conserved(c, states[k])
  {
    hide Apply, Enabled;
    if k == 0 {
      TotalZero(Taken, Initial(c).threads);
      TotalZero(Unposted, Initial(c).threads);
    } else {
      ConnectionsAreConserved(c, states, steps, k - 1);
      StepConserves(c, states[k - 1], steps[k - 1]);
    }
  }

  // ---------------------------------------------------------------- successes, failures and warm-ups

  /** How many of the first `k` steps ended a measured connection that way. */
  function Outcomes(steps: seq<Step>, k: nat, ok: bool): nat
    requires k <= |steps|
  {
    if k == 0 then 0
    else Outcomes(steps, k - 1, ok) + if steps[k - 1].RunDone? && steps[k - 1].ok == ok then 1 else 0
  }

  /** Connections that ended that way, as far as the summary and the threads about to update it show. */
  function Shown(s: State, ok: bool): nat {
    (if ok then s.successful else s.runFailures) + Total(Ended(ok), s.threads)
  }

  lemma StepShows(s: State, step: Step, ok: bool)
    requires Enabled(s, step)
    ensures Shown(Apply(s, step), ok) == Shown(s, ok) + if step.RunDone? && step.ok == ok then 1 else 0
  {
    hide Total, Decrement;
    TotalUpdate(Ended(ok), s.threads, step.i, Apply(s, step).threads[step.i]);
  }

  /** On every interleaving a connection that ended well is counted as a success, any other as a failure. */
  lemma {:induction false} OutcomesAreCounted(c: Config, states: seq<State>, steps: seq<Step>, k: nat, ok: bool)
    requires IsRun(c, states, steps) && k < |states|
    ensures Shown(states[k], ok) == Outcomes(steps, k, ok)
    ensures AllJoined(states[k]) ==>
              (if ok then states[k].successful else states[k].runFailures) == Outcomes(steps, k, ok)
  {
    hide Apply, Enabled;
    if AllJoined(states[k]) {
      TotalZero(Ended(ok), states[k].threads);
    }
    if k == 0 {
      TotalZero(Ended(ok), Initial(c).threads);
    } else {
      OutcomesAreCounted(c, states, steps, k - 1, ok);
      StepShows(states[k - 1], steps[k - 1], ok);
    }
  }

  /** How many of the first `k` steps ended a thread in the middle of a warm-up connection. */
  function WarmUpsLost(states: seq<State>, steps: seq<Step>, k: nat): nat
    requires k <= |steps| <= |states|
  {
    if k == 0 then 0
    else WarmUpsLost(states, steps, k - 1) + if LosesAWarmUp(states[k - 1], steps[k - 1]) then 1 else 0
  }

  predicate LosesAWarmUp(s: State, step: Step) {
    step.Die? && step.i < |s.threads| && s.threads[step.i] == WarmRunning
  }

  /** The thread has seen that all warm-up connections are taken. */
  predicate PastWarmUp(t: Thread) {
    t in {Loading, Running, Finished, WarmClaiming(0)} || t.Claiming? || t.Posting?
  }

  predicate WarmedUp(c: Config, s: State, lost: nat) {
    && s.warmed + Total(Warming, s.threads) + lost + s.warmRemaining == c.warmup
    && forall i :: 0 <= i < |s.threads| && PastWarmUp(s.threads[i]) ==> s.warmRemaining == 0
  }

  lemma StepWarmsUp(c: Config, s: State, step: Step, lost: nat)
    requires ValidConfig(c) && Enabled(s, step) && WarmedUp(c, s, lost)
    ensures WarmedUp(c, Apply(s, step), lost + if LosesAWarmUp(s, step) then 1 else 0)
  {
    hide Total;
    var s', i := Apply(s, step), step.i;
    TotalUpdate(Warming, s.threads, i, s'.threads[i]);
    assert s'.warmRemaining <= s.warmRemaining;
    assert PastWarmUp(s'.threads[i]) ==> s'.warmRemaining == 0;
    forall j | 0 <= j < |s'.threads| && PastWarmUp(s'.threads[j]) ensures s'.warmRemaining == 0 {
      assert j != i ==> s'.threads[j] == s.threads[j];
    }
  }

  /**
    On every interleaving the warm-up connections are exactly those made, under way, lost with a thread, or still to be
    taken; and no measured connection is taken before the last warm-up connection has been.
    */
  lemma {:induction false} WarmUpsComeFirst(c: Config, states: seq<State>, steps: seq<Step>, k: nat)
    requires ValidConfig(c) && IsRun(c, states, steps) && k < |states|
    ensures WarmedUp(c, states[k], WarmUpsLost(states, steps, k))
  {
    hide Apply, Enabled, WarmedUp, LosesAWarmUp;
    if k == 0 {
      NoWarmUpsYet(c);
    } else {
      WarmUpsComeFirst(c, states, steps, k - 1);
      StepWarmsUp(c, states[k - 1], steps[k - 1], WarmUpsLost(states, steps, k - 1));
    }
  }

  lemma NoWarmUpsYet(c: Config)
    ensures WarmedUp(c, Initial(c), 0)
  {
    TotalZero(Warming, Initial(c).threads);
  }

  // ---------------------------------------------------------------- at the join

  predicate AllJoined(s: State) {
    forall i :: 0 <= i < |s.threads| ==> s.threads[i] in {Finished, SetupFailed, Died}
  }

  /** A thread ends by an exception at step `j` while it holds a connection. */
  predicate DiesWithAConnection(states: seq<State>, steps: seq<Step>, j: nat)
    requires j < |steps| && j < |states|
  {
    steps[j].Die? && steps[j].i < |states[j].threads| && states[j].threads[steps[j].i] == Running
  }

  lemma StepLoses(s: State, step: Step)
    requires Enabled(s, step)
    ensures Apply(s, step).lost == s.lost + (if step.Die? && s.threads[step.i] == Running then 1 else 0)
  {
    hide Decrement;
  }

  lemma {:induction false} LostExactlyWhen(c: Config, states: seq<State>, steps: seq<Step>, k: nat)
    requires IsRun(c, states, steps) && k < |states|
    ensures states[k].lost > 0 <==> exists j: nat :: j < k && DiesWithAConnection(states, steps, j)
  {
    hide Apply;
    if k == 0 {
    } else {
      LostExactlyWhen(c, states, steps, k - 1);
      StepLoses(states[k - 1], steps[k - 1]);
      assert DiesWithAConnection(states, steps, k - 1) <==>
             steps[k - 1].Die? && states[k - 1].threads[steps[k - 1].i] == Running;
    }
  }

  /**
    At the join, over all runs: successes and failures add up to the request if and only if the pool is empty and no
    thread died with a connection. The pool is empty whenever some thread did not die, so without deaths the only
    exception is a run without threads.
    */
  lemma JoinedRunReportsEverything(c: Config, states: seq<State>, steps: seq<Step>, k: nat)
    requires ValidConfig(c) && IsRun(c, states, steps) && k < |states| && AllJoined(states[k])
    ensures var s := states[k];
            s.successful + s.failed + s.lost + s.remaining == c.connections
    ensures var s := states[k];
            s.successful + s.failed == c.connections <==>
            s.remaining == 0 && !exists j: nat :: j < k && DiesWithAConnection(states, steps, j)
    ensures (exists i :: 0 <= i < |states[k].threads| && states[k].threads[i] != Died) ==> states[k].remaining == 0
    ensures var s := states[k];
            (forall i :: 0 <= i < |s.threads| ==> s.threads[i] != Died) ==>
              (s.successful + s.failed == c.connections <==> c.concurrency > 0 || c.connections == 0)
  {
    hide Apply, Enabled;
    ConnectionsAreConserved(c, states, steps, k);
    LostExactlyWhen(c, states, steps, k);
    var s := states[k];
    TotalZero(Taken, s.threads);
    forall i | 0 <= i < |s.threads| && s.threads[i] != Died ensures s.remaining == 0 {
      assert SawEmpty(s.threads[i]);
    }
  }

  /** Configuration checks exclude a concurrency of 0; without them the promise would fail here. */
  lemma NoThreadsReportNothing() returns (c: Config, states: seq<State>, steps: seq<Step>)
    ensures ValidConfig(c) && c.concurrency == 0 && IsRun(c, states, steps) && |states| == 1 && AllJoined(states[0])
    ensures states[0].successful + states[0].failed == 0 < c.connections
  {
    c := Config(1, 0, 0);
    states, steps := [Initial(c)], [];
  }

  // ---------------------------------------------------------------- records of abandoned connections

  /** Connections given up so far, posted or not. */
  function GivenUp(s: State): nat {
    s.abandoned + Total(Given, s.threads)
  }

  lemma StepGivesUp(s: State, step: Step)
    requires Enabled(s, step)
    ensures GivenUp(Apply(s, step)) == GivenUp(s) + (if step.SetupFail? then s.remaining else 0)
  {
    hide Total, Decrement;
    TotalUpdate(Given, s.threads, step.i, Apply(s, step).threads[step.i]);
  }

  /** A client setup failed at step `j` while connections were still to be made. */
  predicate FailsWithWorkLeft(states: seq<State>, steps: seq<Step>, j: nat)
    requires j < |steps| && j < |states|
  {
    steps[j].SetupFail? && states[j].remaining > 0
  }

  lemma {:induction false} GivenUpExactlyWhen(c: Config, states: seq<State>, steps: seq<Step>, k: nat)
    requires IsRun(c, states, steps) && k < |states|
    ensures GivenUp(states[k]) > 0 <==> exists j: nat :: j < k && FailsWithWorkLeft(states, steps, j)
  {
    hide Apply, Enabled, GivenUp;
    if k == 0 {
      NothingGivenUp(c);
    } else {
      GivenUpExactlyWhen(c, states, steps, k - 1);
      StepGivesUp(states[k - 1], steps[k - 1]);
      assert FailsWithWorkLeft(states, steps, k - 1) <==> steps[k - 1].SetupFail? && states[k - 1].remaining > 0;
    }
  }

  lemma NothingGivenUp(c: Config)
    ensures GivenUp(Initial(c)) == 0
  {
    TotalZero(Given, Initial(c).threads);
  }

  /**
    The header promises a metrics record for every connection. At the join of any run, what has no record is what was
    abandoned, lost with a thread, or never taken from the pool; so the file holds one record for each warm-up and each
    requested connection if and only if no client setup failed while connections were left, no thread died with a
    connection, and the pool is empty.
    */
  lemma EveryConnectionHasARecordExactlyWhen(c: Config, states: seq<State>, steps: seq<Step>, k: nat)
    requires ValidConfig(c) && IsRun(c, states, steps) && k < |states| && AllJoined(states[k])
    ensures var s := states[k];
            s.written + s.abandoned + s.lost + s.remaining == s.warmed + c.connections
    ensures states[k].written == states[k].warmed + c.connections <==>
            && (!exists j: nat :: j < k && FailsWithWorkLeft(states, steps, j))
            && (!exists j: nat :: j < k && DiesWithAConnection(states, steps, j))
            && states[k].remaining == 0
  {
    hide Apply, Enabled;
    JoinedRunReportsEverything(c, states, steps, k);
    ConnectionsAreConserved(c, states, steps, k);
    GivenUpExactlyWhen(c, states, steps, k);
    LostExactlyWhen(c, states, steps, k);
    TotalZero(Unposted, states[k].threads);
    TotalZero(Given, states[k].threads);
  }

  /** One thread, one connection, and a client that cannot be set up: a failure is reported and no record written. */
  lemma AbandonedWithoutARecord() returns (c: Config, states: seq<State>, steps: seq<Step>)
    ensures ValidConfig(c) && c.concurrency > 0 && IsRun(c, states, steps) && |states| == 3 && AllJoined(states[2])
    ensures states[2].failed == c.connections == 1 && states[2].written == 0
  {
    c := Config(1, 1, 0);
    var s0 := Initial(c);
    assert s0.threads == [Starting];
    var s1 := Apply(s0, SetupFail(0));
    assert s1.threads == [Abandoning(1)];
    var s2 := Apply(s1, Post(0));
    assert s2.threads == [SetupFailed];
    states, steps := [s0, s1, s2], [SetupFail(0), Post(0)];
  }

  /** One thread, one connection, and an exception after the claim: nothing is reported and no record written. */
  lemma LostWithoutARecord() returns (c: Config, states: seq<State>, steps: seq<Step>)
    ensures ValidConfig(c) && c.concurrency > 0 && IsRun(c, states, steps) && |states| == 7 && AllJoined(states[6])
    ensures states[6].successful + states[6].failed == states[6].written == 0 < c.connections
    ensures forall j :: 0 <= j < |steps| ==> !steps[j].SetupFail?
  {
    c := Config(1, 1, 0);
    var s0 := Initial(c);
    assert s0.threads == [Starting];
    var s1 := Apply(s0, SetupOk(0));
    assert s1.threads == [WarmLoading];
    var s2 := Apply(s1, WarmLoad(0));
    assert s2.threads == [WarmClaiming(0)];
    var s3 := Apply(s2, WarmTry(0, false));
    assert s3.threads == [Loading];
    var s4 := Apply(s3, Load(0));
    assert s4.threads == [Claiming(1)];
    var s5 := Apply(s4, Try(0, false));
    assert s5.threads == [Running];
    var s6 := Apply(s5, Die(0));
    assert s6.threads == [Died];
    states := [s0, s1, s2, s3, s4, s5, s6];
    steps := [SetupOk(0), WarmLoad(0), WarmTry(0, false), Load(0), Try(0, false), Die(0)];
  }

  /** One thread, a warm-up and a connection that succeeds: both are made, recorded, and the second one reported. */
  lemma EverythingReported() returns (states: seq<State>, steps: seq<Step>)
    ensures IsRun(Config(1, 1, 1), states, steps) && |states| == |steps| + 1 && AllJoined(states[|steps|])
    ensures var s := states[|steps|]; s.successful == s.warmed == 1 && s.failed == s.lost == 0 && s.written == 2
  {
    var c := Config(1, 1, 1);
    states, steps := ConnectionMade();
    hide IsRun;
    states, steps := ExtendRun(c, states, steps, Load(0));
    assert states[|steps|].threads == [Claiming(0)];
    states, steps := ExtendRun(c, states, steps, Try(0, false));
    assert states[|steps|].threads == [Finished];
  }

  lemma ConnectionMade() returns (states: seq<State>, steps: seq<Step>)
    ensures IsRun(Config(1, 1, 1), states, steps) && |states| == |steps| + 1
    ensures states[|steps|] == State([Loading], 0, 0, 1, 0, 1, 0, 0, 0, 0, 0, 1, 2)
  {
    var c := Config(1, 1, 1);
    states, steps := WarmUpMade();
    hide IsRun;
    states, steps := ExtendRun(c, states, steps, Load(0));
    assert states[|steps|].threads == [Claiming(1)];
    states, steps := ExtendRun(c, states, steps, Try(0, false));
    assert states[|steps|].threads == [Running];
    states, steps := ExtendRun(c, states, steps, RunDone(0, true));
    assert states[|steps|].threads == [Posting(true)];
    states, steps := ExtendRun(c, states, steps, PostRun(0));
    assert states[|steps|].threads == [Loading];
  }

  lemma WarmUpMade() returns (states: seq<State>, steps: seq<Step>)
    ensures IsRun(Config(1, 1, 1), states, steps) && |states| == |steps| + 1
    ensures states[|steps|] == State([Loading], 1, 0, 0, 0, 0, 0, 0, 0, 0, 0, 1, 1)
  {
    var c := Config(1, 1, 1);
    states, steps := [Initial(c)], [];
    assert Initial(c).threads == [Starting];
    assert IsRun(c, states, steps);
    hide IsRun;
    states, steps := ExtendRun(c, states, steps, SetupOk(0));
    assert states[|steps|].threads == [WarmLoading];
    states, steps := ExtendRun(c, states, steps, WarmLoad(0));
    assert states[|steps|].threads == [WarmClaiming(1)];
    states, steps := ExtendRun(c, states, steps, WarmTry(0, false));
    assert states[|steps|].threads == [WarmRunning];
    states, steps := ExtendRun(c, states, steps, WarmDone(0));
    assert states[|steps|].threads == [WarmLoading];
    states, steps := ExtendRun(c, states, steps, WarmLoad(0));
    assert states[|steps|].threads == [WarmClaiming(0)];
    states, steps := ExtendRun(c, states, steps, WarmTry(0, false));
    assert states[|steps|].threads == [Loading];
  }

  lemma ExtendRun(c: Config, states: seq<State>, steps: seq<Step>, step: Step)
    returns (states': seq<State>, steps': seq<Step>)
    requires IsRun(c, states, steps) && |states| == |steps| + 1 && Enabled(states[|steps|], step)
    ensures IsRun(c, states', steps') && |states'| == |steps'| + 1
    ensures states'[|steps'|] == Apply(states[|steps|], step)
  {
    hide Apply, Enabled;
    states', steps' := states + [Apply(states[|steps|], step)], steps + [step];
  }
}
