/**
 The endpoint lifecycle of a worker: threads that wait for an endpoint activation, announce one, or stop the generation,
 interleaved step by step under one mutex and one condition variable.
 */
module EndpointLifecycle {
  import opened Bytes
  import opened Protocol
  import opened Activations

  /** What a thread is doing: one call of `wait_for_activation_after`, `activate` or `stop`. */
  datatype Task = Wait(observed: u64) | Activate(activation: u64) | Stop

  /**
   Where the call stands: before it locks, under the lock, parked on the condition variable, woken but not yet under the
   lock again, about to notify, about to unlock, or returned.
   */
  datatype Phase = Fresh | Locked | Parked | Woken | Notifying | Unlocking | Returned(result: Option<u64>)

  datatype Thread = Thread(task: Task, phase: Phase)

  datatype State = State(activation: u64, stopping: bool, lock: Option<nat>, threads: seq<Thread>)

  predicate HoldsLock(p: Phase) {
    p.Locked? || p.Notifying? || p.Unlocking?
  }

  // Steps.

  datatype Action = Lock(t: nat) | Proceed(t: nat) | Wake(t: nat)

  function To(s: State, t: nat, p: Phase): seq<Thread>
    requires t < |s.threads|
  {
    s.threads[t := s.threads[t].(phase := p)]
  }

  function WokenAll(threads: seq<Thread>): (r: seq<Thread>)
    ensures |r| == |threads|
    ensures forall i :: 0 <= i < |threads| ==>
              r[i] == if threads[i].phase.Parked? then threads[i].(phase := Woken) else threads[i]
  {
    seq(|threads|, i requires 0 <= i < |threads| =>
      if threads[i].phase.Parked? then threads[i].(phase := Woken) else threads[i])
  }

  predicate Possible(s: State, a: Action) {
    && a.t < |s.threads|
    && var p := s.threads[a.t].phase;
       match a
       case Lock(_) => s.lock.None? && (p.Fresh? || p.Woken?)
       case Proceed(_) => HoldsLock(p)
       // A condition variable may wake a waiter on its own.
       case Wake(_) => p.Parked?
  }

  /** The next step of a thread that holds the lock. */
  function Run(s: State, t: nat): State
    requires t < |s.threads| && HoldsLock(s.threads[t].phase)
  {
    var thread := s.threads[t];
    if thread.phase.Notifying? then
      s.(threads := WokenAll(To(s, t, Unlocking)))
    else if thread.phase.Unlocking? then
      s.(lock := None, threads := To(s, t, Returned(None)))
    else
      match thread.task
      case Wait(observed) =>
        if !s.stopping && s.activation <= observed then s.(lock := None, threads := To(s, t, Parked))
        else s.(lock := None, threads := To(s, t, Returned(if s.stopping then None else Some(s.activation))))
      case Activate(activation) =>
        if !s.stopping && activation > s.activation then s.(activation := activation, threads := To(s, t, Notifying))
        else s.(threads := To(s, t, Unlocking))
      case Stop =>
        if !s.stopping then s.(stopping := true, threads := To(s, t, Notifying))
        else s.(threads := To(s, t, Unlocking))
  }

  function Next(s: State, a: Action): State
    requires Possible(s, a)
  {
    match a
    case Lock(t) => s.(lock := Some(t), threads := To(s, t, Locked))
    case Proceed(t) => Run(s, t)
    case Wake(t) => s.(threads := To(s, t, Woken))
  }

  // Runs.

  /** New calls on a new lifecycle. */
  predicate Initial(s: State) {
    && s.activation == 0 && !s.stopping && s.lock.None?
    && forall i :: 0 <= i < |s.threads| ==> s.threads[i].phase.Fresh?
  }

  predicate Legal(s: State, run: seq<Action>)
    decreases |run|, 0
  {
    |run| == 0
    || (var front := run[..|run| - 1];
        Legal(s, front) && Possible(After(s, front), run[|run| - 1]))
  }

  function After(s: State, run: seq<Action>): State
    requires Legal(s, run)
    decreases |run|, 1
  {
    if |run| == 0 then s else Next(After(s, run[..|run| - 1]), run[|run| - 1])
  }

  // Invariants.

  predicate MutualExclusion(s: State) {
    && (s.lock.Some? ==> s.lock.value < |s.threads|)
    && forall i :: 0 <= i < |s.threads| ==> (HoldsLock(s.threads[i].phase) <==> s.lock == Some(i))
  }

  predicate SomeoneNotifies(s: State) {
    s.lock.Some? && s.lock.value < |s.threads| && s.threads[s.lock.value].phase.Notifying?
  }

  /** The announcement of a thread that has run its step is taken up: the activation is at least the one announced. */
  predicate TakenUp(s: State, task: Task) {
    match task
    case Wait(_) => true
    case Activate(activation) => s.stopping || s.activation >= activation
    case Stop => s.stopping
  }

  /** What holds of one thread. */
  predicate Consistent(s: State, i: nat)
    requires i < |s.threads|
  {
    var thread := s.threads[i];
    match thread.phase
    case Parked =>
      thread.task.Wait? && (SomeoneNotifies(s) || (!s.stopping && s.activation <= thread.task.observed))
    case Woken => thread.task.Wait?
    case Returned(result) =>
      if thread.task.Wait? then
        if result.None? then s.stopping else thread.task.observed < result.value <= s.activation
      else result.None? && TakenUp(s, thread.task)
    case Notifying => !thread.task.Wait? && TakenUp(s, thread.task)
    case Unlocking => !thread.task.Wait? && TakenUp(s, thread.task)
    case _ => true
  }

  predicate Invariant(s: State) {
    MutualExclusion(s) && forall i :: 0 <= i < |s.threads| ==> Consistent(s, i)
  }

  lemma NextExcludes(s: State, a: Action)
    requires Invariant(s) && Possible(s, a)
    ensures MutualExclusion(Next(s, a))
    ensures |Next(s, a).threads| == |s.threads|
    ensures forall i :: 0 <= i < |s.threads| ==> Next(s, a).threads[i].task == s.threads[i].task
    ensures s.activation <= Next(s, a).activation && (s.stopping ==> Next(s, a).stopping)
    ensures s.stopping ==> Next(s, a).activation == s.activation
  {
  }

  lemma NextKeeps(s: State, a: Action)
    requires Invariant(s) && Possible(s, a)
    ensures Invariant(Next(s, a))
  {
    NextExcludes(s, a);
    var n := Next(s, a);
    forall i | 0 <= i < |s.threads| ensures Consistent(n, i) {
      NextConsistent(s, a, i);
    }
  }

  lemma NextConsistent(s: State, a: Action, i: nat)
    requires Invariant(s) && Possible(s, a) && i < |s.threads|
    ensures i < |Next(s, a).threads| && Consistent(Next(s, a), i)
  {
    assert Consistent(s, i) && Consistent(s, a.t);
  }

  /** The invariant holds in every interleaving. */
  lemma {:induction false} InvariantAlways(s: State, run: seq<Action>)
    requires Initial(s) && Legal(s, run)
    ensures Invariant(After(s, run)) && |After(s, run).threads| == |s.threads|
    ensures forall i :: 0 <= i < |s.threads| ==> After(s, run).threads[i].task == s.threads[i].task
  {
    hide Invariant, Next, Possible;
    if |run| == 0 {
      InitialKeeps(s);
    } else {
      var front := run[..|run| - 1];
      InvariantAlways(s, front);
      NextKeeps(After(s, front), run[|run| - 1]);
      NextExcludes(After(s, front), run[|run| - 1]);
    }
  }

  lemma InitialKeeps(s: State)
    requires Initial(s)
    ensures Invariant(s)
  {
  }

  // No lost wakeup.

  /**
   In every interleaving: unless some thread is about to notify, a waiter still parked is one whose generation is not
   stopping and has not been activated beyond what it observed. A returned value is newer than the observed one, and
   without a value the generation is stopping.
   */
  lemma NoLostWakeup(s: State, run: seq<Action>, i: nat)
    requires Initial(s) && Legal(s, run) && i < |s.threads| && s.threads[i].task.Wait?
    ensures var now := After(s, run);
            && |now.threads| == |s.threads|
            && (now.threads[i].phase.Parked? && !SomeoneNotifies(now) ==>
                  !now.stopping && now.activation <= s.threads[i].task.observed)
            && (now.lock.None? ==> !SomeoneNotifies(now))
            && (now.threads[i].phase.Returned? ==>
                  match now.threads[i].phase.result
                  case Some(v) => v > s.threads[i].task.observed
                  case None => now.stopping)
  {
    InvariantAlways(s, run);
    assert Consistent(After(s, run), i);
  }

  // Activations take effect.

  /** A call that waits for less than `a`, and has not returned. */
  predicate Waits(s: State, i: nat, a: u64) {
    i < |s.threads| && s.threads[i].task.Wait? && s.threads[i].task.observed < a && !s.threads[i].phase.Returned?
  }

  /**
   In every interleaving: after `activate(a)` has returned, unless the generation is stopping, the activation is at least
   `a`. With nobody about to notify, no waiter that observed less than `a` is parked; and as long as one of these has not
   returned, some thread can take a step without being woken by chance.
   */
  lemma ActivationTakesEffect(s: State, run: seq<Action>, t: nat, i: nat)
    requires Initial(s) && Legal(s, run) && t < |s.threads| && s.threads[t].task.Activate?
    requires |After(s, run).threads| == |s.threads| && After(s, run).threads[t].phase.Returned?
    requires !After(s, run).stopping
    ensures var now, a := After(s, run), s.threads[t].task.activation;
            && now.activation >= a
            && (Waits(now, i, a) && !SomeoneNotifies(now) ==> !now.threads[i].phase.Parked?)
            && (Waits(now, i, a) ==> exists u :: Possible(now, Lock(u)) || Possible(now, Proceed(u)))
  {
    hide Legal, After;
    var now := After(s, run);
    InvariantAlways(s, run);
    assert Consistent(now, t);
    if Waits(now, i, s.threads[t].task.activation) {
      assert Consistent(now, i);
      if now.lock.Some? {
        assert Possible(now, Proceed(now.lock.value));
      } else {
        assert Possible(now, Lock(i));
      }
    }
  }

  /** Each step of such a waiter brings it closer to its return, and no step of another thread takes it back. */
  lemma ActivatedWaiterDrains(s: State, a: Action, i: nat)
    requires Invariant(s) && Possible(s, a) && i < |s.threads| && s.threads[i].task.Wait?
    requires s.stopping || s.activation > s.threads[i].task.observed
    ensures |Next(s, a).threads| == |s.threads|
    ensures Left(Next(s, a).threads[i].phase) <= Left(s.threads[i].phase)
    ensures a.t == i ==> Left(Next(s, a).threads[i].phase) < Left(s.threads[i].phase)
  {
  }

  // A waiter returns what is activated at that moment, and has then returned for good.
  lemma WaiterReturns(s: State, a: Action, i: nat)
    requires Invariant(s) && Possible(s, a) && i < |s.threads| == |Next(s, a).threads|
    ensures s.threads[i].phase.Returned? ==> Next(s, a).threads[i].phase == s.threads[i].phase
    ensures var p := Next(s, a).threads[i].phase;
            !s.threads[i].phase.Returned? && p.Returned? && p.result.Some? ==> p.result.value == s.activation
  {
  }

  /**
   A waiter that returns a value returns the activation of that moment, so at least every activation announced by a call
   that had run its step before the waiter returned.
   */
  lemma {:induction false} ReturnsAtLeast(s: State, run: seq<Action>, n: nat, t: nat, i: nat)
    requires Initial(s) && Legal(s, run) && n <= |run| && Legal(s, run[..n])
    requires t < |s.threads| && s.threads[t].task.Activate? && i < |s.threads|
    requires |After(s, run[..n]).threads| == |After(s, run).threads| == |s.threads|
    requires var p := After(s, run[..n]).threads[t].phase; p.Notifying? || p.Unlocking? || p.Returned?
    requires !After(s, run[..n]).threads[i].phase.Returned?
    ensures var p := After(s, run).threads[i].phase;
            p.Returned? && p.result.Some? ==> p.result.value >= s.threads[t].task.activation
  {
    hide Next, Possible, Invariant, Initial, Consistent;
    if n == |run| {
      assert run[..n] == run;
    } else {
      var front, a := run[..|run| - 1], run[|run| - 1];
      assert front[..n] == run[..n];
      InvariantAlways(s, front);
      InvariantAlways(s, run[..n]);
      ReturnsAtLeast(s, front, n, t, i);
      WaiterReturns(After(s, front), a, i);
      Monotone(s, front, n);
      Announces(After(s, run[..n]), t);
      if After(s, front).stopping {
        NoValueWhenStopping(After(s, front), a, i);
      }
    }
  }

  lemma Announces(s: State, t: nat)
    requires Invariant(s) && t < |s.threads| && s.threads[t].task.Activate?
    requires var p := s.threads[t].phase; p.Notifying? || p.Unlocking? || p.Returned?
    ensures s.stopping || s.activation >= s.threads[t].task.activation
  {
    assert Consistent(s, t);
  }

  /** Activation never decreases, and stopping is permanent. */
  lemma {:induction false} Monotone(s: State, run: seq<Action>, n: nat)
    requires Initial(s) && Legal(s, run) && n <= |run|
    ensures Legal(s, run[..n])
    ensures After(s, run[..n]).activation <= After(s, run).activation
    ensures After(s, run[..n]).stopping ==>
              After(s, run).stopping && After(s, run).activation == After(s, run[..n]).activation
  {
    hide Next, Possible, Invariant, Initial;
    if n == |run| {
      assert run[..n] == run;
    } else {
      var front := run[..|run| - 1];
      Monotone(s, front, n);
      assert front[..n] == run[..n];
      InvariantAlways(s, front);
      NextExcludes(After(s, front), run[|run| - 1]);
    }
  }

  // Draining.

  predicate Finished(s: State) {
    forall i :: 0 <= i < |s.threads| ==> s.threads[i].phase.Returned?
  }

  /** How many steps a call has at most before it, once the generation is stopping. */
  function Left(p: Phase): nat {
    match p
    case Fresh => 6
    case Parked => 5
    case Woken => 4
    case Locked => 3
    case Notifying => 2
    case Unlocking => 1
    case Returned(_) => 0
  }

  function Work(threads: seq<Thread>): nat {
    if |threads| == 0 then 0 else Work(threads[..|threads| - 1]) + Left(threads[|threads| - 1].phase)
  }

  lemma {:induction false} WorkFalls(xs: seq<Thread>, ys: seq<Thread>, t: nat)
    requires |xs| == |ys| && t < |xs|
    requires forall i :: 0 <= i < |xs| ==> Left(ys[i].phase) <= Left(xs[i].phase)
    requires Left(ys[t].phase) < Left(xs[t].phase)
    ensures Work(ys) < Work(xs)
  {
    var n := |xs| - 1;
    if t < n {
      WorkFalls(xs[..n], ys[..n], t);
    } else {
      WorkNotMore(xs[..n], ys[..n]);
    }
  }

  lemma {:induction false} WorkNotMore(xs: seq<Thread>, ys: seq<Thread>)
    requires |xs| == |ys| && forall i :: 0 <= i < |xs| ==> Left(ys[i].phase) <= Left(xs[i].phase)
    ensures Work(ys) <= Work(xs)
  {
    if |xs| > 0 {
      WorkNotMore(xs[..|xs| - 1], ys[..|ys| - 1]);
    }
  }

  /** Once the generation is stopping every step brings the calls closer to their end: nobody parks again. */
  lemma StoppingDrains(s: State, a: Action)
    requires Invariant(s) && Possible(s, a) && s.stopping
    ensures Work(Next(s, a).threads) < Work(s.threads)
  {
    var n := Next(s, a);
    assert Consistent(s, a.t);
    WorkFalls(s.threads, n.threads, a.t);
  }

  /** And as long as some call has not returned, some thread can take a step without being woken by chance. */
  lemma StoppingProgresses(s: State)
    requires Invariant(s) && s.stopping && !Finished(s)
    ensures exists t :: Possible(s, Lock(t)) || Possible(s, Proceed(t))
  {
    if s.lock.Some? {
      assert Possible(s, Proceed(s.lock.value));
    } else {
      var i :| 0 <= i < |s.threads| && !s.threads[i].phase.Returned?;
      assert Consistent(s, i);
      assert Possible(s, Lock(i));
    }
  }

  /**
   After `stop` every call returns within a bounded number of steps, whatever the interleaving, and no call that was
   waiting then returns a value.
   */
  lemma {:induction false} AllDrainAfterStop(s: State, run: seq<Action>, n: nat, i: nat)
    requires Initial(s) && Legal(s, run) && n <= |run| && i < |s.threads|
    requires Legal(s, run[..n]) && After(s, run[..n]).stopping
    ensures |After(s, run[..n]).threads| == |After(s, run).threads| == |s.threads|
    ensures Work(After(s, run).threads) + (|run| - n) <= Work(After(s, run[..n]).threads)
    ensures !After(s, run[..n]).threads[i].phase.Returned? ==>
              var p := After(s, run).threads[i].phase; p.Returned? ==> p.result.None?
    ensures After(s, run[..n]).threads[i].phase.Returned? ==>
              After(s, run).threads[i].phase == After(s, run[..n]).threads[i].phase
  {
    hide Next, Possible, Invariant, Initial;
    InvariantAlways(s, run[..n]);
    if n == |run| {
      assert run[..n] == run;
    } else {
      var front, a := run[..|run| - 1], run[|run| - 1];
      assert front[..n] == run[..n];
      AllDrainAfterStop(s, front, n, i);
      Monotone(s, front, n);
      InvariantAlways(s, front);
      StoppingDrains(After(s, front), a);
      NextExcludes(After(s, front), a);
      NoValueWhenStopping(After(s, front), a, i);
    }
  }

  lemma NoValueWhenStopping(s: State, a: Action, i: nat)
    requires Invariant(s) && Possible(s, a) && s.stopping && i < |s.threads| == |Next(s, a).threads|
    ensures !s.threads[i].phase.Returned? && Next(s, a).threads[i].phase.Returned? ==>
              Next(s, a).threads[i].phase.result.None?
    ensures s.threads[i].phase.Returned? ==> Next(s, a).threads[i].phase == s.threads[i].phase
  {
  }

  // Fresh enables.

  /** The activations announced are counts of fresh enables over the events so far. */
  ghost predicate Fed(s: State, events: seq<BusEvent>) {
    forall t {:trigger s.threads[t]} :: 0 <= t < |s.threads| && s.threads[t].task.Activate? ==>
      exists k :: 0 <= k <= |events| && s.threads[t].task.activation == FreshEnables(events[..k])
  }

  predicate Announced(s: State) {
    s.activation == 0 || exists t :: 0 <= t < |s.threads| && s.threads[t].task == Activate(s.activation)
  }

  lemma {:induction false} ActivationAnnounced(s: State, run: seq<Action>)
    requires Initial(s) && Legal(s, run)
    ensures Announced(After(s, run))
  {
    hide Invariant, Possible;
    if |run| > 0 {
      var front, a := run[..|run| - 1], run[|run| - 1];
      ActivationAnnounced(s, front);
      InvariantAlways(s, front);
      AnnouncedNext(After(s, front), a);
    }
  }

  lemma AnnouncedNext(s: State, a: Action)
    requires Invariant(s) && Possible(s, a) && Announced(s)
    ensures Announced(Next(s, a))
  {
    NextExcludes(s, a);
    var n := Next(s, a);
    if n.activation == s.activation {
      if s.activation != 0 {
        var t :| 0 <= t < |s.threads| && s.threads[t].task == Activate(s.activation);
        assert n.threads[t].task == Activate(n.activation);
      }
    } else {
      assert n.threads[a.t].task == Activate(n.activation);
    }
  }

  /**
   A helper that observed the count at one point of a generation's events is let go only by a fresh enable that came
   after that point.
   */
  lemma ReleasedByFreshEnable(s: State, run: seq<Action>, events: seq<BusEvent>, i: nat, k: nat)
    requires Initial(s) && Legal(s, run) && Fed(s, events)
    requires i < |s.threads| && s.threads[i].task.Wait?
    requires k <= |events| && s.threads[i].task.observed == FreshEnables(events[..k])
    requires |After(s, run).threads| == |s.threads|
    requires var p := After(s, run).threads[i].phase; p.Returned? && p.result.Some?
    ensures exists j :: k <= j < |events| && IsFresh(events, j)
  {
    hide FreshEnables, IsFresh, Possible, Next, MutualExclusion;
    var now := After(s, run);
    InvariantAlways(s, run);
    ActivationAnnounced(s, run);
    assert Consistent(now, i);
    var t :| 0 <= t < |now.threads| && now.threads[t].task == Activate(now.activation);
    assert s.threads[t].task.Activate?;
    var m :| 0 <= m <= |events| && s.threads[t].task.activation == FreshEnables(events[..m]);
    LargerMeansFreshEnable(events, k, m);
  }
}
