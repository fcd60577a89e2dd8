/**
  The resettable once of lazy/once.go, and the wait that lazy/init.go puts behind it, over any number of threads.
  Every atomic operation is one step; a run is any interleaving of the threads' steps.
 */
module LazyOnce {
  import opened Common

  /** Where a call of `Do` made by the running function itself stands. It is stranded if it goes on to the held mutex. */
  datatype Inner = Outside | InnerLoading | InnerSwapping | InnerStranded

  datatype Thread =
    | Idle
    // Do
    | Loading | Swapping | Locking | Checking | Running(inner: Inner) | Storing | Unlocking | Clearing
    // the wait for done after Do has returned
    | Waiting
    // Reset
    | ResetLocking | ResetStoring | InReset

  datatype Event = Started | Completed | Reset

  /**
    `mu` and `lock` name the thread that holds the mutex and the one that has set the lock word; `log` records
    the starts and ends of the function and the resets.
   */
  datatype State = State(threads: seq<Thread>, mu: Option<nat>, lock: Option<nat>, done: bool, log: seq<Event>)

  datatype Step = StartDo(t: nat) | StartReset(t: nat) | StartInner(t: nat) | Advance(t: nat)

  function Init(n: nat): State
  {
    State(seq(n, i => Idle), None, None, false, [])
  }

  predicate Enabled(s: State, step: Step)
  {
    && step.t < |s.threads|
    && var pc := s.threads[step.t];
       match step
       case StartDo(_) => pc == Idle
       case StartReset(_) => pc == Idle
       case StartInner(_) => pc == Running(Outside)
       case Advance(_) =>
         match pc
         case Idle => false
         case Running(InnerStranded) => false
         case Locking => s.mu == None
         case ResetLocking => s.mu == None
         case Waiting => s.done
         case _ => true
  }

  function Apply(s: State, step: Step): State
    requires Enabled(s, step)
  {
    var t := step.t;
    match step
    case StartDo(_) => s.(threads := s.threads[t := Loading])
    case StartReset(_) => s.(threads := s.threads[t := ResetLocking])
    case StartInner(_) => s.(threads := s.threads[t := Running(InnerLoading)])
    case Advance(_) => Move(s, t)
  }

  function Move(s: State, t: nat): State
    requires Enabled(s, Advance(t))
  {
    match s.threads[t]
    case Loading => s.(threads := s.threads[t := if s.done then Waiting else Swapping])
    case Swapping =>
      if s.lock == None then s.(threads := s.threads[t := Locking], lock := Some(t))
      else s.(threads := s.threads[t := Waiting])
    case Locking => s.(threads := s.threads[t := Checking], mu := Some(t))
    case Checking =>
      if s.done then s.(threads := s.threads[t := Unlocking])
      else s.(threads := s.threads[t := Running(Outside)], log := s.log + [Started])
    case Running(Outside) => s.(threads := s.threads[t := Storing], log := s.log + [Completed])
    case Running(InnerLoading) => s.(threads := s.threads[t := Running(if s.done then Outside else InnerSwapping)])
    case Running(InnerSwapping) => s.(threads := s.threads[t := Running(if s.lock == None then InnerStranded else Outside)])
    case Storing => s.(threads := s.threads[t := Unlocking], done := true)
    case Unlocking => s.(threads := s.threads[t := Clearing], mu := None)
    case Clearing => s.(threads := s.threads[t := Waiting], lock := None)
    case Waiting => s.(threads := s.threads[t := Idle])
    case ResetLocking => s.(threads := s.threads[t := ResetStoring], mu := Some(t))
    case ResetStoring => s.(threads := s.threads[t := InReset], done := false, log := s.log + [Reset])
    case InReset => s.(threads := s.threads[t := Idle], mu := None)
  }

  function Run(s: State, steps: seq<Step>): Option<State>
    decreases |steps|
  {
    if steps == [] then Some(s)
    else if Enabled(s, steps[0]) then Run(Apply(s, steps[0]), steps[1..])
    else None
  }

  /** What the log says: nothing done since the last reset, a run under way, a run completed; or something forbidden. */
  datatype Phase = Fresh | Busy | Full | Broken

  function After(p: Phase, e: Event): Phase
  {
    match (p, e)
    case (Fresh, Started) => Busy
    case (Busy, Completed) => Full
    case (Fresh, Reset) => Fresh
    case (Full, Reset) => Fresh
    case _ => Broken
  }

  function PhaseOf(log: seq<Event>): Phase
  {
    if log == [] then Fresh else After(PhaseOf(log[..|log| - 1]), log[|log| - 1])
  }

  lemma PhaseAppend(log: seq<Event>, e: Event)
    ensures PhaseOf(log + [e]) == After(PhaseOf(log), e)
  {
    assert (log + [e])[..|log|] == log;
  }

  predicate HoldsMutex(pc: Thread)
  {
    pc in {Checking, Storing, Unlocking, ResetStoring, InReset} || pc.Running?
  }

  predicate HoldsLock(pc: Thread)
  {
    pc in {Locking, Checking, Storing, Unlocking, Clearing} || pc.Running?
  }

  predicate Stored(pc: Thread)
  {
    pc in {Unlocking, Clearing}
  }

  ghost predicate Exclusive(s: State)
  {
    && (forall t :: 0 <= t < |s.threads| ==> (s.mu == Some(t) <==> HoldsMutex(s.threads[t])))
    && (forall t :: 0 <= t < |s.threads| ==> (s.lock == Some(t) <==> HoldsLock(s.threads[t])))
    && (s.mu.Some? ==> s.mu.value < |s.threads|)
    && (s.lock.Some? ==> s.lock.value < |s.threads|)
    && (forall t :: 0 <= t < |s.threads| ==> s.threads[t] != Running(InnerStranded))
  }

  /** The log never breaks, and `done` is set exactly when a run was completed since the last reset and stored. */
  ghost predicate Faithful(s: State)
  {
    var p := PhaseOf(s.log);
    if s.mu.Some? && s.mu.value < |s.threads| && s.threads[s.mu.value].Running? then p == Busy && !s.done
    else if s.mu.Some? && s.mu.value < |s.threads| && s.threads[s.mu.value] == Storing then p == Full && !s.done
    else p == if s.done then Full else Fresh
  }

  /** Whoever has come past the lock word leaves a trace in the log. */
  ghost predicate Traced(s: State)
  {
    && (forall t :: 0 <= t < |s.threads| && Stored(s.threads[t]) ==> s.log != [])
    && (forall t :: 0 <= t < |s.threads| && s.threads[t] == Waiting ==> s.log != [] || s.lock.Some?)
  }

  ghost predicate Inv(s: State)
  {
    Exclusive(s) && Faithful(s) && Traced(s)
  }

  /** What `Exclusive` says about one thread. */
  ghost predicate Holder(s: State, u: nat)
    requires u < |s.threads|
  {
    && (s.mu == Some(u) <==> HoldsMutex(s.threads[u]))
    && (s.lock == Some(u) <==> HoldsLock(s.threads[u]))
    && s.threads[u] != Running(InnerStranded)
  }

  lemma MoverIsHolder(s: State, step: Step)
    requires Exclusive(s) && Enabled(s, step) && (s.threads[step.t].Running? ==> s.lock == Some(step.t))
    ensures |Apply(s, step).threads| == |s.threads| && Holder(Apply(s, step), step.t)
  {
    assert Holder(s, step.t);
  }

  lemma OthersAreHolders(s: State, step: Step, u: nat)
    requires Exclusive(s) && Enabled(s, step) && u < |s.threads| && u != step.t
    ensures |Apply(s, step).threads| == |s.threads| && Holder(Apply(s, step), u)
  {
    assert Holder(s, u) && Holder(s, step.t);
  }

  lemma StepKeepsExclusive(s: State, step: Step)
    requires Inv(s) && Enabled(s, step)
    ensures Exclusive(Apply(s, step))
  {
    var s1 := Apply(s, step);
    assert Holder(s, step.t);
    MoverIsHolder(s, step);
    forall u: nat | u < |s.threads| ensures Holder(s1, u) {
      if u != step.t {
        OthersAreHolders(s, step, u);
      }
    }
  }

  /** The thread at hand holds the mutex, or the one that does stays where it is. */
  lemma HolderStays(s: State, step: Step)
    requires Inv(s) && Enabled(s, step)
    ensures var s1 := Apply(s, step);
            && (s.mu == Some(step.t) <==> HoldsMutex(s.threads[step.t]))
            && (s1.mu.Some? && s1.mu.value != step.t ==>
                  s.mu == s1.mu && s1.mu.value < |s.threads| && s1.threads[s1.mu.value] == s.threads[s1.mu.value])
  {}

  lemma LoggedKeepsFaithful(s: State, t: nat)
    requires Inv(s) && Enabled(s, Advance(t)) && s.threads[t] in {Checking, Running(Outside), ResetStoring}
    ensures Faithful(Apply(s, Advance(t)))
  {
    HolderStays(s, Advance(t));
    PhaseAppend(s.log, if s.threads[t] == Checking then Started else if s.threads[t] == ResetStoring then Reset else Completed);
  }

  lemma StepKeepsFaithful(s: State, step: Step)
    requires Inv(s) && Enabled(s, step)
    ensures Faithful(Apply(s, step))
  {
    HolderStays(s, step);
    if step.Advance? && s.threads[step.t] in {Checking, Running(Outside), ResetStoring} {
      LoggedKeepsFaithful(s, step.t);
    }
  }

  lemma StepKeepsTraced(s: State, step: Step)
    requires Inv(s) && Enabled(s, step)
    ensures Traced(Apply(s, step))
  {
  }

  lemma StepKeepsInv(s: State, step: Step)
    requires Inv(s) && Enabled(s, step)
    ensures Inv(Apply(s, step))
  {
    StepKeepsExclusive(s, step);
    StepKeepsFaithful(s, step);
    StepKeepsTraced(s, step);
  }

  lemma {:induction false} RunKeepsInv(s: State, steps: seq<Step>)
    requires Inv(s) && Run(s, steps).Some?
    ensures Inv(Run(s, steps).value)
    decreases |steps|
  {
    if steps != [] {
      StepKeepsInv(s, steps[0]);
      RunKeepsInv(Apply(s, steps[0]), steps[1..]);
    }
  }

  lemma InitInv(n: nat)
    ensures Inv(Init(n))
  {}

  ghost predicate Reachable(n: nat, s: State)
  {
    exists steps :: Run(Init(n), steps) == Some(s)
  }

  lemma ReachableInv(n: nat, s: State)
    requires Reachable(n, s)
    ensures Inv(s)
  {
    var steps :| Run(Init(n), steps) == Some(s);
    InitInv(n);
    RunKeepsInv(Init(n), steps);
  }

  /** While the function runs, no other thread runs it, none is inside a reset, and the once reads as in progress, not done. */
  lemma RunsAlone(n: nat, s: State, t: nat, u: nat)
    requires Reachable(n, s) && t < |s.threads| && u < |s.threads| && s.threads[t].Running?
    ensures s.threads[u].Running? || s.threads[u] in {ResetStoring, InReset} ==> t == u
    ensures s.lock.Some? && !s.done
  {
    ReachableInv(n, s);
    assert s.mu == Some(u) <==> HoldsMutex(s.threads[u]);
    assert s.mu == Some(t) && s.lock == Some(t);
  }

  /** `done` reads 1 only when a run has completed and no reset has come since. */
  lemma DoneMeansCompleted(n: nat, s: State)
    requires Reachable(n, s) && s.done
    ensures s.log != [] && s.log[|s.log| - 1] == Completed
  {
    ReachableInv(n, s);
  }

  function Count(log: seq<Event>, e: Event): nat
  {
    if log == [] then 0 else Count(log[..|log| - 1], e) + if log[|log| - 1] == e then 1 else 0
  }

  lemma {:induction false} PhaseCounts(log: seq<Event>)
    requires PhaseOf(log) != Broken
    ensures var (started, completed, resets) := (Count(log, Started), Count(log, Completed), Count(log, Reset));
            && (PhaseOf(log) == Fresh ==> started == completed <= resets)
            && (PhaseOf(log) == Busy ==> started == completed + 1 <= resets + 1)
            && (PhaseOf(log) == Full ==> started == completed <= resets + 1)
  {
    if log != [] {
      PhaseCounts(log[..|log| - 1]);
    }
  }

  /** Over any number of threads the completed runs number at most one more than the resets. */
  lemma RunsAreBounded(n: nat, s: State)
    requires Reachable(n, s)
    ensures Count(s.log, Completed) <= Count(s.log, Reset) + 1
    ensures Count(s.log, Completed) <= Count(s.log, Started) <= Count(s.log, Completed) + 1
  {
    ReachableInv(n, s);
    PhaseCounts(s.log);
  }

  lemma {:induction false} PhasePrefix(log: seq<Event>, i: nat)
    requires PhaseOf(log) != Broken && i <= |log|
    ensures PhaseOf(log[..i]) != Broken
  {
    if i < |log| {
      assert log[..|log| - 1][..i] == log[..i];
      PhasePrefix(log[..|log| - 1], i);
    } else {
      assert log[..i] == log;
    }
  }

  lemma {:induction false} ResetSinceStart(log: seq<Event>, i: nat) returns (k: nat)
    requires i < |log| && log[i] == Started && PhaseOf(log) == Fresh
    ensures i < k < |log| && log[k] == Reset
  {
    k := |log| - 1;
  }

  /** Between two starts of the function there is always a reset. */
  lemma StartsAreSeparated(n: nat, s: State, i: nat, j: nat) returns (k: nat)
    requires Reachable(n, s) && i < j < |s.log| && s.log[i] == s.log[j] == Started
    ensures i < k < j && s.log[k] == Reset
  {
    ReachableInv(n, s);
    PhasePrefix(s.log, j + 1);
    assert s.log[..j + 1][..j] == s.log[..j];
    assert PhaseOf(s.log[..j]) == Fresh;
    k := ResetSinceStart(s.log[..j], i);
  }

  /** A call of `Do` made by the running function comes back: it never goes on to the mutex that its caller holds. */
  lemma InnerDoReturns(n: nat, s: State, t: nat)
    requires Reachable(n, s) && t < |s.threads| && s.threads[t].Running?
    ensures s.threads[t].inner != InnerStranded
    ensures s.threads[t] == Running(InnerSwapping) ==> Apply(s, Advance(t)).threads[t] == Running(Outside)
  {
    ReachableInv(n, s);
    assert s.lock == Some(t);
  }

  /** A thread gets past the wait behind `Do` only when a run has completed and no reset has come since. */
  lemma WaitEndsAfterRun(n: nat, s: State, t: nat)
    requires Reachable(n, s) && t < |s.threads| && s.threads[t] == Waiting && Enabled(s, Advance(t))
    ensures s.log != [] && s.log[|s.log| - 1] == Completed
  {
    ReachableInv(n, s);
  }

  /** Anywhere in a call of `Do` or in the wait behind it. */
  predicate InDo(pc: Thread)
  {
    pc in {Loading, Swapping, Locking, Checking, Storing, Unlocking, Clearing, Waiting} || pc.Running?
  }

  /** A call of `Do` comes back only after a run, its own or that of another thread, and with no reset since. */
  lemma DoReturnsAfterRun(n: nat, s: State, step: Step)
    requires Reachable(n, s) && Enabled(s, step)
    requires InDo(s.threads[step.t]) && Apply(s, step).threads[step.t] == Idle
    ensures s.done && s.log != [] && s.log[|s.log| - 1] == Completed
  {
    ReachableInv(n, s);
  }

  /** No thread can go on. */
  ghost predicate Stuck(s: State)
  {
    forall t :: 0 <= t < |s.threads| ==> !Enabled(s, Advance(t))
  }

  ghost predicate AtRest(s: State)
  {
    forall t :: 0 <= t < |s.threads| ==> s.threads[t] in {Idle, Waiting}
  }

  /** Whoever holds the mutex, or else the lock word, can always go on. */
  lemma StuckIsAtRest(s: State)
    requires Inv(s) && Stuck(s)
    ensures AtRest(s)
  {
    if s.mu.Some? {
      assert HoldsMutex(s.threads[s.mu.value]);
      assert Enabled(s, Advance(s.mu.value));
    } else if s.lock.Some? {
      assert HoldsLock(s.threads[s.lock.value]);
      assert Enabled(s, Advance(s.lock.value));
    }
    forall t | 0 <= t < |s.threads| ensures s.threads[t] in {Idle, Waiting} {
      assert !Enabled(s, Advance(t));
    }
  }

  lemma RestIsFree(s: State)
    requires Exclusive(s) && AtRest(s)
    ensures s.mu == None && s.lock == None
  {
    assert s.mu.Some? ==> HoldsMutex(s.threads[s.mu.value]);
    assert s.lock.Some? ==> HoldsLock(s.threads[s.lock.value]);
  }

  /**
    The only way to hang: none of the calls in progress can go on, while a thread waits behind `Do`, exactly when
    all threads are idle or waiting and the last thing that happened is a reset, which has taken away the run they
    were waiting for. Only a new call of `Do` gets the waiting threads out of it, as the next two lemmas show.
   */
  lemma WaitersAreStrandedByReset(n: nat, s: State, t: nat)
    requires Reachable(n, s) && t < |s.threads| && s.threads[t] == Waiting
    ensures Stuck(s) <==> AtRest(s) && s.log != [] && s.log[|s.log| - 1] == Reset
  {
    ReachableInv(n, s);
    if Stuck(s) {
      StuckIsAtRest(s);
      RestIsFree(s);
      assert !Enabled(s, Advance(t));
      assert After(PhaseOf(s.log[..|s.log| - 1]), s.log[|s.log| - 1]) == Fresh;
    }
    if AtRest(s) && s.log != [] && s.log[|s.log| - 1] == Reset {
      RestIsFree(s);
      assert After(PhaseOf(s.log[..|s.log| - 1]), Reset) != Full;
    }
  }

  /** No thread is inside `Do`, and the once is not done. */
  ghost predicate NoneInDo(s: State)
  {
    !s.done && forall t :: 0 <= t < |s.threads| ==> s.threads[t] in {Idle, Waiting, ResetLocking, ResetStoring, InReset}
  }

  lemma StepWithoutDo(s: State, step: Step, t: nat)
    requires NoneInDo(s) && Enabled(s, step) && !step.StartDo? && t < |s.threads| && s.threads[t] == Waiting
    ensures NoneInDo(Apply(s, step)) && |Apply(s, step).threads| == |s.threads| && Apply(s, step).threads[t] == Waiting
  {
    assert s.threads[step.t] in {Idle, Waiting, ResetLocking, ResetStoring, InReset};
  }

  lemma {:induction false} RunWithoutDo(s: State, steps: seq<Step>, t: nat)
    requires NoneInDo(s) && t < |s.threads| && s.threads[t] == Waiting
    requires Run(s, steps).Some? && forall step :: step in steps ==> !step.StartDo?
    ensures var s1 := Run(s, steps).value; NoneInDo(s1) && |s1.threads| == |s.threads| && s1.threads[t] == Waiting
    decreases |steps|
  {
    if steps != [] {
      StepWithoutDo(s, steps[0], t);
      RunWithoutDo(Apply(s, steps[0]), steps[1..], t);
    }
  }

  /** Whatever else is done, resets included: without a new call of `Do` a stranded thread goes on waiting. */
  lemma OnlyDoReleases(n: nat, s: State, t: nat, steps: seq<Step>)
    requires Reachable(n, s) && Stuck(s) && t < |s.threads| && s.threads[t] == Waiting
    requires Run(s, steps).Some? && forall step :: step in steps ==> !step.StartDo?
    ensures var s1 := Run(s, steps).value; !s1.done && |s1.threads| == |s.threads| && s1.threads[t] == Waiting
  {
    ReachableInv(n, s);
    StuckIsAtRest(s);
    assert !Enabled(s, Advance(t));
    RunWithoutDo(s, steps, t);
  }

  /** A call of `Do` by `u` and what else only `u` does. */
  ghost predicate OneCall(steps: seq<Step>, u: nat)
  {
    |steps| >= 1 && steps[0] == StartDo(u) && forall step :: step in steps[1..] ==> step == Advance(u)
  }

  /** A new call of `Do`, by any thread that is free to make it, runs the function again and lets the stranded thread go. */
  lemma DoReleases(n: nat, s: State, t: nat, u: nat) returns (steps: seq<Step>)
    requires Reachable(n, s) && Stuck(s) && t < |s.threads| && s.threads[t] == Waiting
    requires u < |s.threads| && s.threads[u] == Idle
    ensures OneCall(steps, u) && Run(s, steps).Some? && Enabled(Run(s, steps).value, Advance(t))
    ensures Run(s, steps).value.log == s.log + [Started, Completed]
  {
    ReachableInv(n, s);
    StuckIsAtRest(s);
    RestIsFree(s);
    assert !Enabled(s, Advance(t));
    steps := EnterDo(s, u);
    steps := LeaveDo(s, steps, s.(threads := s.threads[u := Checking], mu := Some(u), lock := Some(u)), u);
    assert s.log + [Started] + [Completed] == s.log + [Started, Completed];
  }

  lemma EnterDo(s: State, u: nat) returns (steps: seq<Step>)
    requires u < |s.threads| && s.threads[u] == Idle && !s.done && s.mu == None && s.lock == None
    ensures OneCall(steps, u) && Run(s, steps) == Some(s.(threads := s.threads[u := Checking], mu := Some(u), lock := Some(u)))
  {
    steps := [StartDo(u)];
    assert Run(s, []) == Some(s);
    RunExtend(s, [], StartDo(u));
    assert [] + [StartDo(u)] == steps;
    steps := AdvanceAfter(s, steps, s.(threads := s.threads[u := Loading]), u, s.(threads := s.threads[u := Swapping]));
    var s1 := s.(threads := s.threads[u := Locking], lock := Some(u));
    steps := AdvanceAfter(s, steps, s.(threads := s.threads[u := Swapping]), u, s1);
    steps := AdvanceAfter(s, steps, s1, u, s.(threads := s.threads[u := Checking], mu := Some(u), lock := Some(u)));
  }

  lemma LeaveDo(s: State, steps0: seq<Step>, s0: State, u: nat) returns (steps: seq<Step>)
    requires Run(s, steps0) == Some(s0) && OneCall(steps0, u)
    requires u < |s0.threads| && s0.threads[u] == Checking && !s0.done
    ensures OneCall(steps, u)
    ensures Run(s, steps) == Some(s0.(threads := s0.threads[u := Unlocking], done := true, log := s0.log + [Started] + [Completed]))
  {
    var s1 := s0.(threads := s0.threads[u := Running(Outside)], log := s0.log + [Started]);
    steps := AdvanceAfter(s, steps0, s0, u, s1);
    var s2 := s0.(threads := s0.threads[u := Storing], log := s0.log + [Started] + [Completed]);
    steps := AdvanceAfter(s, steps, s1, u, s2);
    steps := AdvanceAfter(s, steps, s2, u, s2.(threads := s0.threads[u := Unlocking], done := true));
  }

  lemma AdvanceAfter(s: State, steps0: seq<Step>, s0: State, u: nat, to: State) returns (steps: seq<Step>)
    requires Run(s, steps0) == Some(s0) && Enabled(s0, Advance(u)) && Apply(s0, Advance(u)) == to && OneCall(steps0, u)
    ensures Run(s, steps) == Some(to) && OneCall(steps, u)
  {
    steps := steps0 + [Advance(u)];
    RunExtend(s, steps0, Advance(u));
    assert steps[1..] == steps0[1..] + [Advance(u)];
  }

  function Weight(pc: Thread): nat
  {
    match pc
    case Idle => 0
    case Waiting => 1
    case Clearing => 2
    case Unlocking => 3
    case Storing => 4
    case Running(inner) => (match inner case Outside => 5 case InnerSwapping => 6 case InnerLoading => 7 case InnerStranded => 0)
    case Checking => 6
    case Locking => 7
    case Swapping => 8
    case Loading => 9
    case InReset => 1
    case ResetStoring => 2
    case ResetLocking => 3
  }

  function Total(threads: seq<Thread>): nat
  {
    if threads == [] then 0 else Weight(threads[0]) + Total(threads[1..])
  }

  lemma {:induction false} TotalUpdate(threads: seq<Thread>, t: nat, to: Thread)
    requires t < |threads|
    ensures Total(threads[t := to]) + Weight(threads[t]) == Total(threads) + Weight(to)
  {
    if t == 0 {
      assert threads[t := to][1..] == threads[1..];
    } else {
      assert threads[t := to][1..] == threads[1..][t - 1 := to];
      TotalUpdate(threads[1..], t - 1, to);
    }
  }

  function Advances(steps: seq<Step>): nat
  {
    if steps == [] then 0 else (if steps[0].Advance? then 1 else 0) + Advances(steps[1..])
  }

  lemma StepWeight(s: State, step: Step)
    requires Enabled(s, step)
    ensures var w, w1 := Weight(s.threads[step.t]), Weight(Apply(s, step).threads[step.t]);
            if step.Advance? then w1 < w else w1 <= w + 9
  {}

  lemma {:induction false} AdvancesAreBounded(s: State, steps: seq<Step>)
    requires Run(s, steps).Some?
    ensures Advances(steps) + Total(Run(s, steps).value.threads) <= Total(s.threads) + 9 * (|steps| - Advances(steps))
    decreases |steps|
  {
    if steps != [] {
      var s1 := Apply(s, steps[0]);
      var t := steps[0].t;
      assert s1.threads == s.threads[t := s1.threads[t]];
      TotalUpdate(s.threads, t, s1.threads[t]);
      StepWeight(s, steps[0]);
      AdvancesAreBounded(s1, steps[1..]);
    }
  }

  lemma {:induction false} IdleTotal(n: nat)
    ensures Total(Init(n).threads) == 0
  {
    if n > 0 {
      assert Init(n).threads[1..] == Init(n - 1).threads;
      IdleTotal(n - 1);
    }
  }

  /** No interleaving spins: a thread takes at most nine steps for every call that is made. */
  lemma NoLivelock(n: nat, steps: seq<Step>)
    requires Run(Init(n), steps).Some?
    ensures Advances(steps) <= 9 * (|steps| - Advances(steps))
  {
    IdleTotal(n);
    AdvancesAreBounded(Init(n), steps);
  }

  lemma {:induction false} RunExtend(s: State, steps: seq<Step>, step: Step)
    requires Run(s, steps).Some? && Enabled(Run(s, steps).value, step)
    ensures Run(s, steps + [step]) == Some(Apply(Run(s, steps).value, step))
    decreases |steps|
  {
    if steps == [] {
      assert steps + [step] == [step] && [step][1..] == [];
    } else {
      assert (steps + [step])[1..] == steps[1..] + [step];
      RunExtend(Apply(s, steps[0]), steps[1..], step);
    }
  }

  lemma Extend(n: nat, s: State, step: Step)
    requires Reachable(n, s) && Enabled(s, step)
    ensures Reachable(n, Apply(s, step))
  {
    var steps :| Run(Init(n), steps) == Some(s);
    RunExtend(Init(n), steps, step);
  }

  lemma ExtendTo(n: nat, s: State, step: Step, to: State)
    requires Reachable(n, s) && Enabled(s, step) && Apply(s, step) == to
    ensures Reachable(n, to)
  {
    Extend(n, s, step);
  }

  /**
    A hang that does happen: thread 1 calls `Do` while thread 0 runs the function, so it only waits; before it
    looks at `done`, thread 0 finishes and resets. Thread 1 waits although nothing is going on any more.
   */
  lemma ResetStrandsWaiter() returns (s: State)
    ensures Reachable(2, s) && Stuck(s) && |s.threads| == 2 && s.threads[1] == Waiting && s.log == [Started, Completed, Reset]
  {
    var go0, go1 := Advance(0), Advance(1);
    var zero := Some(0);
    s := Init(2);
    assert Run(Init(2), []) == Some(s);
    ExtendTo(2, s, StartDo(0), State([Loading, Idle], None, None, false, []));
    ExtendTo(2, State([Loading, Idle], None, None, false, []), go0, State([Swapping, Idle], None, None, false, []));
    ExtendTo(2, State([Swapping, Idle], None, None, false, []), go0, State([Locking, Idle], None, zero, false, []));
    ExtendTo(2, State([Locking, Idle], None, zero, false, []), go0, State([Checking, Idle], zero, zero, false, []));
    s := State([Running(Outside), Idle], zero, zero, false, [Started]);
    ExtendTo(2, State([Checking, Idle], zero, zero, false, []), go0, s);
    s := FinishWhileWaited(s);
  }

  lemma FinishWhileWaited(s0: State) returns (s: State)
    requires s0 == State([Running(Outside), Idle], Some(0), Some(0), false, [Started]) && Reachable(2, s0)
    ensures Reachable(2, s) && Stuck(s) && |s.threads| == 2 && s.threads[1] == Waiting && s.log == [Started, Completed, Reset]
  {
    ExtendTo(2, s0, StartDo(1), s0.(threads := [Running(Outside), Loading]));
    ExtendTo(2, s0.(threads := [Running(Outside), Loading]), Advance(1), s0.(threads := [Running(Outside), Swapping]));
    ExtendTo(2, s0.(threads := [Running(Outside), Swapping]), Advance(1), s0.(threads := [Running(Outside), Waiting]));
    s := Finish(s0.(threads := [Running(Outside), Waiting]));
    s := LetGo(s);
    s := LockForReset(s);
    s := ResetWhileWaited(s);
  }

  lemma Finish(s0: State) returns (s: State)
    requires s0 == State([Running(Outside), Waiting], Some(0), Some(0), false, [Started]) && Reachable(2, s0)
    ensures s == State([Unlocking, Waiting], Some(0), Some(0), true, [Started, Completed]) && Reachable(2, s)
  {
    var log := [Started, Completed];
    s := State([Storing, Waiting], Some(0), Some(0), false, log);
    ExtendTo(2, s0, Advance(0), s);
    s := State([Unlocking, Waiting], Some(0), Some(0), true, log);
    ExtendTo(2, State([Storing, Waiting], Some(0), Some(0), false, log), Advance(0), s);
  }

  lemma LetGo(s0: State) returns (s: State)
    requires s0 == State([Unlocking, Waiting], Some(0), Some(0), true, [Started, Completed]) && Reachable(2, s0)
    ensures s == State([Idle, Waiting], None, None, true, [Started, Completed]) && Reachable(2, s)
  {
    ExtendTo(2, s0, Advance(0), s0.(threads := [Clearing, Waiting], mu := None));
    s := s0.(threads := [Waiting, Waiting], mu := None, lock := None);
    ExtendTo(2, s0.(threads := [Clearing, Waiting], mu := None), Advance(0), s);
    s := s.(threads := [Idle, Waiting]);
    ExtendTo(2, s.(threads := [Waiting, Waiting]), Advance(0), s);
  }

  lemma LockForReset(s0: State) returns (s: State)
    requires s0 == State([Idle, Waiting], None, None, true, [Started, Completed]) && Reachable(2, s0)
    ensures s == State([ResetStoring, Waiting], Some(0), None, true, [Started, Completed]) && Reachable(2, s)
  {
    ExtendTo(2, s0, StartReset(0), s0.(threads := [ResetLocking, Waiting]));
    s := s0.(threads := [ResetStoring, Waiting], mu := Some(0));
    ExtendTo(2, s0.(threads := [ResetLocking, Waiting]), Advance(0), s);
  }

  lemma ResetWhileWaited(s0: State) returns (s: State)
    requires s0 == State([ResetStoring, Waiting], Some(0), None, true, [Started, Completed]) && Reachable(2, s0)
    ensures Reachable(2, s) && Stuck(s) && |s.threads| == 2 && s.threads[1] == Waiting && s.log == [Started, Completed, Reset]
  {
    var log := [Started, Completed, Reset];
    ExtendTo(2, s0, Advance(0), State([InReset, Waiting], Some(0), None, false, log));
    s := State([Idle, Waiting], None, None, false, log);
    ExtendTo(2, State([InReset, Waiting], Some(0), None, false, log), Advance(0), s);
  }
}
