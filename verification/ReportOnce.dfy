/**
  The report-once part of checkOne in identity/finder.go, when many searches on one Finder run at the same time.
  Each call of checkOne on a find-first provider is an activation of its own; an activation holds no lock while
  it searches, so nested calls are activations like any other.
 */
module ReportOnce {
  import opened Common
  import opened DependencyFinder

  type FindFirst = nat

  /**
    Where a call stands: before its look at the seen set, searching, before the write lock, holding it, past the
    double check, returned. `refused` says that it returned because its identity had been seen.
   */
  datatype Call =
    | Entering(id: FindFirst)
    | Searching(id: FindFirst)
    | Locking(id: FindFirst)
    | Checking(id: FindFirst)
    | Claiming(id: FindFirst)
    | Returned(id: FindFirst, result: FinderResult, refused: bool)

  /** `writer` names the call that holds the write lock on `seen`; `found` records whose search found something to report. */
  datatype State = State(calls: seq<Call>, seen: set<FindFirst>, writer: Option<nat>, found: set<FindFirst>)

  /** `Finish` is the end of the search for what the provider stands for. */
  datatype Step = Enter(c: nat) | Finish(c: nat, result: FinderResult) | Lock(c: nat) | Check(c: nat) | Claim(c: nat)

  function Init(ids: seq<FindFirst>): State
  {
    State(seq(|ids|, i requires 0 <= i < |ids| => Entering(ids[i])), {}, None, {})
  }

  predicate Enabled(s: State, step: Step)
  {
    && step.c < |s.calls|
    && match step
       case Enter(c) => s.calls[c].Entering? && s.writer == None
       case Finish(c, _) => s.calls[c].Searching?
       case Lock(c) => s.calls[c].Locking? && s.writer == None
       case Check(c) => s.calls[c].Checking?
       case Claim(c) => s.calls[c].Claiming?
  }

  function Apply(s: State, step: Step): State
    requires Enabled(s, step)
  {
    var c := step.c;
    var id := s.calls[c].id;
    match step
    case Enter(_) =>
      s.(calls := s.calls[c := if id in s.seen then Returned(id, FOUND_ONE_OF_MANY_REPETITION, true) else Searching(id)])
    case Finish(_, r) =>
      if r > FOUND_ONE_OF_MANY_REPETITION then s.(calls := s.calls[c := Locking(id)], found := s.found + {id})
      else s.(calls := s.calls[c := Returned(id, r, false)])
    case Lock(_) => s.(calls := s.calls[c := Checking(id)], writer := Some(c))
    case Check(_) =>
      if id in s.seen then s.(calls := s.calls[c := Returned(id, FOUND_ONE_OF_MANY_REPETITION, true)], writer := None)
      else s.(calls := s.calls[c := Claiming(id)])
    case Claim(_) =>
      s.(calls := s.calls[c := Returned(id, FOUND_ONE_OF_MANY, false)], writer := None, seen := s.seen + {id})
  }

  function Run(s: State, steps: seq<Step>): Option<State>
    decreases |steps|
  {
    if steps == [] then Some(s)
    else if Enabled(s, steps[0]) then Run(Apply(s, steps[0]), steps[1..])
    else None
  }

  predicate Reports(call: Call, id: FindFirst)
  {
    call.Returned? && call.id == id && call.result == FOUND_ONE_OF_MANY
  }

  function CountReports(calls: seq<Call>, id: FindFirst): nat
  {
    if calls == [] then 0 else (if Reports(calls[0], id) then 1 else 0) + CountReports(calls[1..], id)
  }

  lemma {:induction false} CountUpdate(calls: seq<Call>, c: nat, to: Call, id: FindFirst)
    requires c < |calls|
    ensures CountReports(calls[c := to], id) + (if Reports(calls[c], id) then 1 else 0)
         == CountReports(calls, id) + if Reports(to, id) then 1 else 0
  {
    if c == 0 {
      assert calls[c := to][1..] == calls[1..];
    } else {
      assert calls[c := to][1..] == calls[1..][c - 1 := to];
      CountUpdate(calls[1..], c - 1, to, id);
    }
  }

  predicate HoldsLock(call: Call)
  {
    call.Checking? || call.Claiming?
  }

  ghost predicate CallInv(s: State, c: nat)
    requires c < |s.calls|
  {
    var call := s.calls[c];
    && (s.writer == Some(c) <==> HoldsLock(call))
    && (call.Claiming? ==> call.id !in s.seen)
    && (call.Locking? || HoldsLock(call) ==> call.id in s.found)
    && (call.Returned? ==> call.result <= FOUND_ONE_OF_MANY)
    && (call.Returned? && call.refused ==> call.id in s.seen && call.result == FOUND_ONE_OF_MANY_REPETITION)
  }

  ghost predicate Pending(s: State, id: FindFirst)
  {
    exists c :: 0 <= c < |s.calls| && s.calls[c].id == id && (s.calls[c].Locking? || HoldsLock(s.calls[c]))
  }

  /** The identities in the seen set are exactly those reported, each once; a find is reported or about to be. */
  ghost predicate Inv(s: State)
  {
    && (s.writer.Some? ==> s.writer.value < |s.calls|)
    && (forall c :: 0 <= c < |s.calls| ==> CallInv(s, c))
    && (forall id: FindFirst :: CountReports(s.calls, id) == if id in s.seen then 1 else 0)
    && s.seen <= s.found
    && (forall id :: id in s.found ==> id in s.seen || Pending(s, id))
  }

  lemma StepKeepsCalls(s: State, step: Step)
    requires Inv(s) && Enabled(s, step)
    ensures forall c :: 0 <= c < |s.calls| ==> CallInv(Apply(s, step), c)
  {
    var s1 := Apply(s, step);
    assert CallInv(s, step.c);
    forall c | 0 <= c < |s.calls| ensures CallInv(s1, c) {
      assert CallInv(s, c);
    }
  }

  lemma StepKeepsCounts(s: State, step: Step, id: FindFirst)
    requires Inv(s) && Enabled(s, step)
    ensures var s1 := Apply(s, step); CountReports(s1.calls, id) == if id in s1.seen then 1 else 0
  {
    var s1 := Apply(s, step);
    assert CallInv(s, step.c);
    assert s1.calls == s.calls[step.c := s1.calls[step.c]];
    CountUpdate(s.calls, step.c, s1.calls[step.c], id);
  }

  lemma StepKeepsPending(s: State, step: Step, id: FindFirst)
    requires Inv(s) && Enabled(s, step) && id in Apply(s, step).found
    ensures id in Apply(s, step).seen || Pending(Apply(s, step), id)
  {
    var s1 := Apply(s, step);
    if id in s.found && id !in s.seen {
      var c :| 0 <= c < |s.calls| && s.calls[c].id == id && (s.calls[c].Locking? || HoldsLock(s.calls[c]));
      assert c != step.c ==> s1.calls[c] == s.calls[c];
      assert s1.calls[c].id == id;
    } else {
      assert id !in s.found ==> s1.calls[step.c] == Locking(id);
    }
  }

  lemma {:induction false} RunKeepsInv(s: State, steps: seq<Step>)
    requires Inv(s) && Run(s, steps).Some?
    ensures Inv(Run(s, steps).value)
    decreases |steps|
  {
    if steps != [] {
      StepKeepsCalls(s, steps[0]);
      forall id ensures var s1 := Apply(s, steps[0]); CountReports(s1.calls, id) == if id in s1.seen then 1 else 0 {
        StepKeepsCounts(s, steps[0], id);
      }
      forall id | id in Apply(s, steps[0]).found ensures id in Apply(s, steps[0]).seen || Pending(Apply(s, steps[0]), id) {
        StepKeepsPending(s, steps[0], id);
      }
      assert CallInv(s, steps[0].c);
      RunKeepsInv(Apply(s, steps[0]), steps[1..]);
    }
  }

  lemma {:induction false} NoReportsYet(calls: seq<Call>, id: FindFirst)
    requires forall c :: 0 <= c < |calls| ==> calls[c].Entering?
    ensures CountReports(calls, id) == 0
  {
    if calls != [] {
      NoReportsYet(calls[1..], id);
    }
  }

  lemma ReachedInv(ids: seq<FindFirst>, steps: seq<Step>)
    requires Run(Init(ids), steps).Some?
    ensures Inv(Run(Init(ids), steps).value)
  {
    forall id ensures CountReports(Init(ids).calls, id) == 0 {
      NoReportsYet(Init(ids).calls, id);
    }
    RunKeepsInv(Init(ids), steps);
  }

  /** Over all threads and queries, checkOne reports a find-first identity as found at most once. */
  lemma ReportedAtMostOnce(ids: seq<FindFirst>, steps: seq<Step>, c: nat, d: nat)
    requires Run(Init(ids), steps).Some?
    requires var calls := Run(Init(ids), steps).value.calls;
             c < |calls| && d < |calls| && calls[c].id == calls[d].id && Reports(calls[c], calls[c].id) && Reports(calls[d], calls[c].id)
    ensures c == d
  {
    ReachedInv(ids, steps);
    var calls := Run(Init(ids), steps).value.calls;
    if c < d {
      TwoReports(calls, c, d);
    } else if d < c {
      TwoReports(calls, d, c);
    }
  }

  lemma {:induction false} OneReport(calls: seq<Call>, c: nat, id: FindFirst)
    requires c < |calls| && Reports(calls[c], id)
    ensures CountReports(calls, id) >= 1
  {
    if c > 0 {
      OneReport(calls[1..], c - 1, id);
    }
  }

  lemma {:induction false} TwoReports(calls: seq<Call>, c: nat, d: nat)
    requires c < d < |calls| && Reports(calls[c], calls[c].id) && Reports(calls[d], calls[c].id)
    ensures CountReports(calls, calls[c].id) >= 2
  {
    if c == 0 {
      OneReport(calls[1..], d - 1, calls[0].id);
    } else {
      TwoReports(calls[1..], c - 1, d - 1);
    }
  }

  lemma {:induction false} SomeReport(calls: seq<Call>, id: FindFirst) returns (c: nat)
    requires CountReports(calls, id) > 0
    ensures c < |calls| && Reports(calls[c], id)
  {
    if Reports(calls[0], id) {
      c := 0;
    } else {
      var d := SomeReport(calls[1..], id);
      c := d + 1;
    }
  }

  /**
    No report is lost either: once all calls have returned, an identity was reported exactly if the search of
    some call for it found something, and every call turned away as a repetition has such a report beside it.
   */
  lemma FindsAreReported(ids: seq<FindFirst>, steps: seq<Step>, id: FindFirst)
    requires Run(Init(ids), steps).Some?
    requires forall call :: call in Run(Init(ids), steps).value.calls ==> call.Returned?
    ensures var s := Run(Init(ids), steps).value;
            && (id in s.found <==> exists call :: call in s.calls && Reports(call, id))
            && (forall call :: call in s.calls && call.id == id && call.refused ==>
                  id in s.found && call.result == FOUND_ONE_OF_MANY_REPETITION)
  {
    ReachedInv(ids, steps);
    var s := Run(Init(ids), steps).value;
    forall call | call in s.calls ensures (Reports(call, id) ==> id in s.found) && (call.id == id && call.refused ==> id in s.found && call.result == FOUND_ONE_OF_MANY_REPETITION) {
      var c :| 0 <= c < |s.calls| && s.calls[c] == call;
      assert CallInv(s, c);
      if Reports(call, id) {
        OneReport(s.calls, c, id);
      }
    }
    if id in s.found {
      forall c | 0 <= c < |s.calls| ensures s.calls[c].Returned? {
        assert s.calls[c] in s.calls;
      }
      assert id in s.seen || Pending(s, id);
      var c := SomeReport(s.calls, id);
      assert s.calls[c] in s.calls;
    }
  }

  /** While a call has not returned, some call can go on: nobody waits for the lock for ever. */
  lemma SomeCallGoesOn(ids: seq<FindFirst>, steps: seq<Step>, c: nat) returns (step: Step)
    requires Run(Init(ids), steps).Some?
    requires c < |Run(Init(ids), steps).value.calls| && !Run(Init(ids), steps).value.calls[c].Returned?
    ensures Enabled(Run(Init(ids), steps).value, step)
  {
    ReachedInv(ids, steps);
    var s := Run(Init(ids), steps).value;
    assert CallInv(s, c);
    if s.writer.Some? {
      var d := s.writer.value;
      assert CallInv(s, d);
      step := if s.calls[d].Checking? then Check(d) else Claim(d);
    } else {
      step := if s.calls[c].Entering? then Enter(c) else if s.calls[c].Searching? then Finish(c, NOT_FOUND) else Lock(c);
    }
  }

  function StepsLeft(call: Call): nat
  {
    match call
    case Entering(_) => 5
    case Searching(_) => 4
    case Locking(_) => 3
    case Checking(_) => 2
    case Claiming(_) => 1
    case Returned(_, _, _) => 0
  }

  function AllStepsLeft(calls: seq<Call>): nat
  {
    if calls == [] then 0 else StepsLeft(calls[0]) + AllStepsLeft(calls[1..])
  }

  lemma {:induction false} StepsLeftUpdate(calls: seq<Call>, c: nat, to: Call)
    requires c < |calls|
    ensures AllStepsLeft(calls[c := to]) + StepsLeft(calls[c]) == AllStepsLeft(calls) + StepsLeft(to)
  {
    if c == 0 {
      assert calls[c := to][1..] == calls[1..];
    } else {
      assert calls[c := to][1..] == calls[1..][c - 1 := to];
      StepsLeftUpdate(calls[1..], c - 1, to);
    }
  }

  lemma {:induction false} RunIsBounded(s: State, steps: seq<Step>)
    requires Run(s, steps).Some?
    ensures |steps| <= AllStepsLeft(s.calls)
    decreases |steps|
  {
    if steps != [] {
      var s1, c := Apply(s, steps[0]), steps[0].c;
      assert s1.calls == s.calls[c := s1.calls[c]];
      StepsLeftUpdate(s.calls, c, s1.calls[c]);
      RunIsBounded(s1, steps[1..]);
    }
  }

  lemma {:induction false} EnteringStepsLeft(calls: seq<Call>)
    requires forall call :: call in calls ==> call.Entering?
    ensures AllStepsLeft(calls) == 5 * |calls|
  {
    if calls != [] {
      EnteringStepsLeft(calls[1..]);
    }
  }

  /** And every call returns after at most five steps of its own, in any interleaving. */
  lemma CallsEnd(ids: seq<FindFirst>, steps: seq<Step>)
    requires Run(Init(ids), steps).Some?
    ensures |steps| <= 5 * |ids|
  {
    RunIsBounded(Init(ids), steps);
    EnteringStepsLeft(Init(ids).calls);
  }
}
