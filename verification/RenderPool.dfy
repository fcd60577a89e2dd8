/**
  The concurrent render pool of hugolib/site_render.go and hugolib/site.go: the page walk, a bounded queue of
  pages, the workers, a wait group, an unbuffered channel of errors and the collator that reads it.
  Every interleaving is a sequence of atomic steps.
 */
module RenderPool {
  import opened Common

  /** `inFile` says that the error carries a file context. */
  datatype Error = Error(message: nat, inFile: bool)

  datatype Template = Missing | Found | Failed(error: Error)

  /** What a page renderer meets while it works on one page. */
  datatype Page = Page(
    standalone: bool,
    standaloneWanted: bool,
    publishResources: bool,
    resources: Option<Error>,
    render: bool,
    template: Template,
    body: Option<Error>,
    paginator: Option<Option<Error>>)

  function Listed(e: Option<Error>): seq<Error>
  {
    match e case None => [] case Some(error) => [error]
  }

  /** The errors that rendering `p` sends to the collator, in order. */
  function Errors(p: Page): seq<Error>
  {
    if p.standalone && !p.standaloneWanted then []
    else if p.publishResources && p.resources.Some? then []
    else if !p.render || !p.template.Found? then []
    else Listed(p.body) + (if p.paginator.Some? then Listed(p.paginator.value) else [])
  }

  function AllErrors(ps: seq<Page>): seq<Error>
  {
    if ps == [] then [] else AllErrors(ps[..|ps| - 1]) + Errors(ps[|ps| - 1])
  }

  /** The error reported for all that were collected: the first with a file context, else the first. */
  function PickOne(errors: seq<Error>): Option<Error>
  {
    if errors == [] then None else Some(FirstInFile(errors, errors[0]))
  }

  function FirstInFile(errors: seq<Error>, default: Error): Error
  {
    if errors == [] then default else if errors[0].inFile then errors[0] else FirstInFile(errors[1..], default)
  }

  /** The error reported is the first with a file context; when none has one, the first of all. */
  lemma {:induction false} FirstInFileIsFirst(errors: seq<Error>, default: Error) returns (i: nat)
    ensures i <= |errors| && forall j :: 0 <= j < i ==> !errors[j].inFile
    ensures if i < |errors| then FirstInFile(errors, default) == errors[i] && errors[i].inFile else FirstInFile(errors, default) == default
  {
    if errors == [] || errors[0].inFile {
      i := 0;
    } else {
      var k := FirstInFileIsFirst(errors[1..], default);
      i := k + 1;
    }
  }

  /** The first error with a file context is at `i`; or there is none, and `i` is 0. */
  ghost predicate IsFirstInFile(errors: seq<Error>, i: nat)
  {
    && i < |errors| && (forall j :: 0 <= j < i ==> !errors[j].inFile)
    && (errors[i].inFile || (i == 0 && forall j :: 0 <= j < |errors| ==> !errors[j].inFile))
  }

  lemma PickOneIsFirst(errors: seq<Error>) returns (i: nat)
    requires errors != []
    ensures IsFirstInFile(errors, i) && PickOne(errors) == Some(errors[i])
  {
    i := FirstInFileIsFirst(errors, errors[0]);
    if i == |errors| {
      i := 0;
    }
  }

  /** The error to return; the others are logged, up to a threshold. */
  method PickOneAndLogTheRest(errors: seq<Error>) returns (picked: Option<Error>)
    ensures picked == PickOne(errors)
  {
    if |errors| == 0 { return None; }
    var i := 0;
    for j := 0 to |errors|
      invariant i == 0 && forall k :: 0 <= k < j ==> !errors[k].inFile
    {
      if errors[j].inFile {
        i := j;
        break;
      }
    }
    ghost var first := PickOneIsFirst(errors);
    assert first == i;
    return Some(errors[i]);
  }

  /** Whether a page gets as far as being rendered: its resources and its template are there. */
  predicate Rendered(p: Page)
  {
    && !(p.standalone && !p.standaloneWanted)
    && !(p.publishResources && p.resources.Some?)
    && p.render && p.template.Found?
  }

  /** Rendering the page itself or its paginator fails. */
  predicate RenderFails(p: Page)
  {
    Rendered(p) && (p.body.Some? || (p.paginator.Some? && p.paginator.value.Some?))
  }

  /** How often a page fails with `e`: in its own rendering and in that of its paginator, which is tried all the same. */
  function Failures(p: Page, e: Error): nat
  {
    if !Rendered(p) then 0
    else (if p.body == Some(e) then 1 else 0) + (if p.paginator == Some(Some(e)) then 1 else 0)
  }

  function AllFailures(ps: seq<Page>, e: Error): nat
  {
    if ps == [] then 0 else AllFailures(ps[..|ps| - 1], e) + Failures(ps[|ps| - 1], e)
  }

  lemma PageFailures(p: Page, e: Error)
    ensures multiset(Errors(p))[e] == Failures(p, e)
  {
    var paginator := if p.paginator.Some? then Listed(p.paginator.value) else [];
    assert multiset(Listed(p.body) + paginator) == multiset(Listed(p.body)) + multiset(paginator);
  }

  /** Who sends nothing: standalone pages that another site renders, pages without output, and those that fail before they are rendered. */
  lemma SilentPages(p: Page)
    ensures (p.standalone && !p.standaloneWanted) || !p.render ==> Errors(p) == []
    ensures (p.publishResources && p.resources.Some?) || p.template.Failed? || p.template.Missing? ==> Errors(p) == []
    ensures !p.standalone && !p.publishResources && p.render && p.template.Found? && p.body.Some? ==> p.body.value in Errors(p)
    ensures p.standalone && p.standaloneWanted && p.resources.None? && p.render && p.template.Found? && p.body.Some? ==> p.body.value in Errors(p)
  {
  }

  lemma {:induction false} FailuresAreErrors(ps: seq<Page>, e: Error)
    ensures multiset(AllErrors(ps))[e] == AllFailures(ps, e)
    decreases |ps|
  {
    if ps != [] {
      var before, errors := AllErrors(ps[..|ps| - 1]), Errors(ps[|ps| - 1]);
      FailuresAreErrors(ps[..|ps| - 1], e);
      PageFailures(ps[|ps| - 1], e);
      assert multiset(before + errors) == multiset(before) + multiset(errors);
    }
  }

  datatype Worker = Idle | Rendering(left: seq<Error>) | Finished

  /** The goroutine of the build: walking the pages, waiting for the group, waiting for the result, done. */
  datatype Main = Walking | Waiting | Receiving | Returned(result: Option<Error>) | WalkFailed

  datatype Collator = Collecting | Offering | Closed

  datatype Taken = Taken(worker: nat, page: Page)

  /**
    `rest` are the pages still to walk, `dropped` those given up on when the build is cancelled, `queue` the
    buffer of the page channel; `sent`, `taken` and `collected` record what went through the channels.
    `panicked` says that a send on a closed channel, a second close or a negative wait group has happened.
   */
  datatype State = State(
    rest: seq<Page>,
    dropped: seq<Page>,
    queue: seq<Page>,
    workers: seq<Worker>,
    main: Main,
    collator: Collator,
    pagesClosed: bool,
    resultsClosed: bool,
    wg: nat,
    sent: seq<Page>,
    taken: seq<Taken>,
    collected: seq<Error>,
    panicked: bool)

  datatype Step =
    | Put | Cancel | FailWalk | ClosePages | CloseResults | Receive
    | Take(worker: nat) | Send(worker: nat) | Next(worker: nat) | Quit(worker: nat)
    | Drain

  function Init(pages: seq<Page>, numWorkers: nat): State
  {
    State(pages, [], [], seq(numWorkers, i => Idle), Walking, Collecting, false, false, numWorkers, [], [], [], false)
  }

  /** Whether the step can be taken; a send on a closed channel can, and panics. */
  predicate Enabled(s: State, step: Step)
  {
    match step
    case Put => s.main == Walking && s.rest != [] && (s.pagesClosed || |s.queue| < |s.workers|)
    case Cancel => s.main == Walking && s.rest != []
    case FailWalk => s.main == Walking
    case ClosePages => s.main == Walking && s.rest == []
    case CloseResults => s.main == Waiting && s.wg == 0
    case Receive => s.main == Receiving && s.collator == Offering
    case Take(w) => w < |s.workers| && s.workers[w] == Idle && s.queue != []
    case Send(w) => && w < |s.workers| && s.workers[w].Rendering? && s.workers[w].left != []
                    && (s.resultsClosed || s.collator == Collecting)
    case Next(w) => w < |s.workers| && s.workers[w] == Rendering([])
    case Quit(w) => w < |s.workers| && s.workers[w] == Idle && s.queue == [] && s.pagesClosed
    case Drain => s.collator == Collecting && s.resultsClosed
  }

  function Apply(s: State, step: Step): State
    requires Enabled(s, step)
  {
    match step
    case Put =>
      if s.pagesClosed then s.(panicked := true)
      else s.(rest := s.rest[1..], queue := s.queue + [s.rest[0]], sent := s.sent + [s.rest[0]])
    case Cancel => s.(rest := [], dropped := s.rest)
    case FailWalk => s.(main := WalkFailed)
    case ClosePages => if s.pagesClosed then s.(panicked := true) else s.(main := Waiting, pagesClosed := true)
    case CloseResults => if s.resultsClosed then s.(panicked := true) else s.(main := Receiving, resultsClosed := true)
    case Receive => s.(main := Returned(PickOne(s.collected)), collator := Closed)
    case Take(w) =>
      s.(workers := s.workers[w := Rendering(Errors(s.queue[0]))], queue := s.queue[1..],
         taken := s.taken + [Taken(w, s.queue[0])])
    case Send(w) =>
      if s.resultsClosed then s.(panicked := true)
      else s.(workers := s.workers[w := Rendering(s.workers[w].left[1..])], collected := s.collected + [s.workers[w].left[0]])
    case Next(w) => s.(workers := s.workers[w := Idle])
    case Quit(w) =>
      if s.wg == 0 then s.(panicked := true)
      else s.(workers := s.workers[w := Finished], wg := s.wg - 1)
    case Drain => s.(collator := Offering)
  }

  /** The state after the steps, if each was enabled when it was taken. */
  function Run(s: State, steps: seq<Step>): Option<State>
    decreases |steps|
  {
    if steps == [] then Some(s)
    else if Enabled(s, steps[0]) then Run(Apply(s, steps[0]), steps[1..])
    else None
  }

  function Pages(taken: seq<Taken>): seq<Page>
  {
    seq(|taken|, i requires 0 <= i < |taken| => taken[i].page)
  }

  function Held(w: Worker): multiset<Error>
  {
    if w.Rendering? then multiset(w.left) else multiset{}
  }

  /** The errors that workers hold and have not sent yet. */
  function Unsent(workers: seq<Worker>): multiset<Error>
  {
    if workers == [] then multiset{} else Held(workers[0]) + Unsent(workers[1..])
  }

  function Running(workers: seq<Worker>): nat
  {
    if workers == [] then 0 else (if workers[0] == Finished then 0 else 1) + Running(workers[1..])
  }

  predicate AllFinished(workers: seq<Worker>)
  {
    forall w :: 0 <= w < |workers| ==> workers[w] == Finished
  }

  lemma AddToBoth<T>(h: multiset<T>, a: multiset<T>, b: multiset<T>, c: multiset<T>, d: multiset<T>)
    requires a + b == c + d
    ensures h + a + b == h + c + d
  {
    assert h + a + b == h + (a + b);
    assert h + c + d == h + (c + d);
  }

  lemma {:induction false} UnsentUpdate(workers: seq<Worker>, w: nat, to: Worker)
    requires w < |workers|
    ensures Unsent(workers[w := to]) + Held(workers[w]) == Unsent(workers) + Held(to)
  {
    if w == 0 {
      assert workers[w := to][1..] == workers[1..];
    } else {
      assert workers[w := to][1..] == workers[1..][w - 1 := to];
      UnsentUpdate(workers[1..], w - 1, to);
      assert workers[1..][w - 1] == workers[w];
      AddToBoth(Held(workers[0]), Unsent(workers[1..][w - 1 := to]), Held(workers[w]), Unsent(workers[1..]), Held(to));
    }
  }

  lemma {:induction false} RunningUpdate(workers: seq<Worker>, w: nat, to: Worker)
    requires w < |workers|
    ensures Running(workers[w := to]) + (if workers[w] == Finished then 0 else 1)
         == Running(workers) + (if to == Finished then 0 else 1)
  {
    if w == 0 {
      assert workers[w := to][1..] == workers[1..];
    } else {
      assert workers[w := to][1..] == workers[1..][w - 1 := to];
      RunningUpdate(workers[1..], w - 1, to);
    }
  }

  lemma {:induction false} NoneRunning(workers: seq<Worker>)
    ensures Running(workers) == 0 <==> AllFinished(workers)
    ensures AllFinished(workers) ==> Unsent(workers) == multiset{}
  {
    if workers != [] {
      NoneRunning(workers[1..]);
      assert workers == [workers[0]] + workers[1..];
      assert AllFinished(workers) <==> workers[0] == Finished && AllFinished(workers[1..]);
    }
  }

  /** Who has closed what, and who waits for whom. */
  ghost predicate InControl(s: State)
  {
    && !s.panicked
    && (s.pagesClosed <==> s.main in {Waiting, Receiving} || s.main.Returned?)
    && (s.resultsClosed <==> s.main == Receiving || s.main.Returned?)
    && (s.collator != Collecting ==> s.resultsClosed)
    && (s.collator == Closed <==> s.main.Returned?)
    && (s.pagesClosed ==> s.rest == [])
    && (s.resultsClosed ==> AllFinished(s.workers))
    && (forall w :: 0 <= w < |s.workers| && s.workers[w] == Finished ==> s.pagesClosed && s.queue == [])
    && s.wg == Running(s.workers)
    && (s.main.Returned? ==> s.main.result == PickOne(s.collected))
  }

  /** Nothing is lost and nothing is doubled: pages leave the queue in the order in which they were put. */
  ghost predicate Conserved(s: State, pages: seq<Page>)
  {
    && s.sent + s.rest + s.dropped == pages
    && (s.rest == [] || s.dropped == [])
    && s.sent == Pages(s.taken) + s.queue
    && |s.queue| <= |s.workers|
    && (forall t :: t in s.taken ==> t.worker < |s.workers|)
  }

  /** The errors of the pages taken so far have been collected or are still held by a worker. */
  ghost predicate ErrorsConserved(s: State)
  {
    multiset(AllErrors(Pages(s.taken))) == multiset(s.collected) + Unsent(s.workers)
  }

  ghost predicate Inv(s: State, pages: seq<Page>, numWorkers: nat)
  {
    InControl(s) && Conserved(s, pages) && ErrorsConserved(s) && |s.workers| == numWorkers
  }

  lemma {:induction false} IdleWorkers(n: nat)
    ensures Unsent(seq(n, i => Idle)) == multiset{} && Running(seq(n, i => Idle)) == n
  {
    if n > 0 {
      assert seq(n, i => Idle)[1..] == seq(n - 1, i => Idle);
      IdleWorkers(n - 1);
    }
  }

  lemma InitInv(pages: seq<Page>, numWorkers: nat)
    ensures Inv(Init(pages, numWorkers), pages, numWorkers)
  {
    IdleWorkers(numWorkers);
    var s := Init(pages, numWorkers);
    NoneRunning(s.workers);
    assert s.sent + s.rest + s.dropped == pages;
  }

  lemma StepKeepsControl(s: State, step: Step)
    requires InControl(s) && Enabled(s, step)
    ensures InControl(Apply(s, step))
  {
    NoneRunning(s.workers);
    match step
    case Take(w) => RunningUpdate(s.workers, w, Rendering(Errors(s.queue[0])));
    case Send(w) => RunningUpdate(s.workers, w, Rendering(s.workers[w].left[1..]));
    case Next(w) => RunningUpdate(s.workers, w, Idle);
    case Quit(w) => RunningUpdate(s.workers, w, Finished);
    case _ =>
  }

  lemma PagesAppend(taken: seq<Taken>, t: Taken)
    ensures Pages(taken + [t]) == Pages(taken) + [t.page]
  {}

  lemma AllErrorsAppend(ps: seq<Page>, p: Page)
    ensures AllErrors(ps + [p]) == AllErrors(ps) + Errors(p)
  {
    assert (ps + [p])[..|ps|] == ps;
  }

  lemma TakeKeepsConserved(s: State, pages: seq<Page>, w: nat)
    requires Conserved(s, pages) && Enabled(s, Take(w))
    ensures Conserved(Apply(s, Take(w)), pages)
  {
    var s1 := Apply(s, Take(w));
    var p := s.queue[0];
    PagesAppend(s.taken, Taken(w, p));
    assert s.queue == [p] + s1.queue;
    Assoc(Pages(s.taken), [p], s1.queue);
  }

  lemma PutKeepsConserved(s: State, pages: seq<Page>)
    requires InControl(s) && Conserved(s, pages) && Enabled(s, Put)
    ensures Conserved(Apply(s, Put), pages)
  {
    var p := s.rest[0];
    assert s.rest == [p] + s.rest[1..];
    Assoc(s.sent, [p], s.rest[1..]);
    Assoc(Pages(s.taken), s.queue, [p]);
  }

  lemma StepKeepsConserved(s: State, pages: seq<Page>, step: Step)
    requires InControl(s) && Conserved(s, pages) && Enabled(s, step)
    ensures Conserved(Apply(s, step), pages)
  {
    match step
    case Take(w) => TakeKeepsConserved(s, pages, w);
    case Put => PutKeepsConserved(s, pages);
    case Cancel => assert s.sent + s.rest + s.dropped == s.sent + [] + s.rest;
    case _ =>
  }

  lemma TakeBalance<T>(all: multiset<T>, collected: multiset<T>, unsent: multiset<T>, unsent1: multiset<T>, new_: multiset<T>)
    requires all == collected + unsent && unsent1 + multiset{} == unsent + new_
    ensures all + new_ == collected + unsent1
  {
    assert unsent1 == unsent1 + multiset{};
    assert collected + unsent + new_ == collected + (unsent + new_);
  }

  lemma SendBalance<T>(all: multiset<T>, collected: multiset<T>, unsent: multiset<T>, unsent1: multiset<T>,
                       x: T, left: multiset<T>)
    requires all == collected + unsent && unsent1 + (multiset{x} + left) == unsent + left
    ensures all == (collected + multiset{x}) + unsent1
  {
    assert unsent1 + multiset{x} == unsent by {
      forall y ensures (unsent1 + multiset{x})[y] == unsent[y] {
        assert (unsent1 + (multiset{x} + left))[y] == (unsent + left)[y];
      }
    }
  }

  lemma TakeKeepsErrors(s: State, w: nat)
    requires ErrorsConserved(s) && Enabled(s, Take(w))
    ensures ErrorsConserved(Apply(s, Take(w)))
  {
    var p := s.queue[0];
    var errors, all := Errors(p), AllErrors(Pages(s.taken));
    var workers1 := s.workers[w := Rendering(errors)];
    UnsentUpdate(s.workers, w, Rendering(errors));
    TakeBalance(multiset(all), multiset(s.collected), Unsent(s.workers), Unsent(workers1), multiset(errors));
    PagesAppend(s.taken, Taken(w, p));
    AllErrorsAppend(Pages(s.taken), p);
    assert multiset(all + errors) == multiset(all) + multiset(errors);
  }

  lemma HeadAndTail<T>(left: seq<T>)
    requires left != []
    ensures multiset(left) == multiset{left[0]} + multiset(left[1..])
  {
    assert left == [left[0]] + left[1..];
  }

  lemma SendKeepsUnsent(workers: seq<Worker>, w: nat)
    requires w < |workers| && workers[w].Rendering? && workers[w].left != []
    ensures var left := workers[w].left;
            Unsent(workers[w := Rendering(left[1..])]) + (multiset{left[0]} + multiset(left[1..]))
            == Unsent(workers) + multiset(left[1..])
  {
    var left := workers[w].left;
    UnsentUpdate(workers, w, Rendering(left[1..]));
    HeadAndTail(left);
  }

  lemma SendKeepsErrors(s: State, w: nat)
    requires ErrorsConserved(s) && Enabled(s, Send(w)) && !s.resultsClosed
    ensures ErrorsConserved(Apply(s, Send(w)))
  {
    var left, all := s.workers[w].left, AllErrors(Pages(s.taken));
    var workers1 := s.workers[w := Rendering(left[1..])];
    SendKeepsUnsent(s.workers, w);
    SendBalance(multiset(all), multiset(s.collected), Unsent(s.workers), Unsent(workers1), left[0], multiset(left[1..]));
    assert multiset(s.collected + [left[0]]) == multiset(s.collected) + multiset{left[0]};
  }

  lemma FreeKeepsErrors(s: State, w: nat, to: Worker)
    requires ErrorsConserved(s) && w < |s.workers| && Held(s.workers[w]) == Held(to) == multiset{}
    ensures ErrorsConserved(s.(workers := s.workers[w := to]))
  {
    UnsentUpdate(s.workers, w, to);
    assert Unsent(s.workers[w := to]) + multiset{} == Unsent(s.workers[w := to]);
    assert Unsent(s.workers) + multiset{} == Unsent(s.workers);
  }

  lemma StepKeepsErrors(s: State, step: Step)
    requires InControl(s) && ErrorsConserved(s) && Enabled(s, step)
    ensures ErrorsConserved(Apply(s, step))
  {
    match step
    case Take(w) => TakeKeepsErrors(s, w);
    case Send(w) => if !s.resultsClosed { SendKeepsErrors(s, w); }
    case Next(w) => FreeKeepsErrors(s, w, Idle);
    case Quit(w) => FreeKeepsErrors(s, w, Finished);
    case _ =>
  }

  lemma {:induction false} RunKeepsInv(s: State, steps: seq<Step>, pages: seq<Page>, numWorkers: nat)
    requires Inv(s, pages, numWorkers) && Run(s, steps).Some?
    ensures Inv(Run(s, steps).value, pages, numWorkers)
    decreases |steps|
  {
    if steps != [] {
      StepKeepsControl(s, steps[0]);
      StepKeepsConserved(s, pages, steps[0]);
      StepKeepsErrors(s, steps[0]);
      RunKeepsInv(Apply(s, steps[0]), steps[1..], pages, numWorkers);
    }
  }

  /** In every interleaving: nothing panics, and every page and every error goes through its channel exactly once. */
  lemma NothingLostOrDoubled(pages: seq<Page>, numWorkers: nat, steps: seq<Step>)
    requires Run(Init(pages, numWorkers), steps).Some?
    ensures var s := Run(Init(pages, numWorkers), steps).value;
            && !s.panicked
            && |s.queue| <= numWorkers
            && Pages(s.taken) + s.queue + s.rest + s.dropped == pages
            && multiset(AllErrors(Pages(s.taken))) == multiset(s.collected) + Unsent(s.workers)
  {
    InitInv(pages, numWorkers);
    RunKeepsInv(Init(pages, numWorkers), steps, pages, numWorkers);
  }

  /**
    When the build goroutine returns, all workers have finished and the errors collected are those of the pages
    sent, each as often as a page failed with it; the result is the first of them with a file context, else the first.
    Without cancellation the pages are all pages, in order, and the result is nil only if none had an error.
   */
  lemma ReturnsAfterAllWork(pages: seq<Page>, numWorkers: nat, steps: seq<Step>)
    requires numWorkers > 0 && Run(Init(pages, numWorkers), steps).Some?
    requires Run(Init(pages, numWorkers), steps).value.main.Returned?
    ensures var s := Run(Init(pages, numWorkers), steps).value;
            && AllFinished(s.workers)
            && s.main.result == PickOne(s.collected)
            && (match s.main.result
                case None => s.collected == []
                case Some(e) => exists i: nat :: IsFirstInFile(s.collected, i) && s.collected[i] == e)
            && multiset(s.collected) == multiset(AllErrors(Pages(s.taken)))
            && (forall e :: multiset(s.collected)[e] == AllFailures(s.sent, e))
            && Pages(s.taken) == s.sent && s.sent + s.dropped == pages
            && (s.dropped == [] ==> Pages(s.taken) == pages && (s.main.result == None <==> AllErrors(pages) == []))
  {
    InitInv(pages, numWorkers);
    RunKeepsInv(Init(pages, numWorkers), steps, pages, numWorkers);
    var s := Run(Init(pages, numWorkers), steps).value;
    NoneRunning(s.workers);
    assert s.workers[0] == Finished;
    assert s.sent == Pages(s.taken);
    assert |multiset(s.collected)| == |s.collected| && |multiset(AllErrors(s.sent))| == |AllErrors(s.sent)|;
    if s.collected != [] {
      var i := PickOneIsFirst(s.collected);
    }
    forall e ensures multiset(s.collected)[e] == AllFailures(s.sent, e) {
      FailuresAreErrors(s.sent, e);
    }
  }

  lemma {:induction false} AllErrorsEmpty(ps: seq<Page>)
    ensures AllErrors(ps) == [] <==> forall p :: p in ps ==> !RenderFails(p)
    decreases |ps|
  {
    if ps != [] {
      var before, p := ps[..|ps| - 1], ps[|ps| - 1];
      AllErrorsEmpty(before);
      assert ps == before + [p];
      assert Errors(p) == [] <==> !RenderFails(p);
    }
  }

  /**
    What the result shows: in a run that is not cancelled it is nil if and only if no page that got as far as being
    rendered failed there. Pages whose resources or template fail do not count.
   */
  lemma ResultShowsRenderErrors(pages: seq<Page>, numWorkers: nat, steps: seq<Step>)
    requires numWorkers > 0 && Run(Init(pages, numWorkers), steps).Some?
    requires var s := Run(Init(pages, numWorkers), steps).value; s.main.Returned? && s.dropped == []
    ensures Run(Init(pages, numWorkers), steps).value.main.result == None <==> forall p :: p in pages ==> !RenderFails(p)
    ensures (forall p :: p in pages ==> p.template.Failed? || (p.publishResources && p.resources.Some?))
        ==> Run(Init(pages, numWorkers), steps).value.main.result == None
  {
    ReturnsAfterAllWork(pages, numWorkers, steps);
    AllErrorsEmpty(pages);
  }

  /** The build goroutine has returned and the collator has nothing left to do. */
  predicate Final(s: State)
  {
    s.main.Returned?
  }

  lemma {:induction false} SomeRunning(workers: seq<Worker>) returns (w: nat)
    requires !AllFinished(workers)
    ensures w < |workers| && workers[w] != Finished
  {
    if workers[0] != Finished {
      w := 0;
    } else {
      assert workers == [workers[0]] + workers[1..];
      var v := SomeRunning(workers[1..]);
      w := v + 1;
    }
  }

  /** The callback of the page walk returns no error, and the walk has none of its own. */
  lemma {:induction false} WalkDoesNotFail(s: State, steps: seq<Step>)
    requires Run(s, steps).Some? && s.main != WalkFailed && FailWalk !in steps
    ensures Run(s, steps).value.main != WalkFailed
    decreases |steps|
  {
    if steps != [] {
      WalkDoesNotFail(Apply(s, steps[0]), steps[1..]);
    }
  }

  /** No deadlock: with at least one worker, some step of the pool itself can be taken until the build goroutine has returned. */
  lemma Progress(pages: seq<Page>, numWorkers: nat, steps: seq<Step>) returns (step: Step)
    requires numWorkers > 0 && FailWalk !in steps && Run(Init(pages, numWorkers), steps).Some?
    requires !Final(Run(Init(pages, numWorkers), steps).value)
    ensures step != Cancel && step != FailWalk
    ensures Enabled(Run(Init(pages, numWorkers), steps).value, step)
  {
    InitInv(pages, numWorkers);
    RunKeepsInv(Init(pages, numWorkers), steps, pages, numWorkers);
    WalkDoesNotFail(Init(pages, numWorkers), steps);
    var s := Run(Init(pages, numWorkers), steps).value;
    NoneRunning(s.workers);
    if s.main == Walking {
      if s.rest == [] {
        step := ClosePages;
      } else {
        step := WalkProgress(s);
      }
    } else if s.main == Waiting {
      if AllFinished(s.workers) {
        step := CloseResults;
      } else {
        step := WorkerProgress(s);
      }
    } else {
      step := if s.collator == Offering then Receive else Drain;
    }
  }

  /** While pages are left, the walk can go on or a worker can. */
  lemma WalkProgress(s: State) returns (step: Step)
    requires InControl(s) && s.main == Walking && s.rest != [] && |s.workers| > 0
    ensures step != Cancel && step != FailWalk && Enabled(s, step)
  {
    if |s.queue| < |s.workers| {
      step := Put;
    } else {
      var w := s.workers[0];
      assert w != Finished;
      step := if w == Idle then Take(0) else if w.left == [] then Next(0) else Send(0);
    }
  }

  lemma WorkerProgress(s: State) returns (step: Step)
    requires InControl(s) && s.main == Waiting && !AllFinished(s.workers)
    ensures step != Cancel && step != FailWalk && Enabled(s, step)
  {
    var w := SomeRunning(s.workers);
    step := if s.workers[w] == Idle then (if s.queue == [] then Quit(w) else Take(w))
            else if s.workers[w].left == [] then Next(w) else Send(w);
  }

  function QueueWeight(ps: seq<Page>, each: nat): nat
  {
    if ps == [] then 0 else each + |Errors(ps[0])| + QueueWeight(ps[1..], each)
  }

  function WorkerWeight(w: Worker): nat
  {
    match w case Idle => 1 case Rendering(left) => 2 + |left| case Finished => 0
  }

  function WorkersWeight(workers: seq<Worker>): nat
  {
    if workers == [] then 0 else WorkerWeight(workers[0]) + WorkersWeight(workers[1..])
  }

  /** What is left to do: every step uses up some of it. */
  function Measure(s: State): nat
  {
    QueueWeight(s.rest, 3) + QueueWeight(s.queue, 2) + WorkersWeight(s.workers)
    + (match s.main case Walking => 3 case Waiting => 2 case Receiving => 1 case _ => 0)
    + (match s.collator case Collecting => 2 case Offering => 1 case Closed => 0)
  }

  lemma {:induction false} WorkersWeightUpdate(workers: seq<Worker>, w: nat, to: Worker)
    requires w < |workers|
    ensures WorkersWeight(workers[w := to]) + WorkerWeight(workers[w]) == WorkersWeight(workers) + WorkerWeight(to)
  {
    if w == 0 {
      assert workers[w := to][1..] == workers[1..];
    } else {
      assert workers[w := to][1..] == workers[1..][w - 1 := to];
      WorkersWeightUpdate(workers[1..], w - 1, to);
    }
  }

  lemma {:induction false} QueueWeightAppend(ps: seq<Page>, p: Page, each: nat)
    ensures QueueWeight(ps + [p], each) == QueueWeight(ps, each) + each + |Errors(p)|
  {
    if ps != [] {
      assert (ps + [p])[1..] == ps[1..] + [p];
      QueueWeightAppend(ps[1..], p, each);
    }
  }

  lemma StepDecreases(s: State, step: Step)
    requires InControl(s) && Enabled(s, step)
    ensures Measure(Apply(s, step)) < Measure(s)
  {
    StepKeepsControl(s, step);
    match step
    case Put => QueueWeightAppend(s.queue, s.rest[0], 2);
    case Take(w) => WorkersWeightUpdate(s.workers, w, Rendering(Errors(s.queue[0])));
    case Send(w) => WorkersWeightUpdate(s.workers, w, Rendering(s.workers[w].left[1..]));
    case Next(w) => WorkersWeightUpdate(s.workers, w, Idle);
    case Quit(w) => WorkersWeightUpdate(s.workers, w, Finished);
    case _ =>
  }

  lemma {:induction false} RunIsBounded(s: State, steps: seq<Step>)
    requires InControl(s) && Run(s, steps).Some?
    ensures |steps| + Measure(Run(s, steps).value) <= Measure(s)
    decreases |steps|
  {
    if steps != [] {
      StepKeepsControl(s, steps[0]);
      StepDecreases(s, steps[0]);
      RunIsBounded(Apply(s, steps[0]), steps[1..]);
    }
  }

  /** No run goes on for ever, and one that cannot go on has returned. */
  lemma EveryRunEnds(pages: seq<Page>, numWorkers: nat, steps: seq<Step>)
    requires numWorkers > 0 && FailWalk !in steps && Run(Init(pages, numWorkers), steps).Some?
    ensures |steps| <= Measure(Init(pages, numWorkers))
    ensures var s := Run(Init(pages, numWorkers), steps).value;
            (forall step :: step != FailWalk ==> !Enabled(s, step)) <==> Final(s)
  {
    InitInv(pages, numWorkers);
    RunIsBounded(Init(pages, numWorkers), steps);
    RunKeepsInv(Init(pages, numWorkers), steps, pages, numWorkers);
    var s := Run(Init(pages, numWorkers), steps).value;
    if Final(s) {
      forall step ensures !Enabled(s, step) {
        FinalHasNoStep(s, step);
      }
    } else {
      var step := Progress(pages, numWorkers, steps);
    }
  }

  lemma FinalHasNoStep(s: State, step: Step)
    requires InControl(s) && Final(s)
    ensures !Enabled(s, step)
  {
    assert AllFinished(s.workers);
  }

  /**
    A remark about a callback that would return an error: the page channel would never be closed, and the workers and
    the collator would be left behind. The callback of this walk returns none.
   */
  lemma WalkErrorStrandsWorkers(pages: seq<Page>, numWorkers: nat, steps: seq<Step>)
    requires Run(Init(pages, numWorkers), steps).Some?
    requires Run(Init(pages, numWorkers), steps).value.main == WalkFailed
    ensures FailWalk in steps
    ensures var s := Run(Init(pages, numWorkers), steps).value;
            s.wg == |s.workers| == numWorkers && s.collator == Collecting && !s.pagesClosed && Finished !in s.workers
  {
    InitInv(pages, numWorkers);
    RunKeepsInv(Init(pages, numWorkers), steps, pages, numWorkers);
    if FailWalk !in steps {
      WalkDoesNotFail(Init(pages, numWorkers), steps);
    }
    AllRunning(Run(Init(pages, numWorkers), steps).value.workers);
  }

  lemma {:induction false} AllRunning(workers: seq<Worker>)
    requires forall w :: 0 <= w < |workers| ==> workers[w] != Finished
    ensures Running(workers) == |workers|
  {
    if workers != [] {
      AllRunning(workers[1..]);
    }
  }
}
