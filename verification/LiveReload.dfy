/**
  The live-reload hub of livereload/hub.go with its connections (livereload/connection.go) and the life of a
  handler (livereload/livereload.go). The hub's broadcast loop takes one client at a time, in any order, and the
  clients' readers and writers go on between any two of its steps.
 */
module LiveReload {
  import opened Common

  /** The capacity of a connection's send channel. */
  const CAPACITY: nat := 256

  datatype Message = Hello | Reload(text: string)

  datatype Handler = New | Reading | Leaving | Gone

  /**
    One connection: its send channel, the once that guards the close, and where its handler stands.
    `since` is the number of broadcasts before it was registered, `enqueued` the broadcasts put on its channel,
    `written` what its writer has taken off, and `writing` whether the writer still runs.
   */
  datatype Connection = Connection(
    queue: seq<Message>,
    closed: bool,
    closer: bool,
    handler: Handler,
    since: nat,
    enqueued: seq<string>,
    written: seq<Message>,
    writing: bool)

  datatype Hub = Selecting | Broadcasting(text: string, left: set<nat>)

  /** `panicked` says that the hub has sent on a closed channel or closed one twice. */
  datatype State = State(
    connections: seq<Connection>,
    registered: set<nat>,
    hub: Hub,
    broadcasts: seq<string>,
    panicked: bool)

  datatype Step =
    | Register(c: nat) | Unregister(c: nat) | Broadcast(text: string) | Deliver(c: nat) | Finish
    | SayHello(c: nat) | StopReading(c: nat) | Write(c: nat) | StopWriting(c: nat)

  const FRESH := Connection([], false, false, New, 0, [], [], true)

  function Init(n: nat): State
  {
    State(seq(n, i => FRESH), {}, Selecting, [], false)
  }

  predicate Enabled(s: State, step: Step)
  {
    match step
    case Register(c) => s.hub == Selecting && c < |s.connections| && s.connections[c].handler == New
    case Unregister(c) => s.hub == Selecting && c < |s.connections| && s.connections[c].handler == Leaving
    case Broadcast(text) => s.hub == Selecting
    case Deliver(c) => s.hub.Broadcasting? && c in s.hub.left && c < |s.connections|
    case Finish => s.hub.Broadcasting? && s.hub.left == {}
    case SayHello(c) => && c < |s.connections| && s.connections[c].handler == Reading
                        && !s.connections[c].closed && |s.connections[c].queue| < CAPACITY
    case StopReading(c) => c < |s.connections| && s.connections[c].handler == Reading
    case Write(c) => && c < |s.connections| && s.connections[c].handler != New
                     && s.connections[c].writing && s.connections[c].queue != []
    case StopWriting(c) => c < |s.connections| && s.connections[c].handler != New && s.connections[c].writing
  }

  function With(s: State, c: nat, conn: Connection): State
    requires c < |s.connections|
  {
    s.(connections := s.connections[c := conn])
  }

  /** Closes the channel of `c`, once. */
  function Close(s: State, c: nat): State
    requires c < |s.connections|
  {
    var conn := s.connections[c];
    if conn.closer then s
    else With(s, c, conn.(closer := true, closed := true)).(panicked := s.panicked || conn.closed)
  }

  /** A send that does not wait: a full channel costs the client its registration. */
  function TrySend(s: State, c: nat, text: string): State
    requires c < |s.connections|
  {
    var conn := s.connections[c];
    if conn.closed then s.(panicked := true)
    else if |conn.queue| < CAPACITY then
      With(s, c, conn.(queue := conn.queue + [Reload(text)], enqueued := conn.enqueued + [text]))
    else Close(s.(registered := s.registered - {c}), c)
  }

  function Apply(s: State, step: Step): State
    requires Enabled(s, step)
  {
    match step
    case Register(c) =>
      With(s, c, s.connections[c].(handler := Reading, since := |s.broadcasts|)).(registered := s.registered + {c})
    case Unregister(c) =>
      var s1 := Close(s.(registered := s.registered - {c}), c);
      With(s1, c, s1.connections[c].(handler := Gone))
    case Broadcast(text) => s.(hub := Broadcasting(text, s.registered), broadcasts := s.broadcasts + [text])
    case Deliver(c) => TrySend(s, c, s.hub.text).(hub := Broadcasting(s.hub.text, s.hub.left - {c}))
    case Finish => s.(hub := Selecting)
    case SayHello(c) => With(s, c, s.connections[c].(queue := s.connections[c].queue + [Hello]))
    case StopReading(c) => With(s, c, s.connections[c].(handler := Leaving))
    case Write(c) =>
      var conn := s.connections[c];
      With(s, c, conn.(queue := conn.queue[1..], written := conn.written + [conn.queue[0]]))
    case StopWriting(c) => With(s, c, s.connections[c].(writing := false))
  }

  /** The state after the steps, if each was enabled when it was taken. */
  function Run(s: State, steps: seq<Step>): Option<State>
    decreases |steps|
  {
    if steps == [] then Some(s)
    else if Enabled(s, steps[0]) then Run(Apply(s, steps[0]), steps[1..])
    else None
  }

  function Texts(messages: seq<Message>): seq<string>
  {
    if messages == [] then []
    else Texts(messages[..|messages| - 1])
         + var m := messages[|messages| - 1]; if m.Reload? then [m.text] else []
  }

  lemma TextsAppend(messages: seq<Message>, m: Message)
    ensures Texts(messages + [m]) == Texts(messages) + if m.Reload? then [m.text] else []
  {
    assert (messages + [m])[..|messages|] == messages;
  }

  /** The broadcasts that a connection which is still registered has been served so far. */
  function Served(s: State, c: nat): int
  {
    if s.hub.Broadcasting? && c in s.hub.left then |s.broadcasts| - 1 else |s.broadcasts|
  }

  /** What was enqueued for the connection is a run of consecutive broadcasts from its registration on. */
  ghost predicate GapFree(conn: Connection, broadcasts: seq<string>)
  {
    && conn.since + |conn.enqueued| <= |broadcasts|
    && conn.enqueued == broadcasts[conn.since..conn.since + |conn.enqueued|]
  }

  ghost predicate ConnectionInv(s: State, c: nat)
    requires c < |s.connections|
  {
    var conn := s.connections[c];
    && (conn.closed <==> conn.closer)
    && (c in s.registered ==> !conn.closed && conn.handler in {Reading, Leaving})
    && (conn.handler in {Reading, Leaving} && !conn.closed ==> c in s.registered)
    && (conn.handler == Gone ==> conn.closed)
    && (conn.handler == New ==> conn == FRESH)
    && |conn.queue| <= CAPACITY
    && Texts(conn.written + conn.queue) == conn.enqueued
    && GapFree(conn, s.broadcasts)
    && (c in s.registered ==> conn.since + |conn.enqueued| == Served(s, c))
  }

  ghost predicate Inv(s: State)
  {
    && !s.panicked
    && (forall c :: c in s.registered ==> c < |s.connections|)
    && (s.hub.Broadcasting? ==> s.hub.left <= s.registered && s.broadcasts != [] && s.hub.text == s.broadcasts[|s.broadcasts| - 1])
    && (forall c :: 0 <= c < |s.connections| ==> ConnectionInv(s, c))
  }

  /** A step on one connection leaves the facts about the others alone. */
  lemma OthersKeepInv(s: State, s1: State, c: nat)
    requires Inv(s) && |s.connections| == |s1.connections| && s.broadcasts == s1.broadcasts
    requires forall d :: 0 <= d < |s.connections| && d != c ==>
               && s1.connections[d] == s.connections[d]
               && (d in s1.registered <==> d in s.registered) && Served(s1, d) == Served(s, d)
    ensures forall d :: 0 <= d < |s.connections| && d != c ==> ConnectionInv(s1, d)
  {
    forall d | 0 <= d < |s.connections| && d != c ensures ConnectionInv(s1, d) {
      assert ConnectionInv(s, d);
    }
  }

  lemma SendAddsText(written: seq<Message>, queue: seq<Message>, text: string)
    ensures Texts(written + (queue + [Reload(text)])) == Texts(written + queue) + [text]
  {
    Assoc(written, queue, [Reload(text)]);
    TextsAppend(written + queue, Reload(text));
  }

  lemma RunGrows(broadcasts: seq<string>, since: nat, enqueued: seq<string>)
    requires since + |enqueued| == |broadcasts| - 1 && enqueued == broadcasts[since..since + |enqueued|]
    ensures enqueued + [broadcasts[|broadcasts| - 1]] == broadcasts[since..]
  {}

  lemma DeliverKeepsInv(s: State, c: nat)
    requires Inv(s) && Enabled(s, Deliver(c))
    ensures Inv(Apply(s, Deliver(c)))
  {
    var conn := s.connections[c];
    assert ConnectionInv(s, c);
    SendAddsText(conn.written, conn.queue, s.hub.text);
    RunGrows(s.broadcasts, conn.since, conn.enqueued);
    OthersKeepInv(s, Apply(s, Deliver(c)), c);
  }

  lemma HelloAddsNoText(written: seq<Message>, queue: seq<Message>)
    ensures Texts(written + (queue + [Hello])) == Texts(written + queue)
  {
    Assoc(written, queue, [Hello]);
    TextsAppend(written + queue, Hello);
  }

  lemma WritingKeepsTexts(written: seq<Message>, queue: seq<Message>)
    requires queue != []
    ensures Texts(written + [queue[0]] + queue[1..]) == Texts(written + queue)
  {
    assert queue == [queue[0]] + queue[1..];
    Assoc(written, [queue[0]], queue[1..]);
  }

  lemma HelloKeepsInv(s: State, c: nat)
    requires Inv(s) && Enabled(s, SayHello(c))
    ensures Inv(Apply(s, SayHello(c)))
  {
    HelloAddsNoText(s.connections[c].written, s.connections[c].queue);
    OthersKeepInv(s, Apply(s, SayHello(c)), c);
    assert ConnectionInv(s, c);
  }

  lemma WriteKeepsInv(s: State, c: nat)
    requires Inv(s) && Enabled(s, Write(c))
    ensures Inv(Apply(s, Write(c)))
  {
    WritingKeepsTexts(s.connections[c].written, s.connections[c].queue);
    OthersKeepInv(s, Apply(s, Write(c)), c);
    assert ConnectionInv(s, c);
  }

  lemma StopKeepsInv(s: State, step: Step)
    requires Inv(s) && Enabled(s, step) && (step.StopReading? || step.StopWriting?)
    ensures Inv(Apply(s, step))
  {
    OthersKeepInv(s, Apply(s, step), step.c);
    assert ConnectionInv(s, step.c);
  }

  lemma RegistrationKeepsInv(s: State, step: Step)
    requires Inv(s) && Enabled(s, step) && (step.Register? || step.Unregister?)
    ensures Inv(Apply(s, step))
  {
    OthersKeepInv(s, Apply(s, step), step.c);
    assert ConnectionInv(s, step.c);
  }

  lemma HubKeepsInv(s: State, step: Step)
    requires Inv(s) && Enabled(s, step) && (step.Broadcast? || step.Finish?)
    ensures Inv(Apply(s, step))
  {
    var s1 := Apply(s, step);
    forall c | 0 <= c < |s.connections| ensures ConnectionInv(s1, c) {
      assert ConnectionInv(s, c);
      var conn := s.connections[c];
      assert s1.broadcasts[conn.since..conn.since + |conn.enqueued|] == s.broadcasts[conn.since..conn.since + |conn.enqueued|];
    }
  }

  lemma StepKeepsInv(s: State, step: Step)
    requires Inv(s) && Enabled(s, step)
    ensures Inv(Apply(s, step))
  {
    match step
    case Register(_) => RegistrationKeepsInv(s, step);
    case Unregister(_) => RegistrationKeepsInv(s, step);
    case Broadcast(_) => HubKeepsInv(s, step);
    case Finish => HubKeepsInv(s, step);
    case Deliver(c) => DeliverKeepsInv(s, c);
    case SayHello(c) => HelloKeepsInv(s, c);
    case Write(c) => WriteKeepsInv(s, c);
    case _ => StopKeepsInv(s, step);
  }

  lemma {:induction false} RunKeepsInv(s: State, steps: seq<Step>)
    requires Inv(s) && Run(s, steps).Some?
    ensures Inv(Run(s, steps).value)
    decreases |steps|
  {
    if steps != [] {
      StepKeepsInv(s, steps[0]);
      RunKeepsInv(Apply(s, steps[0]), steps[1..]);
    }
  }

  ghost predicate Reachable(n: nat, s: State)
  {
    exists steps :: Run(Init(n), steps) == Some(s)
  }

  lemma ReachableInv(n: nat, s: State)
    requires Reachable(n, s)
    ensures Inv(s)
  {
    var steps :| Run(Init(n), steps) == Some(s);
    RunKeepsInv(Init(n), steps);
  }

  /**
    In every interleaving the hub never sends on a closed channel and closes none twice; a connection whose
    handler has started reading is registered exactly while its channel is open, and one whose handler is gone
    is closed, so that its writer comes to an end.
   */
  lemma HubIsSafe(n: nat, s: State, c: nat)
    requires Reachable(n, s) && c < |s.connections|
    ensures !s.panicked
    ensures var conn := s.connections[c];
            && (c in s.registered <==> conn.handler in {Reading, Leaving} && !conn.closed)
            && (conn.handler == Gone ==> conn.closed && c !in s.registered)
  {
    ReachableInv(n, s);
    assert ConnectionInv(s, c);
  }

  /**
    What a client gets is a gap-free run of the broadcasts from its registration on, in order; between two
    broadcasts a client that is still registered has been sent all of them.
   */
  lemma ClientsGetGapFreeRuns(n: nat, s: State, c: nat)
    requires Reachable(n, s) && c < |s.connections|
    ensures var conn := s.connections[c];
            && GapFree(conn, s.broadcasts)
            && Texts(conn.written) <= conn.enqueued
            && Texts(conn.written + conn.queue) == conn.enqueued
            && (s.hub == Selecting && c in s.registered ==> conn.enqueued == s.broadcasts[conn.since..])
  {
    ReachableInv(n, s);
    assert ConnectionInv(s, c);
    TextsPrefix(s.connections[c].written, s.connections[c].queue);
  }

  lemma {:induction false} TextsPrefix(a: seq<Message>, b: seq<Message>)
    ensures Texts(a) <= Texts(a + b)
  {
    if b == [] {
      assert a + b == a;
    } else {
      var last := |b| - 1;
      assert a + b == a + b[..last] + [b[last]];
      TextsAppend(a + b[..last], b[last]);
      TextsPrefix(a, b[..last]);
    }
  }

  /** A client that has missed a broadcast, because its channel was full, gets none later. */
  lemma {:induction false} ClosedGetsNoMore(s: State, steps: seq<Step>, c: nat)
    requires Inv(s) && c < |s.connections| && s.connections[c].closed && Run(s, steps).Some?
    ensures var s1 := Run(s, steps).value;
            c < |s1.connections| && s1.connections[c].closed && s1.connections[c].enqueued == s.connections[c].enqueued
    decreases |steps|
  {
    if steps != [] {
      assert ConnectionInv(s, c);
      StepKeepsInv(s, steps[0]);
      ClosedGetsNoMore(Apply(s, steps[0]), steps[1..], c);
    }
  }

  /** A channel is closed for two reasons only: its handler leaves, or a broadcast finds it holding 256 messages. */
  lemma ClosedOnlyWhenLeavingOrFull(n: nat, s: State, step: Step, c: nat)
    requires Reachable(n, s) && Enabled(s, step) && c < |s.connections| && !s.connections[c].closed
    ensures |Apply(s, step).connections| == |s.connections|
    ensures Apply(s, step).connections[c].closed
       <==> || step == Unregister(c)
            || (step == Deliver(c) && |s.connections[c].queue| == CAPACITY)
  {
    ReachableInv(n, s);
    assert ConnectionInv(s, c);
  }

  /** A client whose channel holds fewer than 256 messages gets the broadcast and stays; with 256 it is given up. */
  lemma DeliveryReaches(n: nat, s: State, c: nat)
    requires Reachable(n, s) && Enabled(s, Deliver(c))
    ensures var conn, conn1 := s.connections[c], Apply(s, Deliver(c)).connections[c];
            if |conn.queue| < 256 then
              && c in Apply(s, Deliver(c)).registered && !conn1.closed
              && conn1.queue == conn.queue + [Reload(s.hub.text)] && conn1.enqueued == conn.enqueued + [s.hub.text]
            else
              && c !in Apply(s, Deliver(c)).registered && conn1.closed
              && conn1.queue == conn.queue && conn1.enqueued == conn.enqueued
  {
    ReachableInv(n, s);
    assert ConnectionInv(s, c);
  }

  /** The hub never waits for a client: while it broadcasts, its next step is always possible. */
  lemma HubNeverBlocks(n: nat, s: State) returns (step: Step)
    requires Reachable(n, s) && s.hub.Broadcasting?
    ensures Enabled(s, step)
    ensures step == Finish || (step.Deliver? && |Apply(s, step).hub.left| < |s.hub.left|)
  {
    ReachableInv(n, s);
    if s.hub.left == {} {
      step := Finish;
    } else {
      var c :| c in s.hub.left;
      step := Deliver(c);
      assert Apply(s, step).hub.left < s.hub.left;
    }
  }
}
