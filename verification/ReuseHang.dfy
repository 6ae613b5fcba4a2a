/**
 A program that hangs: four markers on two queues, a finish of the second queue, and one more marker
 that gets the event of a finished one.  What the finish does is followed step by step.
 */
module ReuseHang {
  import opened Runtime
  import opened Waiting
  import opened Finish
  import opened Termination
  import opened Programs
  import opened Recycling

  function Marked(q: QueueId, waits: seq<EventId>, op: Memory -> Memory): Node {
    Node(q, waits, Marker, op)
  }

  /** Commands 0 and 1 on queue 0, 2 on queue 1 waiting for 0, and 3 on queue 0 waiting for 2 and for its predecessor 1. */
  function FourMarkers(op: Memory -> Memory): seq<Node> {
    [Marked(0, [], op), Marked(0, [0], op), Marked(1, [0], op), Marked(0, [2, 1], op)]
  }

  /** The state after k commands were queued. */
  function QueuedMarkers(k: nat, op: Memory -> Memory): State
    requires k <= 4
  {
    var queues := [[[], []], [[0], []], [[0, 1], []], [[0, 1], [2]], [[0, 1, 3], [2]]];
    State(FourMarkers(op)[..k], seq(k, _ => Queued), queues[k], [], [], map[])
  }

  /** The states in which clFinish of queue 1 has submitted k commands: it hops to queue 0 for command 0 and goes on there. */
  function SubmittedMarkers(k: nat, op: Memory -> Memory): State
    requires k <= 3
  {
    var status := [[Queued, Queued, Queued, Queued], [Submitted, Queued, Queued, Queued],
                   [Submitted, Submitted, Queued, Queued], [Submitted, Submitted, Submitted, Queued]];
    var queues := [[[0, 1, 3], [2]], [[1, 3], [2]], [[3], [2]], [[3], []]];
    State(FourMarkers(op), status[k], queues[k], [0, 1, 2][..k], [], map[])
  }

  /** The states in which it has run k of them. */
  function ExecutedMarkers(k: nat, op: Memory -> Memory): State
    requires k <= 3
  {
    var status := [[Submitted, Submitted, Submitted, Queued], [Complete, Submitted, Submitted, Queued],
                   [Complete, Complete, Submitted, Queued], [Complete, Complete, Complete, Queued]];
    State(FourMarkers(op), status[k], [[3], []], [0, 1, 2][k..], [], map[])
  }

  function MarkerQueued(k: nat, op: Memory -> Memory): Action
    requires k < 4
  {
    Enqueue([0, 0, 1, 0][k], [[], [], [0], [2]][k], Marker, op)
  }

  lemma QueueStepNode(k: nat, op: Memory -> Memory)
    requires k < 4
    ensures var s, q := QueuedMarkers(k, op), [0, 0, 1, 0][k];
      Node(q, WaitList(s, q, [[], [], [0], [2]][k]), Marker, op) == FourMarkers(op)[k]
  {
  }

  lemma QueueStepQueues(k: nat, op: Memory -> Memory)
    requires k < 4
    ensures var s, q := QueuedMarkers(k, op), [0, 0, 1, 0][k];
      s.queues[q := s.queues[q] + [k]] == QueuedMarkers(k + 1, op).queues
  {
    var Q, R := QueuedMarkers(k, op).queues, QueuedMarkers(k + 1, op).queues;
    var q := [0, 0, 1, 0][k];
    assert Q[q := Q[q] + [k]][0] == R[0] && Q[q := Q[q] + [k]][1] == R[1];
  }

  lemma MarkerEnqueued(s: State, q: QueueId, waits: seq<EventId>, op: Memory -> Memory, t: State)
    requires Valid(s) && q < |s.queues| && Below(waits, |s.nodes|)
    requires t.nodes == s.nodes + [Node(q, WaitList(s, q, waits), Marker, op)] && t.status == s.status + [Queued]
    requires t.queues == s.queues[q := s.queues[q] + [|s.nodes|]] && t.ready == s.ready && t.bufs == s.bufs && t.mem == s.mem
    ensures Enabled(s, Enqueue(q, waits, Marker, op)) && Next(s, Enqueue(q, waits, Marker, op)) == t
  {
  }

  lemma QueueStepFields(k: nat, op: Memory -> Memory)
    requires k < 4
    ensures var s, t, q := QueuedMarkers(k, op), QueuedMarkers(k + 1, op), [0, 0, 1, 0][k];
      && t.nodes == s.nodes + [Node(q, WaitList(s, q, [[], [], [0], [2]][k]), Marker, op)]
      && t.status == s.status + [Queued] && |s.nodes| == k
  {
    QueueStepNode(k, op);
    assert FourMarkers(op)[..k + 1] == FourMarkers(op)[..k] + [FourMarkers(op)[k]];
    assert seq(k + 1, _ => Queued) == seq(k, _ => Queued) + [Queued];
  }

  lemma QueueStep(k: nat, op: Memory -> Memory)
    requires k < 4 && Valid(QueuedMarkers(k, op))
    ensures Enabled(QueuedMarkers(k, op), MarkerQueued(k, op))
    ensures Next(QueuedMarkers(k, op), MarkerQueued(k, op)) == QueuedMarkers(k + 1, op)
  {
    QueueStepFields(k, op);
    QueueStepQueues(k, op);
    MarkerEnqueued(QueuedMarkers(k, op), [0, 0, 1, 0][k], [[], [], [0], [2]][k], op, QueuedMarkers(k + 1, op));
  }

  lemma SubmitFields(k: nat, q: QueueId, op: Memory -> Memory)
    requires k < 3 && q == (if k < 2 then 0 else 1)
    ensures var s, t := SubmittedMarkers(k, op), SubmittedMarkers(k + 1, op);
      && s.queues[q] != [] && s.queues[q][0] == k
      && t.status == s.status[k := Submitted] && t.ready == s.ready + [k]
      && t.queues == s.queues[q := s.queues[q][1..]]
  {
    var s, t := SubmittedMarkers(k, op), SubmittedMarkers(k + 1, op);
    var Q := s.queues[q := s.queues[q][1..]];
    assert t.queues[0] == Q[0] && t.queues[1] == Q[1];
  }

  lemma HeadReady(k: nat, q: QueueId, op: Memory -> Memory)
    requires k < 3 && q == (if k < 2 then 0 else 1)
    ensures Enabled(SubmittedMarkers(k, op), Submit(q))
  {
    SubmitFields(k, q, op);
    var s := SubmittedMarkers(k, op);
    assert s.nodes[k].waits == if k == 0 then [] else [0];
    assert k > 0 ==> s.status[0] == Submitted;
  }

  /** Submitting is what leads from one of these states to the next. */
  lemma Submits(s: State, t: State, q: QueueId, e: EventId)
    requires q < |s.queues| && s.queues[q] != [] && s.queues[q][0] == e < |s.status|
    requires t == s.(status := s.status[e := Submitted], queues := s.queues[q := s.queues[q][1..]], ready := s.ready + [e])
    ensures Submitting(s, q) == t
  {
  }

  lemma SubmitStep(k: nat, q: QueueId, op: Memory -> Memory)
    requires k < 3 && q == (if k < 2 then 0 else 1) && Valid(SubmittedMarkers(k, op))
    ensures Enabled(SubmittedMarkers(k, op), Submit(q)) && Submitting(SubmittedMarkers(k, op), q) == SubmittedMarkers(k + 1, op)
    ensures Valid(SubmittedMarkers(k + 1, op))
  {
    SubmitFields(k, q, op);
    HeadReady(k, q, op);
    Submits(SubmittedMarkers(k, op), SubmittedMarkers(k + 1, op), q, k);
    NextKeepsValid(SubmittedMarkers(k, op), Submit(q));
  }

  lemma ExecFields(k: nat, op: Memory -> Memory)
    requires k < 3
    ensures var s, t := ExecutedMarkers(k, op), ExecutedMarkers(k + 1, op);
      && s.ready != [] && s.ready[0] == k && t.status == s.status[k := Complete] && t.ready == s.ready[1..]
      && s.nodes[k].kind == Marker && s.nodes[k].op == op
  {
  }

  lemma ExecStep(k: nat, op: Memory -> Memory)
    requires k < 3 && Valid(ExecutedMarkers(k, op)) && op(map[]) == map[]
    ensures ExecutedMarkers(k, op).ready != [] && Executing(ExecutedMarkers(k, op)) == ExecutedMarkers(k + 1, op)
    ensures Valid(ExecutedMarkers(k + 1, op))
  {
    ExecFields(k, op);
    NextKeepsValid(ExecutedMarkers(k, op), Exec);
  }

  // ---------- the finish ----------

  /** Where the loop stands: it hops to queue 0 for command 0, submits 0 and 1 there, and comes back for 2, which 3 waits for. */
  function LoopAt(i: nat, op: Memory -> Memory): Loop
    requires i < 6
  {
    if i == 0 then Loop(SubmittedMarkers(0, op), 1)
    else if i < 4 then Loop(SubmittedMarkers(i - 1, op), 0)
    else Loop(SubmittedMarkers(i - 2, op), 1)
  }

  lemma HopsForZero(op: Memory -> Memory)
    requires Valid(SubmittedMarkers(0, op))
    ensures TurnsTo(LoopAt(0, op), LoopAt(1, op), 1)
  {
    var s := SubmittedMarkers(0, op);
    assert s.nodes[2].waits == [0] && LastUnsatisfied(s, [0]) == 0;
    HopTurns(s, 1, 0, 1);
  }

  lemma HopsForTwo(op: Memory -> Memory)
    requires Valid(SubmittedMarkers(2, op))
    ensures TurnsTo(LoopAt(3, op), LoopAt(4, op), 1)
  {
    var s := SubmittedMarkers(2, op);
    assert s.nodes[3].waits == [2, 1] && [2, 1][..1] == [2] && LastUnsatisfied(s, [2, 1]) == 2;
    HopTurns(s, 0, 2, 1);
  }

  lemma SubmitsOne(i: nat, k: nat, q: QueueId, op: Memory -> Memory)
    requires (k < 2 && q == 0 && i == k + 1) || (k == 2 && q == 1 && i == 4)
    requires Valid(SubmittedMarkers(k, op))
    ensures TurnsTo(LoopAt(i, op), LoopAt(i + 1, op), 1)
  {
    SubmitStep(k, q, op);
    assert SubmittedMarkers(k, op).queues[1] != [];
    SubmitTurns(SubmittedMarkers(k, op), q, SubmittedMarkers(k + 1, op), 1);
  }

  lemma {:induction false} AllValid(k: nat, op: Memory -> Memory)
    requires k <= 3 && Valid(SubmittedMarkers(0, op))
    ensures Valid(SubmittedMarkers(k, op))
  {
    if k > 0 {
      AllValid(k - 1, op);
      SubmitStep(k - 1, if k - 1 < 2 then 0 else 1, op);
    }
  }

  lemma LoopTurns(i: nat, op: Memory -> Memory)
    requires i < 5 && Valid(SubmittedMarkers(0, op))
    ensures TurnsTo(LoopAt(i, op), LoopAt(i + 1, op), 1)
  {
    AllValid(2, op);
    AllValid(1, op);
    if i == 0 { HopsForZero(op); }
    else if i == 3 { HopsForTwo(op); }
    else if i == 4 { SubmitsOne(4, 2, 1, op); }
    else { SubmitsOne(i, i - 1, 0, op); }
  }

  lemma DrainsThree(op: Memory -> Memory)
    requires Valid(SubmittedMarkers(0, op))
    ensures Drain(SubmittedMarkers(0, op), 1, 1) == SubmittedMarkers(3, op) && Valid(SubmittedMarkers(3, op))
  {
    var ls := seq(6, i requires 0 <= i < 6 => LoopAt(i, op));
    forall i | 0 <= i < 5 ensures TurnsTo(ls[i], ls[i + 1], 1) { LoopTurns(i, op); }
    ValidIsAcyclic(SubmittedMarkers(0, op));
    assert ls[0] == LoopAt(0, op) && ls[5] == LoopAt(5, op);
    AllValid(3, op);
    DrainFollows(ls, 1);
  }

  lemma {:induction false} ExecutesRest(k: nat, op: Memory -> Memory)
    requires k <= 3 && Valid(ExecutedMarkers(k, op)) && op(map[]) == map[]
    ensures ExecAll(ExecutedMarkers(k, op)) == ExecutedMarkers(3, op)
    decreases 3 - k
  {
    if k < 3 {
      ExecStep(k, op);
      ExecAllTurns(ExecutedMarkers(k, op), ExecutedMarkers(k + 1, op));
      ExecutesRest(k + 1, op);
    }
  }

  lemma FinishesThree(op: Memory -> Memory)
    requires Valid(QueuedMarkers(4, op)) && op(map[]) == map[]
    ensures Finished(QueuedMarkers(4, op), 1) == ExecutedMarkers(3, op)
  {
    SameStages(op);
    DrainsThree(op);
    ExecutesRest(0, op);
  }

  lemma SameStages(op: Memory -> Memory)
    ensures QueuedMarkers(4, op) == SubmittedMarkers(0, op) && SubmittedMarkers(3, op) == ExecutedMarkers(0, op)
  {
  }

  // ---------- the program ----------

  /** Two queues, and the first k of the four commands. */
  function FreshMarkers(k: nat, op: Memory -> Memory): seq<Request>
    requires k <= 4
  {
    if k == 0 then [Do(NewQueue), Do(NewQueue)] else FreshMarkers(k - 1, op) + [Do(MarkerQueued(k - 1, op))]
  }

  /** The last marker, on queue 0, gets the event of command 1. */
  function Last(op: Memory -> Memory): Request {
    Reuse(Enqueue(0, [], Marker, op), 1)
  }

  function HangingProgram(op: Memory -> Memory): seq<Request> {
    FreshMarkers(4, op) + [FinishQueue(1)] + [Last(op)]
  }

  lemma TwoQueues(s: State, none: seq<Request>, t: State, rs: seq<Request>)
    requires LeadsTo(none, s) && Valid(s) && s.queues == []
    requires rs == none + [Do(NewQueue)] + [Do(NewQueue)] && t == s.(queues := [[], []])
    ensures LeadsTo(rs, t) && Valid(t)
  {
    var one := s.(queues := s.queues + [[]]);
    QueueAdded(none, s);
    QueueAdded(none + [Do(NewQueue)], one);
    assert one.queues + [[]] == [[], []];
  }

  lemma NoMarkers(op: Memory -> Memory, none: seq<Request>, s: State)
    requires none == [] && s == INITIAL && LeadsTo(none, s)
    ensures LeadsTo(FreshMarkers(0, op), QueuedMarkers(0, op)) && Valid(QueuedMarkers(0, op))
  {
    TwoQueues(s, none, QueuedMarkers(0, op), FreshMarkers(0, op));
  }

  lemma {:induction false} QueuesMarkers(k: nat, op: Memory -> Memory)
    requires k <= 4
    ensures LeadsTo(FreshMarkers(k, op), QueuedMarkers(k, op)) && Valid(QueuedMarkers(k, op))
  {
    if k == 0 {
      NothingLeads();
      NoMarkers(op, [], INITIAL);
    } else {
      QueuesMarkers(k - 1, op);
      MarkerFollows(FreshMarkers(k - 1, op), k - 1, op);
    }
  }

  lemma MarkerFollows(rs: seq<Request>, k: nat, op: Memory -> Memory)
    requires k < 4 && LeadsTo(rs, QueuedMarkers(k, op)) && Valid(QueuedMarkers(k, op))
    ensures LeadsTo(rs + [Do(MarkerQueued(k, op))], QueuedMarkers(k + 1, op)) && Valid(QueuedMarkers(k + 1, op))
  {
    QueueStep(k, op);
    NextKeepsValid(QueuedMarkers(k, op), MarkerQueued(k, op));
    LeadsOn(rs, QueuedMarkers(k, op), Do(MarkerQueued(k, op)), QueuedMarkers(k + 1, op));
  }

  lemma ThreeAndFour(op: Memory -> Memory)
    requires AtRest(ExecutedMarkers(3, op)) && Able(ExecutedMarkers(3, op), Last(op))
    ensures var t := After(ExecutedMarkers(3, op), Last(op));
      NodesKnown(t) && Needs(t, 3, 4) && Needs(t, 4, 3)
  {
    var s, a := ExecutedMarkers(3, op), Enqueue(0, [], Marker, op);
    EnqueueKeepsLoose(s, 0, [], Marker, op);
    RecycleKeepsLoose(Next(s, a), 1);
    NewNeeds(s, a, 3);
    assert WaitList(s, 0, [])[0] == 3;
    RecycledNeeds(Next(s, a), 1, 4, 3);
    RecycledNeeds(Next(s, a), 1, 3, 4);
  }

  lemma WhereThreeIs(op: Memory -> Memory)
    requires AtRest(ExecutedMarkers(3, op)) && Able(ExecutedMarkers(3, op), Last(op))
    ensures var t := After(ExecutedMarkers(3, op), Last(op)); |t.queues| == 2 && |t.nodes| == 5 && t.nodes[3].queue == 0
  {
  }

  lemma PairHangs(t: State, c: EventId, d: EventId, q: QueueId)
    requires Loose(t) && Needs(t, c, d) && Needs(t, d, c) && c < |t.nodes| && t.nodes[c].queue == q
    ensures !Terminates(t, q)
  {
    assert NeedsOneOf(t, c, {c, d}) && NeedsOneOf(t, d, {c, d});
    DeadlockHangs(t, {c, d}, c);
  }

  lemma FinishLeads(op: Memory -> Memory)
    requires op(map[]) == map[]
    ensures LeadsTo(FreshMarkers(4, op) + [FinishQueue(1)], ExecutedMarkers(3, op)) && Valid(ExecutedMarkers(3, op))
  {
    QueuesMarkers(4, op);
    FinishesThree(op);
    LeadsOn(FreshMarkers(4, op), QueuedMarkers(4, op), FinishQueue(1), ExecutedMarkers(3, op));
  }

  lemma LastAble(op: Memory -> Memory)
    requires Valid(ExecutedMarkers(3, op))
    ensures AtRest(ExecutedMarkers(3, op)) && Able(ExecutedMarkers(3, op), Last(op))
  {
  }

  lemma ReuseLeads(op: Memory -> Memory)
    requires LeadsTo(FreshMarkers(4, op) + [FinishQueue(1)], ExecutedMarkers(3, op)) && Valid(ExecutedMarkers(3, op))
    ensures AtRest(ExecutedMarkers(3, op)) && Able(ExecutedMarkers(3, op), Last(op))
    ensures LeadsTo(HangingProgram(op), After(ExecutedMarkers(3, op), Last(op)))
  {
    LastAble(op);
    LeadsOn(FreshMarkers(4, op) + [FinishQueue(1)], ExecutedMarkers(3, op), Last(op), After(ExecutedMarkers(3, op), Last(op)));
  }

  /**
   Nobody holds the event of command 1 once it is finished, since it was never given to the caller.
   Command 3 still names it and so comes to wait for the last marker, which is behind it in its
   queue: clFinish of queue 0 never ends.
   */
  lemma ReusedEventHangs(op: Memory -> Memory) returns (t: State)
    requires op(map[]) == map[]
    ensures LeadsTo(HangingProgram(op), t) && |t.queues| == 2 && !Terminates(t, 0)
  {
    FinishLeads(op);
    ReuseLeads(op);
    t := After(ExecutedMarkers(3, op), Last(op));
    WhereThreeIs(op);
    ThreeAndFour(op);
    PairHangs(t, 3, 4, 0);
  }
}
