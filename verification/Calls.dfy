/**
 Whole API calls: what a sequence of enqueues, finishes, blocking commands and directly executed
 rect commands does to memory, for any number of queues and for one in-order queue.
 */
module Calls {
  import opened Runtime
  import opened Waiting
  import opened Finish
  import opened Ordering

  // ---------- finishing ----------

  lemma {:induction false} QuietRun(s: State, acts: seq<Action>, m: Memory)
    requires Valid(s) && CanRun(s, acts) && forall a :: a in acts ==> a.Submit? || a.Exec?
    ensures HarmlessRun(s, acts) && Eager(m, acts) == m
    decreases |acts|
  {
    if acts != [] {
      assert acts[0] in acts;
      NextKeepsValid(s, acts[0]);
      QuietRun(Next(s, acts[0]), acts[1..], m);
    }
  }

  lemma FinishSettles(s: State, q: QueueId)
    requires Valid(s) && q < |s.queues| && OrderedOrCommute(s)
    ensures OrderedOrCommute(Finished(s, q)) && Settled(Finished(s, q)) == Settled(s)
  {
    var acts := FinishIsRun(s, q);
    QuietRun(s, acts, Settled(s));
    LazyRefinesEager(s, acts);
  }

  ghost function FinishedInTurn(s: State, qs: seq<QueueId>): (t: State)
    requires Valid(s) && Below(qs, |s.queues|)
    ensures Valid(t) && |t.queues| == |s.queues|
    decreases |qs|
  {
    if qs == [] then s else FinishedInTurn(Finished(s, qs[0]), qs[1..])
  }

  lemma {:induction false} FinishesSettle(s: State, qs: seq<QueueId>)
    requires Valid(s) && Below(qs, |s.queues|) && OrderedOrCommute(s) && s.ready == []
    ensures FinishedInTurn(s, qs).ready == [] && Settled(FinishedInTurn(s, qs)) == Settled(s)
    decreases |qs|
  {
    if qs != [] {
      FinishSettles(s, qs[0]);
      FinishesSettle(Finished(s, qs[0]), qs[1..]);
    }
  }

  ghost predicate AllEmpty(s: State) {
    forall q :: 0 <= q < |s.queues| ==> s.queues[q] == []
  }

  /**
   Confluence: once every queue is empty, memory does not depend on which queues were finished,
   in what order, or how often.  It is that of running the pending commands in creation order.
   */
  lemma Confluence(s: State, first: seq<QueueId>, second: seq<QueueId>)
    requires Valid(s) && s.ready == [] && OrderedOrCommute(s)
    requires Below(first, |s.queues|) && Below(second, |s.queues|)
    requires AllEmpty(FinishedInTurn(s, first)) && AllEmpty(FinishedInTurn(s, second))
    ensures FinishedInTurn(s, first).mem == FinishedInTurn(s, second).mem == Settled(s)
  {
    FinishesSettle(s, first);
    FinishesSettle(s, second);
    SettledWhenFinished(FinishedInTurn(s, first));
    SettledWhenFinished(FinishedInTurn(s, second));
  }

  /** A finish completes its queue's commands and all that any of them transitively waits for. */
  lemma FinishCompletes(s: State, q: QueueId, e: EventId, y: EventId)
    requires Valid(s) && q < |s.queues| && e < |s.nodes| && y < |s.nodes| && s.nodes[y].queue == q
    requires e == y || Precedes(s.nodes, e, y)
    ensures Finished(s, q).status[e] == Complete
  {
    var t := Finished(s, q);
    assert t.status[y] == Complete;
    if e != y { CompleteBefore(t, e, t.nodes[y].waits, y); }
  }

  // ---------- what a caller asked to wait for ----------

  lemma {:induction false} CommandsStay(s: State, acts: seq<Action>)
    requires Loose(s) && CanRun(s, acts) && Fresh(acts)
    ensures s.nodes <= Run(s, acts).nodes
    decreases |acts|
  {
    if acts != [] {
      assert acts[0] in acts;
      NextKeepsLoose(s, acts[0]);
      CommandsStay(Next(s, acts[0]), acts[1..]);
    }
  }

  /** A command waits for all that its caller listed, and for all that was in its queue. */
  lemma NewPrecededBy(s: State, a: Action, w: EventId)
    requires Valid(s) && a.Enqueue? && Enabled(s, a) && Valid(Next(s, a)) && (w in a.waits || w in s.queues[a.q])
    ensures w < |s.nodes| && Precedes(Next(s, a).nodes, w, |s.nodes|)
  {
    var t, n, Q := Next(s, a), |s.nodes|, s.queues[a.q];
    if w in a.waits {
      var i :| 0 <= i < |a.waits| && a.waits[i] == w;
      assert w == WaitList(s, a.q, a.waits)[i] && t.nodes[n].waits == WaitList(s, a.q, a.waits);
      assert w in t.nodes[n].waits && NodesOk(t);
    } else {
      var i :| 0 <= i < |Q| && Q[i] == w;
      assert t.queues[a.q] == Q + [n] && t.queues[a.q][i] == w && t.queues[a.q][|Q|] == n;
      QueuePrecedes(t, a.q, i, |Q|);
      assert QueueOk(s, a.q);
    }
  }

  /**
   Whatever happens after a command was queued, when it starts everything its caller told it to wait
   for and everything queued before it in its queue is COMPLETE.
   */
  lemma StartsAfterAllAsked(s: State, a: Action, acts: seq<Action>, w: EventId)
    requires Valid(s) && a.Enqueue? && Enabled(s, a) && Valid(Next(s, a)) && CanRun(Next(s, a), acts) && Fresh(acts)
    requires Run(Next(s, a), acts).ready != [] && Run(Next(s, a), acts).ready[0] == |s.nodes|
    requires w in a.waits || w in s.queues[a.q]
    ensures w < |Run(Next(s, a), acts).status| && Run(Next(s, a), acts).status[w] == Complete
  {
    CommandsStay(Next(s, a), acts);
    RunKeepsValid(Next(s, a), acts);
    NewPrecededBy(s, a, w);
    StillPrecedes(Next(s, a), Run(Next(s, a), acts), w, |s.nodes|);
    PrecedingComplete(Run(Next(s, a), acts), w);
  }

  lemma StillPrecedes(s: State, t: State, x: EventId, y: EventId)
    requires Valid(s) && Valid(t) && s.nodes <= t.nodes && y < |s.nodes| && Precedes(s.nodes, x, y)
    ensures Precedes(t.nodes, x, y)
  {
    var more := t.nodes[|s.nodes|..];
    assert t.nodes == s.nodes + more;
    LeadsAppend(s.nodes, more, x, s.nodes[y].waits, y);
  }

  lemma PrecedingComplete(s: State, w: EventId)
    requires Valid(s) && s.ready != [] && Precedes(s.nodes, w, s.ready[0])
    ensures w < |s.status| && s.status[w] == Complete
  {
    StartsAfterItsWaits(s);
    CompleteBefore(s, w, s.nodes[s.ready[0]].waits, s.ready[0]);
  }

  // ---------- what a finish completes of other queues ----------

  /** No queued command of these queues waits for a queued command of another. */
  ghost predicate Closed(s: State, qs: set<QueueId>)
    requires NodesKnown(s)
  {
    forall c: EventId, w: EventId :: InQueue(s, c) && InQueue(s, w) && s.nodes[c].queue in qs && w in s.nodes[c].waits ==>
      s.nodes[w].queue in qs
  }

  lemma SubmitKeepsClosed(s: State, at: QueueId, qs: set<QueueId>)
    requires Loose(s) && Enabled(s, Submit(at)) && Closed(s, qs)
    ensures NodesKnown(Submitting(s, at)) && Closed(Submitting(s, at), qs)
  {
    assert Queue(s, at);
  }

  /** The loop never leaves a closed set of queues. */
  lemma {:induction false} DrainStaysInside(s: State, target: QueueId, at: QueueId, qs: set<QueueId>, p: QueueId)
    requires Schedulable(s) && target < |s.queues| && at < |s.queues| && p < |s.queues|
    requires Closed(s, qs) && target in qs && at in qs && p !in qs
    ensures Drain(s, target, at).queues[p] == s.queues[p]
    decreases Total(s.queues), Rank(s, at)
  {
    if s.queues[target] == [] {
    } else if s.queues[at] == [] {
      RankOfHead(s, target);
      DrainStaysInside(s, target, target, qs, p);
    } else {
      HeadKnown(s, at);
      SchedulableIs(s);
      assert Queue(s, at);
      var w := LastUnsatisfied(s, s.nodes[s.queues[at][0]].waits);
      if w >= 0 {
        HopDescends(s, at, w);
        assert Placed(s, w);
        DrainStaysInside(s, target, s.nodes[w].queue, qs, p);
      } else {
        SubmitDescends(s, at);
        SubmitKeepsClosed(s, at, qs);
        DrainStaysInside(Submitting(s, at), target, at, qs, p);
      }
    }
  }

  lemma PrefixSplit(done: seq<EventId>, left: seq<EventId>, i: nat, j: nat)
    requires i < j < |done + left|
    ensures (done + left)[j] in left || (done + left)[i] in done
  {
    if j >= |done| { assert left[j - |done|] == (done + left)[j]; } else { assert done[i] == (done + left)[i]; }
  }

  lemma {:induction false} OfMember(nodes: seq<Node>, list: seq<EventId>, q: QueueId, e: EventId)
    requires e in Of(nodes, list, q)
    ensures e in list
  {
    if list != [] && e in Of(nodes, list[1..], q) { OfMember(nodes, list[1..], q, e); }
  }

  /** Of a queue of which t has submitted c, everything ahead of c is submitted. */
  lemma TakesAhead(s: State, t: State, c: EventId, d: EventId)
    requires NodesKnown(s) && c < |s.nodes| && Ahead(s, d, c) && |t.queues| == |s.queues|
    requires var p := s.nodes[c].queue; Of(s.nodes, t.ready, p) + t.queues[p] == s.queues[p] && c !in t.queues[p]
    ensures d in t.ready
  {
    var p := s.nodes[c].queue;
    var done, Q := Of(s.nodes, t.ready, p), s.queues[p];
    var i, j :| 0 <= i < j < |Q| && Q[i] == d && Q[j] == c;
    PrefixSplit(done, t.queues[p], i, j);
    OfMember(s.nodes, t.ready, p, d);
  }

  lemma DrainTakesAhead(s: State, q: QueueId, c: EventId, d: EventId)
    requires Schedulable(s) && s.ready == [] && q < |s.queues| && NodesKnown(s) && c < |s.nodes| && Ahead(s, d, c)
    requires c in Drain(s, q, q).ready
    ensures d in Drain(s, q, q).ready
  {
    var t, p := Drain(s, q, q), s.nodes[c].queue;
    DrainConserves(s, q, q, p);
    SchedulableIs(t);
    assert Queue(t, p);
    TakesAhead(s, t, c, d);
  }

  /** What a completed command needed is completed with it. */
  lemma FinishTakesNeeds(s: State, q: QueueId, c: EventId, d: EventId)
    requires Schedulable(s) && s.ready == [] && q < |s.queues| && NodesKnown(s) && Needs(s, c, d)
    requires c < |Finished(s, q).status| && Finished(s, q).status[c] == Complete
    ensures d < |Finished(s, q).status| && Finished(s, q).status[d] == Complete
  {
    var t := Drain(s, q, q);
    FinishCompletesExactly(s, q, c);
    FinishCompletesExactly(s, q, d);
    SchedulableIs(t);
    if d in s.nodes[c].waits {
      var k :| 0 <= k < |t.ready| && t.ready[k] == c;
      DrainCompletesNothing(s, q, q, d);
      assert t.status[d] == Complete || d in t.ready[..k];
    } else {
      DrainTakesAhead(s, q, c, d);
    }
  }

  /** A finish completes everything that the commands of its queue transitively need. */
  lemma {:induction false} FinishTakesPath(s: State, q: QueueId, p: seq<EventId>, c: EventId, d: EventId)
    requires Schedulable(s) && s.ready == [] && q < |s.queues| && NodesKnown(s) && Path(s, p, c, d)
    requires c < |Finished(s, q).status| && Finished(s, q).status[c] == Complete
    ensures d < |Finished(s, q).status| && Finished(s, q).status[d] == Complete
    decreases |p|
  {
    FinishTakesNeeds(s, q, c, p[1]);
    if |p| > 2 { FinishTakesPath(s, q, p[1..], p[1], d); }
  }

  // ---------- rect commands ignore their wait list ----------

  /** A queued command of queue q is w or needs it. */
  ghost predicate NeededBy(s: State, q: QueueId, w: EventId)
    requires NodesKnown(s)
  {
    exists c: EventId :: InQueue(s, c) && s.nodes[c].queue == q && (c == w || Depends(s, c, w))
  }

  /** The queue of w lies outside a closed set of queues around q. */
  ghost predicate OutOfReach(s: State, q: QueueId, w: EventId)
    requires NodesKnown(s) && w < |s.nodes|
  {
    exists qs: set<QueueId> :: q in qs && s.nodes[w].queue !in qs && Closed(s, qs)
  }

  /**
   A rect command finishes its own queue and then runs, whatever events it was told to wait for.
   Such an event, if it was not complete before, is complete then when a command of the queue needs
   it, and is not when no chain of waits leads from the queue to its queue.
   */
  lemma RectWaits(s: State, q: QueueId, w: EventId)
    requires Schedulable(s) && s.ready == [] && q < |s.queues| && NodesKnown(s) && w < |s.nodes|
    ensures w < |Finished(s, q).status|
    ensures Finished(s, q).status[w] == Complete <==> s.status[w] == Complete || w in Drain(s, q, q).ready
    ensures s.status[w] == Complete || NeededBy(s, q, w) ==> Finished(s, q).status[w] == Complete
    ensures s.status[w] != Complete && OutOfReach(s, q, w) ==> Finished(s, q).status[w] != Complete
  {
    FinishCompletesExactly(s, q, w);
    if NeededBy(s, q, w) {
      var c: EventId :| InQueue(s, c) && s.nodes[c].queue == q && (c == w || Depends(s, c, w));
      FinishCompletesQueue(s, q, c);
      if c != w {
        var p :| Path(s, p, c, w);
        FinishTakesPath(s, q, p, c, w);
      }
    }
    if s.status[w] != Complete && OutOfReach(s, q, w) {
      var qs :| q in qs && s.nodes[w].queue !in qs && Closed(s, qs);
      StaysQueued(s, q, w, qs);
    }
  }

  lemma StaysQueued(s: State, q: QueueId, w: EventId, qs: set<QueueId>)
    requires Schedulable(s) && s.ready == [] && q < |s.queues| && NodesKnown(s) && w < |s.nodes| && s.status[w] != Complete
    requires q in qs && s.nodes[w].queue !in qs && Closed(s, qs)
    ensures w < |Finished(s, q).status| && Finished(s, q).status[w] != Complete
  {
    var t := Finished(s, q);
    SchedulableIs(s);
    SchedulableIs(t);
    assert Placed(s, w);
    DrainStaysInside(s, q, q, qs, s.nodes[w].queue);
    assert w in t.queues[s.nodes[w].queue] && Queue(t, s.nodes[w].queue);
  }

  /** On a queue that waits for no other, a rect command's wait list is honoured exactly where it names that queue. */
  lemma RectWaitsAtHome(s: State, q: QueueId, w: EventId)
    requires Schedulable(s) && s.ready == [] && q < |s.queues| && NodesKnown(s) && w < |s.nodes| && Closed(s, {q})
    ensures w < |Finished(s, q).status|
    ensures Finished(s, q).status[w] == Complete <==> s.status[w] == Complete || s.nodes[w].queue == q
  {
    RectWaits(s, q, w);
    SchedulableIs(s);
    assert Placed(s, w);
    if s.status[w] != Complete {
      if s.nodes[w].queue == q { assert NeededBy(s, q, w); } else { assert q in {q} && s.nodes[w].queue !in {q}; }
    }
  }

  lemma {:induction false} RunAdvances(s: State, acts: seq<Action>, e: EventId)
    requires Loose(s) && CanRun(s, acts) && e < |s.nodes| && s.status[e] == Complete
    ensures e < |Run(s, acts).status| && Run(s, acts).status[e] == Complete
    decreases |acts|
  {
    if acts != [] {
      NextAdvances(s, acts[0]);
      NextKeepsLoose(s, acts[0]);
      RunAdvances(Next(s, acts[0]), acts[1..], e);
    }
  }

  lemma CompleteStays(s: State, q: QueueId, e: EventId)
    requires Schedulable(s) && q < |s.queues| && e < |s.nodes| && s.status[e] == Complete
    ensures e < |Finished(s, q).status| && Finished(s, q).status[e] == Complete
  {
    var acts := FinishIsRun(s, q);
    RunAdvances(s, acts, e);
  }

  // ---------- API calls ----------

  datatype Call =
    | Basic(act: Action)
    | FinishQueue(q: QueueId)
    | Blocking(q: QueueId, waits: seq<EventId>, kind: Kind, op: Memory -> Memory)
    | Rect(q: QueueId, held: seq<BufferId>, waits: seq<EventId>, op: Memory -> Memory)

  ghost predicate Idle(s: State) {
    Valid(s) && s.ready == []
  }

  ghost predicate Callable(s: State, c: Call) {
    match c
    case Basic(a) => Enabled(s, a) && !a.Submit? && !a.Exec? && !a.Recycle?
    case FinishQueue(q) => q < |s.queues|
    case Blocking(q, waits, kind, op) => Enabled(s, Enqueue(q, waits, kind, op))
    case Rect(q, held, waits, _) => q < |s.queues| && Below(held, |s.bufs|) && Below(waits, |s.nodes|)
  }

  /** The state in which a rect command's operation runs: its buffers retained, its queue finished. */
  ghost function RectPoint(s: State, q: QueueId, held: seq<BufferId>): (t: State)
    requires Idle(s) && q < |s.queues| && Below(held, |s.bufs|)
    ensures Idle(t) && |t.bufs| == |s.bufs| && |t.queues| == |s.queues| && t.queues[q] == []
  {
    NextKeepsValid(s, Retain(held));
    Finished(Next(s, Retain(held)), q)
  }

  ghost function CallNext(s: State, c: Call): (t: State)
    requires Idle(s) && Callable(s, c)
    ensures Idle(t)
  {
    match c
    case Basic(a) => NextKeepsValid(s, a); Next(s, a)
    case FinishQueue(q) => Finished(s, q)
    case Blocking(q, waits, kind, op) =>
      var a := Enqueue(q, waits, kind, op);
      NextKeepsValid(s, a);
      Finished(Next(s, a), q)
    case Rect(q, held, _, op) =>
      var t := RectPoint(s, q, held);
      NextKeepsValid(t, Touch(op));
      var u := Next(t, Touch(op));
      NextKeepsValid(u, Release(held));
      Next(u, Release(held))
  }

  function EagerCall(m: Memory, c: Call): Memory {
    match c
    case Basic(a) => EagerNext(m, a)
    case FinishQueue(_) => m
    case Blocking(_, _, _, op) => op(m)
    case Rect(_, _, _, op) => op(m)
  }

  ghost predicate CallHarmless(s: State, c: Call)
    requires Idle(s) && Callable(s, c)
  {
    match c
    case Basic(a) => Harmless(s, a)
    case FinishQueue(_) => true
    case Blocking(q, waits, kind, op) => Harmless(s, Enqueue(q, waits, kind, op))
    case Rect(q, held, _, op) => var t := RectPoint(s, q, held); CommutesBelow(t.nodes, t.status, |t.nodes|, op)
  }

  lemma CallSettles(s: State, c: Call)
    requires Idle(s) && Callable(s, c) && CallHarmless(s, c) && OrderedOrCommute(s)
    ensures OrderedOrCommute(CallNext(s, c)) && Settled(CallNext(s, c)) == EagerCall(Settled(s), c)
  {
    match c
    case Basic(a) => NextSettles(s, a);
    case FinishQueue(q) => FinishSettles(s, q);
    case Blocking(q, waits, kind, op) =>
      NextSettles(s, Enqueue(q, waits, kind, op));
      FinishSettles(Next(s, Enqueue(q, waits, kind, op)), q);
    case Rect(q, held, _, op) =>
      NextSettles(s, Retain(held));
      FinishSettles(Next(s, Retain(held)), q);
      var t := RectPoint(s, q, held);
      NextSettles(t, Touch(op));
      NextSettles(Next(t, Touch(op)), Release(held));
  }

  // ---------- rect commands and their wait lists ----------

  /**
   A rect command on queue 0 told to wait for a marker on queue 1: the operation runs, here it
   writes cell 0, and the call returns, while the marker is still QUEUED.
   */
  lemma RectIgnoresItsWaitList(op: Memory -> Memory) returns (s: State)
    ensures Idle(s) && Callable(s, Rect(0, [], [0], op)) && s.status == [Queued]
    ensures RectPoint(s, 0, []).status == [Queued]
    ensures CallNext(s, Rect(0, [], [0], op)).mem == op(s.mem)
    ensures CallNext(s, Rect(0, [], [0], op)).status == [Queued]
  {
    s := MarkerOnOther();
    NothingToFinish(s);
  }

  lemma MarkerOnOther() returns (s: State)
    ensures Idle(s) && |s.queues| == 2 && s.queues[0] == [] && s.status == [Queued] && |s.nodes| == 1
  {
    s := TwoQueues();
    NextKeepsValid(s, Enqueue(1, [], Marker, m => m));
    s := Next(s, Enqueue(1, [], Marker, m => m));
  }

  lemma TwoQueues() returns (s: State)
    ensures Idle(s) && s.queues == [[], []] && s.status == [] && s.nodes == []
  {
    s := Next(INITIAL, NewQueue);
    NextKeepsValid(s, NewQueue);
    s := Next(s, NewQueue);
  }

  /** Finishing an empty queue changes nothing. */
  lemma NothingToFinish(s: State)
    requires Idle(s) && s.queues != [] && s.queues[0] == []
    ensures RectPoint(s, 0, []) == s
  {
    assert Next(s, Retain([])) == s;
    assert Drain(s, 0, 0) == s;
    assert ExecAll(s) == s;
  }

  // ---------- one in-order queue ----------

  /** Along a queue, every command precedes every later one. */
  lemma {:induction false} QueuePrecedes(s: State, q: QueueId, i: nat, j: nat)
    requires Valid(s) && q < |s.queues| && i < j < |s.queues[q]|
    ensures s.queues[q][i] < s.queues[q][j] < |s.nodes| && Precedes(s.nodes, s.queues[q][i], s.queues[q][j])
    decreases j
  {
    assert QueueOk(s, q);
    assert s.queues[q][j - 1] in s.nodes[s.queues[q][j]].waits;
    if i < j - 1 { QueuePrecedes(s, q, i, j - 1); }
  }

  lemma OneQueuePending(s: State, x: EventId) returns (k: nat)
    requires Idle(s) && |s.queues| == 1 && x < |s.nodes| && s.status[x] != Complete
    ensures k < |s.queues[0]| && s.queues[0][k] == x
  {
    assert s.nodes[x].queue == 0;
    k :| 0 <= k < |s.queues[0]| && s.queues[0][k] == x;
  }

  lemma OneQueueOrdered(s: State)
    requires Idle(s) && |s.queues| == 1
    ensures OrderedOrCommute(s)
  {
    forall x, y | 0 <= x < y < |s.nodes| && s.status[x] != Complete && s.status[y] != Complete
      ensures Precedes(s.nodes, x, y)
    {
      var i := OneQueuePending(s, x);
      var j := OneQueuePending(s, y);
      assert QueueOk(s, 0);
      QueuePrecedes(s, 0, i, j);
    }
  }

  /** The host leaves the memory of pending commands alone: what it does commutes with each of them. */
  ghost predicate HostQuiet(s: State, c: Call)
    requires NodesOk(s)
  {
    c.Basic? && c.act.Touch? ==> CommutesBelow(s.nodes, s.status, |s.nodes|, c.act.op)
  }

  /** A new command waits, through the last queued one, for every pending command. */
  lemma OneQueueLeads(s: State, waits: seq<EventId>, x: EventId)
    requires Idle(s) && |s.queues| == 1 && Below(waits, |s.nodes|) && x < |s.nodes| && s.status[x] != Complete
    ensures forall w :: w in WaitList(s, 0, waits) ==> w < |s.nodes|
    ensures Leads(s.nodes, x, WaitList(s, 0, waits), |s.nodes|)
  {
    NewWaits(s, 0, waits);
    var k := OneQueuePending(s, x);
    var last := |s.queues[0]| - 1;
    assert WaitList(s, 0, waits)[|waits|] == s.queues[0][last];
    if k < last { QueuePrecedes(s, 0, k, last); }
  }

  lemma OneQueueEnqueue(s: State, waits: seq<EventId>, kind: Kind, op: Memory -> Memory)
    requires Idle(s) && |s.queues| == 1 && Enabled(s, Enqueue(0, waits, kind, op))
    ensures Harmless(s, Enqueue(0, waits, kind, op))
  {
    NewWaits(s, 0, waits);
    forall x | 0 <= x < |s.nodes| && s.status[x] != Complete
      ensures Leads(s.nodes, x, WaitList(s, 0, waits), |s.nodes|)
    {
      OneQueueLeads(s, waits, x);
    }
  }

  lemma NothingPending(t: State, f: Memory -> Memory)
    requires Idle(t) && |t.queues| == 1 && t.queues[0] == []
    ensures CommutesBelow(t.nodes, t.status, |t.nodes|, f)
  {
    forall x | 0 <= x < |t.nodes| ensures t.status[x] == Complete { assert Placed(t, x); }
  }

  lemma OneQueueRect(s: State, q: QueueId, held: seq<BufferId>, waits: seq<EventId>, op: Memory -> Memory)
    requires Idle(s) && |s.queues| == 1 && Callable(s, Rect(q, held, waits, op))
    ensures CallHarmless(s, Rect(q, held, waits, op))
  {
    NothingPending(RectPoint(s, q, held), op);
  }

  lemma OneQueueHarmless(s: State, c: Call)
    requires Idle(s) && |s.queues| == 1 && Callable(s, c) && HostQuiet(s, c)
    ensures CallHarmless(s, c)
  {
    match c
    case Basic(a) => if a.Enqueue? { OneQueueEnqueue(s, a.waits, a.kind, a.op); }
    case FinishQueue(q) =>
    case Blocking(q, waits, kind, op) => OneQueueEnqueue(s, waits, kind, op);
    case Rect(q, held, waits, op) => OneQueueRect(s, q, held, waits, op);
  }

  ghost predicate OneQueueRun(s: State, calls: seq<Call>)
    requires Idle(s)
    decreases |calls|
  {
    |s.queues| == 1 &&
    (calls == [] || (Callable(s, calls[0]) && HostQuiet(s, calls[0]) && OneQueueRun(CallNext(s, calls[0]), calls[1..])))
  }

  ghost function CallsRun(s: State, calls: seq<Call>): (t: State)
    requires Idle(s) && OneQueueRun(s, calls)
    ensures Idle(t) && |t.queues| == 1
    decreases |calls|
  {
    if calls == [] then s else CallsRun(CallNext(s, calls[0]), calls[1..])
  }

  function EagerCalls(m: Memory, calls: seq<Call>): Memory
    decreases |calls|
  {
    if calls == [] then m else EagerCalls(EagerCall(m, calls[0]), calls[1..])
  }

  /**
   On one in-order queue, any mix of queued and blocking commands, rect commands and finishes
   leaves, whenever the queue is empty, the memory of running every command at its call.
   */
  lemma {:induction false} OneQueueLazyRefinesEager(s: State, calls: seq<Call>)
    requires Idle(s) && OneQueueRun(s, calls)
    ensures Settled(CallsRun(s, calls)) == EagerCalls(Settled(s), calls)
    ensures CallsRun(s, calls).queues[0] == [] ==> CallsRun(s, calls).mem == EagerCalls(Settled(s), calls)
    decreases |calls|
  {
    if calls != [] {
      OneQueueOrdered(s);
      OneQueueHarmless(s, calls[0]);
      CallSettles(s, calls[0]);
      OneQueueLazyRefinesEager(CallNext(s, calls[0]), calls[1..]);
    } else if s.queues[0] == [] {
      SettledWhenFinished(s);
    }
  }

  // ---------- what a call has done when it returns ----------

  /** What a call returns to: its queue is empty. */
  ghost predicate LeavesEmpty(t: State, q: QueueId) {
    q < |t.queues| && t.queues[q] == []
  }

  ghost predicate Ran(t: State, e: EventId) {
    e < |t.status| && t.status[e] == Complete
  }

  lemma BlockingReturns(s: State, t: State, q: QueueId, waits: seq<EventId>, kind: Kind, op: Memory -> Memory)
    requires Idle(s) && Enabled(s, Enqueue(q, waits, kind, op)) && t == Enqueuing(s, q, waits, kind, op)
    ensures Schedulable(t) && q < |t.queues| && LeavesEmpty(Finished(t, q), q) && Ran(Finished(t, q), |s.nodes|)
  {
    NextKeepsValid(s, Enqueue(q, waits, kind, op));
    FinishCompletesQueue(t, q, |s.nodes|);
  }

  lemma RectReturns(s: State, q: QueueId, held: seq<BufferId>, waits: seq<EventId>, op: Memory -> Memory)
    requires Idle(s) && Callable(s, Rect(q, held, waits, op))
    ensures LeavesEmpty(CallNext(s, Rect(q, held, waits, op)), q)
  {
    RectKeepsQueues(RectPoint(s, q, held), held, op);
  }

  lemma RectKeepsQueues(t: State, held: seq<BufferId>, op: Memory -> Memory)
    requires Idle(t) && Below(held, |t.bufs|)
    ensures Valid(Next(t, Touch(op))) && Next(Next(t, Touch(op)), Release(held)).queues == t.queues
  {
    NextKeepsValid(t, Touch(op));
  }

  lemma FinishReturns(s: State, q: QueueId)
    requires Idle(s) && q < |s.queues|
    ensures LeavesEmpty(CallNext(s, FinishQueue(q)), q)
  {
  }

  /** A blocking call has run its command, and every call but a queued one leaves its queue empty. */
  lemma ReturnsDone(s: State, c: Call)
    requires Idle(s) && Callable(s, c) && !c.Basic?
    ensures LeavesEmpty(CallNext(s, c), c.q)
    ensures c.Blocking? ==> Ran(CallNext(s, c), |s.nodes|)
  {
    match c
    case FinishQueue(q) => FinishReturns(s, q);
    case Rect(q, held, waits, op) => RectReturns(s, q, held, waits, op);
    case Blocking(q, waits, kind, op) => BlockingReturns(s, Enqueuing(s, q, waits, kind, op), q, waits, kind, op);
  }

  lemma {:induction false} CallsSplit(s: State, calls: seq<Call>, c: Call)
    requires Idle(s) && OneQueueRun(s, calls + [c])
    ensures OneQueueRun(s, calls) && Callable(CallsRun(s, calls), c)
    ensures CallsRun(s, calls + [c]) == CallNext(CallsRun(s, calls), c)
    decreases |calls|
  {
    var all := calls + [c];
    if calls == [] {
      assert all[1..] == [] && CallsRun(CallNext(s, c), []) == CallNext(s, c);
    } else {
      assert all[0] == calls[0] && all[1..] == calls[1..] + [c];
      CallsSplit(CallNext(s, calls[0]), calls[1..], c);
    }
  }

  /**
   On one in-order queue, right after any call that blocks, finishes or runs directly, memory is that
   of running every command of the program so far at its call.
   */
  lemma UpToDateOnReturn(s: State, calls: seq<Call>, c: Call)
    requires Idle(s) && OneQueueRun(s, calls + [c]) && !c.Basic?
    ensures CallsRun(s, calls + [c]).mem == EagerCalls(Settled(s), calls + [c])
  {
    CallsSplit(s, calls, c);
    EmptyOnReturn(CallsRun(s, calls), c);
    UpToDateWhenEmpty(s, calls + [c], CallsRun(s, calls + [c]));
  }

  lemma EmptyOnReturn(s: State, c: Call)
    requires Idle(s) && Callable(s, c) && !c.Basic? && |s.queues| == 1
    ensures LeavesEmpty(CallNext(s, c), 0)
  {
    ReturnsDone(s, c);
    assert c.q == 0 by { OnlyQueue(s, c); }
  }

  lemma OnlyQueue(s: State, c: Call)
    requires Idle(s) && Callable(s, c) && !c.Basic? && |s.queues| == 1
    ensures c.q == 0
  {
  }

  lemma UpToDateWhenEmpty(s: State, calls: seq<Call>, t: State)
    requires Idle(s) && OneQueueRun(s, calls) && CallsRun(s, calls) == t && LeavesEmpty(t, 0)
    ensures t.mem == EagerCalls(Settled(s), calls)
  {
    OneQueueLazyRefinesEager(s, calls);
  }
}
