/**
 clFinish: the scheduling loop that hops between queues and builds the ready list, and the
 execution of that list.  The recursive functions specify the loops of the Runtime's methods.
 */
module Finish {
  import opened Runtime
  import opened Waiting

  // ---------- runs ----------

  ghost predicate CanRun(s: State, acts: seq<Action>)
    requires Loose(s)
    decreases |acts|
  {
    acts == [] || (Enabled(s, acts[0]) && (NextKeepsLoose(s, acts[0]); CanRun(Next(s, acts[0]), acts[1..])))
  }

  ghost function Run(s: State, acts: seq<Action>): (t: State)
    requires Loose(s) && CanRun(s, acts)
    ensures Loose(t)
    decreases |acts|
  {
    if acts == [] then s
    else
      NextKeepsLoose(s, acts[0]);
      Run(Next(s, acts[0]), acts[1..])
  }

  /** Every command of the run has an event of its own. */
  ghost predicate Fresh(acts: seq<Action>) {
    forall a :: a in acts ==> !a.Recycle?
  }

  lemma {:induction false} RunKeepsValid(s: State, acts: seq<Action>)
    requires Valid(s) && CanRun(s, acts) && Fresh(acts)
    ensures Valid(Run(s, acts))
    decreases |acts|
  {
    if acts != [] {
      assert acts[0] in acts;
      NextKeepsValid(s, acts[0]);
      RunKeepsValid(Next(s, acts[0]), acts[1..]);
    }
  }

  lemma RunFirst(s: State, a: Action, t: State, rest: seq<Action>)
    requires Loose(s) && Enabled(s, a) && t == Next(s, a) && Loose(t) && CanRun(t, rest)
    ensures CanRun(s, [a] + rest) && Run(s, [a] + rest) == Run(t, rest)
  {
    assert ([a] + rest)[1..] == rest;
  }

  lemma {:induction false} RunConcat(s: State, a: seq<Action>, b: seq<Action>)
    requires Loose(s) && CanRun(s, a) && CanRun(Run(s, a), b)
    ensures CanRun(s, a + b) && Run(s, a + b) == Run(Run(s, a), b)
    decreases |a|
  {
    if a == [] {
      assert a + b == b;
    } else {
      NextKeepsLoose(s, a[0]);
      assert (a + b)[1..] == a[1..] + b;
      RunConcat(Next(s, a[0]), a[1..], b);
    }
  }

  /** Over every run from the start, events used again included: a command about to be executed waits for nothing that is not COMPLETE. */
  lemma NothingStartsEarly(acts: seq<Action>)
    requires CanRun(INITIAL, acts)
    ensures var t := Run(INITIAL, acts); t.ready != [] ==> AllComplete(t, t.nodes[t.ready[0]].waits)
  {
    var t := Run(INITIAL, acts);
    if t.ready != [] { StartsAfterItsWaits(t); }
  }

  // ---------- the scheduling loop ----------

  function Total(queues: seq<seq<EventId>>): nat {
    if queues == [] then 0 else |queues[0]| + Total(queues[1..])
  }

  lemma {:induction false} TotalUpdate(queues: seq<seq<EventId>>, q: nat, Q: seq<EventId>)
    requires q < |queues|
    ensures Total(queues[q := Q]) == Total(queues) - |queues[q]| + |Q|
    decreases |queues|
  {
    if q > 0 {
      assert queues[q := Q][1..] == queues[1..][q - 1 := Q];
      TotalUpdate(queues[1..], q - 1, Q);
    } else {
      assert queues[q := Q][1..] == queues[1..];
    }
  }

  /** Place k of a wait list holds an event that is neither COMPLETE nor SUBMITTED, and every later place one that is. */
  ghost predicate LastAt(s: State, waits: seq<EventId>, k: nat) {
    && k < |waits| && !Satisfied(s, waits[k])
    && forall j :: k < j < |waits| ==> Satisfied(s, waits[j])
  }

  /** The last event of a wait list that is neither COMPLETE nor SUBMITTED. */
  function LastUnsatisfied(s: State, waits: seq<EventId>): (r: int)
    ensures -1 <= r
    ensures r < 0 <==> forall w :: w in waits ==> Satisfied(s, w)
    ensures r >= 0 ==> r in waits && !Satisfied(s, r)
  {
    if waits == [] then -1
    else if !Satisfied(s, waits[|waits| - 1]) then waits[|waits| - 1]
    else
      assert waits == waits[..|waits| - 1] + [waits[|waits| - 1]];
      LastUnsatisfied(s, waits[..|waits| - 1])
  }

  /** It depends on the status alone. */
  lemma {:induction false} SameWaits(s: State, t: State, waits: seq<EventId>)
    requires s.status == t.status
    ensures LastUnsatisfied(s, waits) == LastUnsatisfied(t, waits)
  {
    if waits != [] && Satisfied(s, waits[|waits| - 1]) { SameWaits(s, t, waits[..|waits| - 1]); }
  }

  lemma {:induction false} UnsatisfiedIsLast(s: State, waits: seq<EventId>)
    requires LastUnsatisfied(s, waits) >= 0
    ensures exists k: nat :: LastAt(s, waits, k) && waits[k] == LastUnsatisfied(s, waits)
  {
    var last: nat := |waits| - 1;
    if Satisfied(s, waits[last]) {
      UnsatisfiedIsLast(s, waits[..last]);
      var k: nat :| LastAt(s, waits[..last], k) && waits[..last][k] == LastUnsatisfied(s, waits[..last]);
      assert LastAt(s, waits, k);
    } else {
      assert LastAt(s, waits, last);
    }
  }

  /** There is only one such place. */
  lemma LastIsOne(s: State, waits: seq<EventId>, k: nat)
    requires LastAt(s, waits, k)
    ensures LastUnsatisfied(s, waits) == waits[k]
  {
    UnsatisfiedIsLast(s, waits);
    var j: nat :| LastAt(s, waits, j) && waits[j] == LastUnsatisfied(s, waits);
    assert j == k;
  }

  /** The rank of the queue at hand: what its head transitively needs; an empty queue ranks above every head. */
  ghost function Rank(s: State, at: QueueId): nat
    requires NodesKnown(s) && at < |s.queues|
  {
    if s.queues[at] == [] then |s.nodes| + 1 else |Reach(s, s.queues[at][0])|
  }

  lemma RankOfHead(s: State, at: QueueId)
    requires NodesKnown(s) && at < |s.queues| && s.queues[at] != []
    ensures Rank(s, at) <= |s.nodes|
  {
    ReachSize(s, s.queues[at][0]);
  }

  /** The head of the queue hopped to is needed by the head that was left. */
  lemma HopNeeds(s: State, at: QueueId, w: EventId)
    requires Loose(s) && at < |s.queues| && s.queues[at] != []
    requires s.queues[at][0] < |s.nodes| && w in s.nodes[s.queues[at][0]].waits && !Satisfied(s, w)
    ensures w < |s.nodes| && s.nodes[w].queue < |s.queues| && w in s.queues[s.nodes[w].queue]
    ensures Depends(s, s.queues[at][0], s.queues[s.nodes[w].queue][0])
  {
    var c := s.queues[at][0];
    assert Queue(s, at) && Placed(s, w);
    var Q := s.queues[s.nodes[w].queue];
    var j :| 0 <= j < |Q| && Q[j] == w;
    assert Queue(s, s.nodes[w].queue);
    assert Needs(s, c, w);
    NeedsDepends(s, c, w);
    if j > 0 {
      assert Ahead(s, Q[0], w);
      NeedsDepends(s, w, Q[0]);
      DependsTransitive(s, c, w, Q[0]);
    }
  }

  lemma HopDescends(s: State, at: QueueId, w: EventId)
    requires Schedulable(s) && at < |s.queues| && s.queues[at] != []
    requires s.queues[at][0] < |s.nodes| && w in s.nodes[s.queues[at][0]].waits && !Satisfied(s, w)
    ensures w < |s.nodes| && s.nodes[w].queue < |s.queues| && s.queues[s.nodes[w].queue] != []
    ensures Rank(s, s.nodes[w].queue) < Rank(s, at)
  {
    SchedulableIs(s);
    HopNeeds(s, at, w);
    ReachShrinks(s, s.queues[at][0], s.queues[s.nodes[w].queue][0]);
  }

  /** Bounds that the loop reads its queues and nodes with. */
  lemma HeadKnown(s: State, at: QueueId)
    requires Schedulable(s) && at < |s.queues| && s.queues[at] != []
    ensures NodesKnown(s) && s.queues[at][0] < |s.nodes|
    ensures forall w :: w in s.nodes[s.queues[at][0]].waits ==> w < |s.nodes|
  {
    SchedulableIs(s);
    assert Queue(s, at);
  }

  /**
   clFinish's scheduling loop, from the queue at hand `at`, until queue `target` is empty.
   That this recursion is well founded is the termination of the loop: every turn removes a
   command, or leaves an empty queue, or moves to a head that the current one needs.
   */
  function Drain(s: State, target: QueueId, at: QueueId): (t: State)
    requires Schedulable(s) && target < |s.queues| && at < |s.queues|
    ensures Schedulable(t) && (Valid(s) ==> Valid(t)) && |t.queues| == |s.queues| && t.queues[target] == []
    ensures t == s.(status := t.status, queues := t.queues, ready := t.ready)
    decreases Total(s.queues), Rank(s, at)
  {
    if s.queues[target] == [] then s
    else if s.queues[at] == [] then
      RankOfHead(s, target);
      Drain(s, target, target)
    else
      HeadKnown(s, at);
      var w := LastUnsatisfied(s, s.nodes[s.queues[at][0]].waits);
      if w >= 0 then
        HopDescends(s, at, w);
        Drain(s, target, s.nodes[w].queue)
      else
        SubmitDescends(s, at);
        Drain(Submitting(s, at), target, at)
  }

  lemma SubmitDescends(s: State, q: QueueId)
    requires Schedulable(s) && Enabled(s, Submit(q))
    ensures Schedulable(Submitting(s, q)) && (Valid(s) ==> Valid(Submitting(s, q)))
    ensures Total(Submitting(s, q).queues) < Total(s.queues)
  {
    SubmitKeepsSchedulable(s, q);
    TotalUpdate(s.queues, q, s.queues[q][1..]);
  }

  /** exec_commands: runs the ready list from its head to its end. */
  function ExecAll(s: State): (t: State)
    requires Schedulable(s)
    ensures Schedulable(t) && (Valid(s) ==> Valid(t)) && t.ready == []
    ensures t.nodes == s.nodes && t.queues == s.queues && |t.bufs| == |s.bufs|
    decreases |s.ready|
  {
    if s.ready == [] then s
    else
      ExecKeepsSchedulable(s);
      ExecAll(Executing(s))
  }

  function Finished(s: State, q: QueueId): (t: State)
    requires Schedulable(s) && q < |s.queues|
    ensures Schedulable(t) && (Valid(s) ==> Valid(t)) && t.ready == [] && t.nodes == s.nodes && |t.queues| == |s.queues|
    ensures t.queues[q] == [] && |t.bufs| == |s.bufs|
  {
    ExecAll(Drain(s, q, q))
  }

  /** One turn of exec_commands. */
  lemma ExecAllTurns(s: State, t: State)
    requires Schedulable(s) && s.ready != [] && NodesKnown(s) && ReadyOk(s) && Executing(s) == t
    ensures Schedulable(t) && ExecAll(s) == ExecAll(t)
  {
    ExecKeepsSchedulable(s);
  }

  // ---------- a finish is a run of submissions and then of executions ----------

  lemma {:induction false} DrainIsRun(s: State, target: QueueId, at: QueueId) returns (acts: seq<Action>)
    requires Schedulable(s) && target < |s.queues| && at < |s.queues|
    ensures forall a :: a in acts ==> a.Submit?
    ensures CanRun(s, acts) && Run(s, acts) == Drain(s, target, at)
    decreases Total(s.queues), Rank(s, at)
  {
    acts := [];
    if s.queues[target] == [] {
    } else if s.queues[at] == [] {
      RankOfHead(s, target);
      acts := DrainIsRun(s, target, target);
    } else {
      HeadKnown(s, at);
      var w := LastUnsatisfied(s, s.nodes[s.queues[at][0]].waits);
      if w >= 0 {
        HopDescends(s, at, w);
        acts := DrainIsRun(s, target, s.nodes[w].queue);
      } else {
        SubmitDescends(s, at);
        var rest := DrainIsRun(Submitting(s, at), target, at);
        RunFirst(s, Submit(at), Submitting(s, at), rest);
        acts := [Submit(at)] + rest;
      }
    }
  }

  lemma {:induction false} ExecAllIsRun(s: State) returns (acts: seq<Action>)
    requires Schedulable(s)
    ensures forall a :: a in acts ==> a.Exec?
    ensures CanRun(s, acts) && Run(s, acts) == ExecAll(s)
    decreases |s.ready|
  {
    acts := [];
    if s.ready != [] {
      ExecKeepsSchedulable(s);
      var rest := ExecAllIsRun(Executing(s));
      RunFirst(s, Exec, Executing(s), rest);
      acts := [Exec] + rest;
    }
  }

  lemma FinishIsRun(s: State, q: QueueId) returns (acts: seq<Action>)
    requires Schedulable(s) && q < |s.queues|
    ensures forall a :: a in acts ==> a.Submit? || a.Exec?
    ensures CanRun(s, acts) && Run(s, acts) == Finished(s, q)
  {
    var a := DrainIsRun(s, q, q);
    var b := ExecAllIsRun(Drain(s, q, q));
    RunConcat(s, a, b);
    acts := a + b;
  }

  // ---------- conservation ----------

  /** The commands of queue q in a list, in the order of the list. */
  function Of(nodes: seq<Node>, list: seq<EventId>, q: QueueId): seq<EventId> {
    if list == [] then []
    else (if list[0] < |nodes| && nodes[list[0]].queue == q then [list[0]] else []) + Of(nodes, list[1..], q)
  }

  lemma {:induction false} OfConcat(nodes: seq<Node>, a: seq<EventId>, b: seq<EventId>, q: QueueId)
    ensures Of(nodes, a + b, q) == Of(nodes, a, q) + Of(nodes, b, q)
    decreases |a|
  {
    if a == [] {
      assert a + b == b;
    } else {
      assert (a + b)[1..] == a[1..] + b;
      OfConcat(nodes, a[1..], b, q);
    }
  }

  lemma OfHead(nodes: seq<Node>, queues: seq<seq<EventId>>, at: QueueId, q: QueueId, before: seq<EventId>)
    requires at < |queues| && q < |queues| && queues[at] != []
    requires queues[at][0] < |nodes| && nodes[queues[at][0]].queue == at
    ensures (before + Of(nodes, [queues[at][0]], q)) + queues[at := queues[at][1..]][q] == before + queues[q]
  {
    var e := queues[at][0];
    assert Of(nodes, [e], q) == (if at == q then [e] else []) + Of(nodes, [], q);
    if at == q { assert queues[q] == [e] + queues[q][1..]; }
  }

  lemma SubmitConserves(s: State, at: QueueId, q: QueueId)
    requires Schedulable(s) && Enabled(s, Submit(at)) && q < |s.queues|
    ensures var t := Submitting(s, at);
      Of(t.nodes, t.ready, q) + t.queues[q] == Of(s.nodes, s.ready, q) + s.queues[q]
  {
    SchedulableIs(s);
    assert Queue(s, at);
    OfConcat(s.nodes, s.ready, [s.queues[at][0]], q);
    OfHead(s.nodes, s.queues, at, q, Of(s.nodes, s.ready, q));
  }

  /**
   Conservation: what the loop submits of a queue, followed by what it leaves in the queue, is
   the queue's old content; so the target is submitted whole and any other queue loses a prefix.
   */
  lemma {:induction false} DrainConserves(s: State, target: QueueId, at: QueueId, q: QueueId)
    requires Schedulable(s) && target < |s.queues| && at < |s.queues| && q < |s.queues|
    ensures var t := Drain(s, target, at);
      Of(s.nodes, t.ready, q) + t.queues[q] == Of(s.nodes, s.ready, q) + s.queues[q]
    decreases Total(s.queues), Rank(s, at)
  {
    if s.queues[target] == [] {
    } else if s.queues[at] == [] {
      RankOfHead(s, target);
      DrainConserves(s, target, target, q);
    } else {
      HeadKnown(s, at);
      var w := LastUnsatisfied(s, s.nodes[s.queues[at][0]].waits);
      if w >= 0 {
        HopDescends(s, at, w);
        DrainConserves(s, target, s.nodes[w].queue, q);
      } else {
        SubmitDescends(s, at);
        SubmitConserves(s, at, q);
        DrainConserves(Submitting(s, at), target, at, q);
      }
    }
  }

  // ---------- between calls ----------

  /** Between calls (no command submitted) an event is QUEUED exactly when its command is in a queue, else COMPLETE. */
  lemma StatusBetweenCalls(s: State, e: EventId)
    requires Loose(s) && s.ready == [] && e < |s.nodes|
    ensures s.status[e] == Queued <==> exists q: nat :: q < |s.queues| && e in s.queues[q]
    ensures s.status[e] == Queued || s.status[e] == Complete
  {
    assert Placed(s, e);
    if q: nat :| q < |s.queues| && e in s.queues[q] {
      assert Queue(s, q);
    }
  }

  lemma {:induction false} DrainCompletesNothing(s: State, target: QueueId, at: QueueId, w: EventId)
    requires Schedulable(s) && target < |s.queues| && at < |s.queues| && w < |s.status|
    ensures var t := Drain(s, target, at); w < |t.status| && (t.status[w] == Complete <==> s.status[w] == Complete)
    decreases Total(s.queues), Rank(s, at)
  {
    if s.queues[target] == [] {
    } else if s.queues[at] == [] {
      RankOfHead(s, target);
      DrainCompletesNothing(s, target, target, w);
    } else {
      HeadKnown(s, at);
      var u := LastUnsatisfied(s, s.nodes[s.queues[at][0]].waits);
      if u >= 0 {
        HopDescends(s, at, u);
        DrainCompletesNothing(s, target, s.nodes[u].queue, w);
      } else {
        SubmitDescends(s, at);
        SchedulableIs(s);
        assert Queue(s, at);
        DrainCompletesNothing(Submitting(s, at), target, at, w);
      }
    }
  }

  lemma {:induction false} ExecAllCompletes(s: State, w: EventId)
    requires Schedulable(s) && w < |s.status|
    ensures var t := ExecAll(s); w < |t.status| && t.status[w] == if w in s.ready then Complete else s.status[w]
    decreases |s.ready|
  {
    if s.ready != [] {
      ExecKeepsSchedulable(s);
      ExecAllCompletes(Executing(s), w);
    }
  }

  /** An event is complete after a finish iff it was before, or the finish submitted its command. */
  lemma FinishCompletesExactly(s: State, q: QueueId, w: EventId)
    requires Schedulable(s) && q < |s.queues| && w < |s.status|
    ensures var t := Finished(s, q);
      w < |t.status| && (t.status[w] == Complete <==> s.status[w] == Complete || w in Drain(s, q, q).ready)
  {
    DrainCompletesNothing(s, q, q, w);
    ExecAllCompletes(Drain(s, q, q), w);
  }

  lemma FinishCompletesQueue(s: State, q: QueueId, e: EventId)
    requires Schedulable(s) && q < |s.queues| && e < |s.nodes| && s.nodes[e].queue == q
    ensures var t := Finished(s, q); e < |t.status| && t.status[e] == Complete
  {
    var t := Finished(s, q);
    SchedulableIs(t);
    assert Placed(t, e);
  }

  /** Event status only moves down, one step at a time between the states a caller can see. */
  ghost predicate StatusAdvances(s: State, t: State) {
    && |s.status| <= |t.status|
    && forall e :: 0 <= e < |s.status| ==>
         t.status[e] == s.status[e]
         || (s.status[e] == Queued && t.status[e] == Submitted)
         || (s.status[e] == Submitted && t.status[e] == Complete)
  }

  lemma NextAdvances(s: State, a: Action)
    requires Loose(s) && Enabled(s, a)
    ensures StatusAdvances(s, Next(s, a))
  {
    if a.Submit? { assert Queue(s, a.q); }
  }
}
