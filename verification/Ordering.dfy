/**
 Deferred execution against immediate execution.  pocl defers every command to a finish; the
 simple reading of an in-order program runs each command when it is enqueued.  Both agree,
 and so all ways of finishing agree with each other, when commands that no chain of waits
 orders commute.
 */
module Ordering {
  import opened Runtime
  import opened Finish

  /** x is reached from a wait list by following wait lists: it must complete first. */
  ghost predicate Leads(nodes: seq<Node>, x: EventId, waits: seq<EventId>, n: nat)
    requires WaitsEarlier(nodes) && n <= |nodes| && (forall w :: w in waits ==> w < n)
    decreases n
  {
    exists w :: w in waits && (w == x || Leads(nodes, x, nodes[w].waits, w))
  }

  ghost predicate Precedes(nodes: seq<Node>, x: EventId, y: EventId)
    requires WaitsEarlier(nodes) && y < |nodes|
  {
    Leads(nodes, x, nodes[y].waits, y)
  }

  ghost predicate CommuteOn(f: Memory -> Memory, g: Memory -> Memory, m: Memory) {
    f(g(m)) == g(f(m))
  }

  ghost predicate Commute(f: Memory -> Memory, g: Memory -> Memory) {
    forall m :: CommuteOn(f, g, m)
  }

  /** Everything that leads to completed waits is complete. */
  lemma {:induction false} CompleteBefore(s: State, x: EventId, waits: seq<EventId>, n: nat)
    requires Valid(s) && n <= |s.nodes| && (forall w :: w in waits ==> w < n)
    requires AllComplete(s, waits) && Leads(s.nodes, x, waits, n)
    ensures x < n && s.status[x] == Complete
    decreases n
  {
    var w :| w in waits && (w == x || Leads(s.nodes, x, s.nodes[w].waits, w));
    if w != x { CompleteBefore(s, x, s.nodes[w].waits, w); }
  }

  lemma {:induction false} LeadsAppend(nodes: seq<Node>, more: seq<Node>, x: EventId, waits: seq<EventId>, n: nat)
    requires WaitsEarlier(nodes) && WaitsEarlier(nodes + more) && n <= |nodes| && (forall w :: w in waits ==> w < n)
    requires Leads(nodes, x, waits, n)
    ensures Leads(nodes + more, x, waits, n)
    decreases n
  {
    var w :| w in waits && (w == x || Leads(nodes, x, nodes[w].waits, w));
    if w != x { LeadsAppend(nodes, more, x, nodes[w].waits, w); }
  }

  /** The memory once the first n commands have all run: those still pending are run in creation order. */
  ghost function Settle(nodes: seq<Node>, status: seq<Status>, n: nat, m: Memory): Memory
    requires n <= |nodes| == |status|
  {
    if n == 0 then m
    else
      var before := Settle(nodes, status, n - 1, m);
      if status[n - 1] == Complete then before else nodes[n - 1].op(before)
  }

  ghost function Settled(s: State): Memory
    requires |s.nodes| == |s.status|
  {
    Settle(s.nodes, s.status, |s.nodes|, s.mem)
  }

  ghost predicate CommutesBelow(nodes: seq<Node>, status: seq<Status>, n: nat, f: Memory -> Memory)
    requires n <= |nodes| == |status|
  {
    forall x :: 0 <= x < n && status[x] != Complete ==> Commute(nodes[x].op, f)
  }

  lemma CommuteAt(f: Memory -> Memory, g: Memory -> Memory, m: Memory)
    requires Commute(f, g)
    ensures f(g(m)) == g(f(m))
  {
    assert CommuteOn(f, g, m);
  }

  lemma {:induction false} SettleCommutes(nodes: seq<Node>, status: seq<Status>, n: nat, m: Memory, f: Memory -> Memory)
    requires n <= |nodes| == |status| && CommutesBelow(nodes, status, n, f)
    ensures Settle(nodes, status, n, f(m)) == f(Settle(nodes, status, n, m))
  {
    if n > 0 {
      SettleCommutes(nodes, status, n - 1, m, f);
      if status[n - 1] != Complete { CommuteAt(nodes[n - 1].op, f, Settle(nodes, status, n - 1, m)); }
    }
  }

  /** Running command e now instead of in its turn changes nothing, if the pending ones before it commute with it. */
  lemma {:induction false} SettleExec(nodes: seq<Node>, status: seq<Status>, n: nat, m: Memory, e: EventId)
    requires e < n <= |nodes| == |status| && status[e] != Complete
    requires CommutesBelow(nodes, status, e, nodes[e].op)
    ensures Settle(nodes, status[e := Complete], n, nodes[e].op(m)) == Settle(nodes, status, n, m)
  {
    if n == e + 1 {
      SettleCommutes(nodes, status, e, m, nodes[e].op);
      SettlePrefix(nodes, status, status[e := Complete], nodes, e, nodes[e].op(m));
    } else {
      SettleExec(nodes, status, n - 1, m, e);
    }
  }

  lemma {:induction false} SettlePrefix(nodes: seq<Node>, status: seq<Status>, status': seq<Status>, nodes': seq<Node>, n: nat, m: Memory)
    requires n <= |nodes| == |status| && n <= |nodes'| == |status'|
    requires forall x :: 0 <= x < n ==> nodes[x] == nodes'[x] && (status[x] == Complete <==> status'[x] == Complete)
    ensures Settle(nodes, status, n, m) == Settle(nodes', status', n, m)
  {
    if n > 0 { SettlePrefix(nodes, status, status', nodes', n - 1, m); }
  }

  lemma {:induction false} SettleNothing(nodes: seq<Node>, status: seq<Status>, n: nat, m: Memory)
    requires n <= |nodes| == |status| && forall x :: 0 <= x < n ==> status[x] == Complete
    ensures Settle(nodes, status, n, m) == m
  {
    if n > 0 { SettleNothing(nodes, status, n - 1, m); }
  }

  // ---------- the hypothesis ----------

  /** Two pending commands are ordered by waits, or they commute. */
  ghost predicate OrderedOrCommute(s: State)
    requires NodesOk(s)
  {
    forall x, y :: 0 <= x < y < |s.nodes| && s.status[x] != Complete && s.status[y] != Complete ==>
      Precedes(s.nodes, x, y) || Commute(s.nodes[x].op, s.nodes[y].op)
  }

  /**
   A new command is ordered after, or commutes with, each pending one; the host commutes with all of them;
   and events are fresh.
   */
  ghost predicate Harmless(s: State, a: Action)
    requires Valid(s) && Enabled(s, a)
  {
    match a
    case Enqueue(q, waits, _, op) =>
      NewWaits(s, q, waits);
      forall x :: 0 <= x < |s.nodes| && s.status[x] != Complete ==>
        Leads(s.nodes, x, WaitList(s, q, waits), |s.nodes|) || Commute(s.nodes[x].op, op)
    case Touch(op) => CommutesBelow(s.nodes, s.status, |s.nodes|, op)
    case Recycle(_) => false
    case _ => true
  }

  lemma NewWaits(s: State, q: QueueId, waits: seq<EventId>)
    requires Valid(s) && q < |s.queues| && Below(waits, |s.nodes|)
    ensures forall w :: w in WaitList(s, q, waits) ==> w < |s.nodes|
  {
    assert QueueOk(s, q);
  }

  ghost predicate HarmlessRun(s: State, acts: seq<Action>)
    requires Valid(s) && CanRun(s, acts)
    decreases |acts|
  {
    acts == [] || (Harmless(s, acts[0]) && (NextKeepsValid(s, acts[0]); HarmlessRun(Next(s, acts[0]), acts[1..])))
  }

  // ---------- one action ----------

  lemma PrecedesSame(s: State, t: State)
    requires NodesOk(s) && NodesOk(t) && s.nodes <= t.nodes
    requires OrderedOrCommute(s)
    ensures forall x, y :: 0 <= x < y < |s.nodes| && s.status[x] != Complete && s.status[y] != Complete ==>
              Precedes(t.nodes, x, y) || Commute(t.nodes[x].op, t.nodes[y].op)
  {
    var more := t.nodes[|s.nodes|..];
    assert t.nodes == s.nodes + more;
    forall x, y | 0 <= x < y < |s.nodes| && s.status[x] != Complete && s.status[y] != Complete && Precedes(s.nodes, x, y)
      ensures Precedes(t.nodes, x, y)
    {
      LeadsAppend(s.nodes, more, x, s.nodes[y].waits, y);
    }
  }

  lemma EnqueueOrdered(s: State, q: QueueId, waits: seq<EventId>, kind: Kind, op: Memory -> Memory)
    requires Valid(s) && Enabled(s, Enqueue(q, waits, kind, op)) && Harmless(s, Enqueue(q, waits, kind, op))
    requires OrderedOrCommute(s)
    ensures NodesOk(Enqueuing(s, q, waits, kind, op)) && OrderedOrCommute(Enqueuing(s, q, waits, kind, op))
  {
    EnqueueKeepsStatus(s, q, waits, kind, op);
    var t := Enqueuing(s, q, waits, kind, op);
    PrecedesSame(s, t);
    NewWaits(s, q, waits);
    var n := |s.nodes|;
    assert t.nodes == s.nodes + [t.nodes[n]] && t.nodes[n].waits == WaitList(s, q, waits) && t.nodes[n].op == op;
    forall x | 0 <= x < n && t.status[x] != Complete ensures Precedes(t.nodes, x, n) || Commute(t.nodes[x].op, t.nodes[n].op) {
      if Leads(s.nodes, x, WaitList(s, q, waits), n) {
        LeadsAppend(s.nodes, [t.nodes[n]], x, WaitList(s, q, waits), n);
      }
    }
  }

  lemma ExecSettles(s: State)
    requires Valid(s) && s.ready != [] && OrderedOrCommute(s)
    ensures Settled(Executing(s)) == Settled(s)
  {
    var e := s.ready[0];
    StartsAfterItsWaits(s);
    forall x | 0 <= x < e && s.status[x] != Complete ensures Commute(s.nodes[x].op, s.nodes[e].op) {
      if Precedes(s.nodes, x, e) { CompleteBefore(s, x, s.nodes[e].waits, e); }
    }
    SettleExec(s.nodes, s.status, |s.nodes|, s.mem, e);
  }

  /** What an action does to memory when commands run at their enqueue. */
  function EagerNext(m: Memory, a: Action): Memory {
    match a
    case Enqueue(_, _, _, op) => op(m)
    case Touch(op) => op(m)
    case _ => m
  }

  lemma EnqueueSettles(s: State, q: QueueId, waits: seq<EventId>, kind: Kind, op: Memory -> Memory)
    requires Valid(s) && Enabled(s, Enqueue(q, waits, kind, op))
    ensures Settled(Enqueuing(s, q, waits, kind, op)) == op(Settled(s))
  {
    var t := Enqueuing(s, q, waits, kind, op);
    SettlePrefix(s.nodes, s.status, t.status, t.nodes, |s.nodes|, s.mem);
  }

  lemma SubmitSettles(s: State, q: QueueId)
    requires Valid(s) && Enabled(s, Submit(q))
    ensures Settled(Submitting(s, q)) == Settled(s)
  {
    assert QueueOk(s, q);
    SettlePrefix(s.nodes, s.status, Submitting(s, q).status, s.nodes, |s.nodes|, s.mem);
  }

  lemma DeadNodeSettles(s: State, q: QueueId, retained: seq<BufferId>)
    requires Valid(s) && Enabled(s, NativeFailed(q, retained))
    ensures var t := Next(s, NativeFailed(q, retained)); |t.nodes| == |t.status| && Settled(t) == Settled(s)
  {
    var t := Next(s, NativeFailed(q, retained));
    SettlePrefix(s.nodes, s.status, t.status, t.nodes, |s.nodes|, s.mem);
  }

  /** No other action makes a command pending. */
  lemma OtherPending(s: State, a: Action, x: EventId)
    requires Valid(s) && Enabled(s, a) && !a.Enqueue? && !a.Recycle? && x < |Next(s, a).nodes| == |Next(s, a).status|
    requires Next(s, a).status[x] != Complete
    ensures x < |s.nodes| && s.status[x] != Complete
  {
    if a.Submit? { assert QueueOk(s, a.q); }
  }

  lemma OtherOrdered(s: State, a: Action)
    requires Valid(s) && Enabled(s, a) && !a.Enqueue? && !a.Recycle? && OrderedOrCommute(s)
    ensures NodesOk(Next(s, a)) && OrderedOrCommute(Next(s, a))
  {
    NextKeepsValid(s, a);
    var t := Next(s, a);
    PrecedesSame(s, t);
    forall x | 0 <= x < |t.nodes| && t.status[x] != Complete ensures x < |s.nodes| && s.status[x] != Complete {
      OtherPending(s, a, x);
    }
  }

  lemma NextSettles(s: State, a: Action)
    requires Valid(s) && Enabled(s, a) && Harmless(s, a) && OrderedOrCommute(s)
    ensures Valid(Next(s, a)) && OrderedOrCommute(Next(s, a))
    ensures Settled(Next(s, a)) == EagerNext(Settled(s), a)
  {
    NextKeepsValid(s, a);
    match a
    case Enqueue(q, waits, kind, op) =>
      EnqueueOrdered(s, q, waits, kind, op);
      EnqueueSettles(s, q, waits, kind, op);
    case Submit(q) =>
      OtherOrdered(s, a);
      SubmitSettles(s, q);
    case Exec =>
      OtherOrdered(s, a);
      ExecSettles(s);
    case NativeFailed(q, retained) =>
      OtherOrdered(s, a);
      DeadNodeSettles(s, q, retained);
    case Touch(op) =>
      OtherOrdered(s, a);
      SettleCommutes(s.nodes, s.status, |s.nodes|, s.mem, op);
    case _ =>
      OtherOrdered(s, a);
  }

  // ---------- runs ----------

  function Eager(m: Memory, acts: seq<Action>): Memory
    decreases |acts|
  {
    if acts == [] then m else Eager(EagerNext(m, acts[0]), acts[1..])
  }

  /** Along any harmless run, running what is pending gives the memory of running every command at its enqueue. */
  lemma {:induction false} LazyRefinesEager(s: State, acts: seq<Action>)
    requires Valid(s) && CanRun(s, acts) && HarmlessRun(s, acts) && OrderedOrCommute(s)
    ensures Valid(Run(s, acts)) && OrderedOrCommute(Run(s, acts))
    ensures Settled(Run(s, acts)) == Eager(Settled(s), acts)
    decreases |acts|
  {
    if acts != [] {
      NextSettles(s, acts[0]);
      LazyRefinesEager(Next(s, acts[0]), acts[1..]);
    }
  }

  /** With nothing pending, memory itself is the immediate one. */
  lemma SettledWhenFinished(s: State)
    requires Valid(s) && s.ready == [] && forall q :: 0 <= q < |s.queues| ==> s.queues[q] == []
    ensures Settled(s) == s.mem
  {
    SettleNothing(s.nodes, s.status, |s.nodes|, s.mem);
  }
}
