/**
 Which queued command has to be submitted before which, for arbitrary wait lists: a command needs
 the QUEUED events it waits for and everything ahead of it in its queue.
 */
module Waiting {
  import opened Common
  import opened Runtime

  predicate InQueue(s: State, e: EventId) {
    e < |s.status| && s.status[e] == Queued
  }

  /** d is in c's queue, nearer to the head. */
  ghost predicate Ahead(s: State, d: EventId, c: EventId)
    requires NodesKnown(s) && c < |s.nodes|
  {
    var Q := s.queues[s.nodes[c].queue];
    exists i, j :: 0 <= i < j < |Q| && Q[i] == d && Q[j] == c
  }

  ghost predicate Needs(s: State, c: EventId, d: EventId)
    requires NodesKnown(s)
  {
    InQueue(s, c) && InQueue(s, d) && (d in s.nodes[c].waits || Ahead(s, d, c))
  }

  /** A chain of needs from c to d. */
  ghost predicate Path(s: State, p: seq<EventId>, c: EventId, d: EventId)
    requires NodesKnown(s)
    decreases |p|
  {
    && |p| >= 2 && p[0] == c && Needs(s, c, p[1])
    && (if |p| == 2 then p[1] == d else Path(s, p[1..], p[1], d))
  }

  ghost predicate Depends(s: State, c: EventId, d: EventId)
    requires NodesKnown(s)
  {
    exists p :: Path(s, p, c, d)
  }

  /** No command needs itself, not even through others. */
  ghost predicate Acyclic(s: State)
    requires NodesKnown(s)
  {
    forall c: EventId :: !Depends(s, c, c)
  }

  lemma NeedsDepends(s: State, c: EventId, d: EventId)
    requires NodesKnown(s) && Needs(s, c, d)
    ensures Depends(s, c, d)
  {
    assert Path(s, [c, d], c, d);
  }

  lemma {:induction false} PathConcat(s: State, p: seq<EventId>, c: EventId, d: EventId, r: seq<EventId>, e: EventId)
    requires NodesKnown(s) && Path(s, p, c, d) && Path(s, r, d, e)
    ensures Path(s, p + r[1..], c, e)
    decreases |p|
  {
    var whole := p + r[1..];
    if |p| == 2 {
      assert whole[1..] == r;
    } else {
      PathConcat(s, p[1..], p[1], d, r, e);
      assert whole[1..] == p[1..] + r[1..];
    }
  }

  lemma DependsTransitive(s: State, c: EventId, d: EventId, e: EventId)
    requires NodesKnown(s) && Depends(s, c, d) && Depends(s, d, e)
    ensures Depends(s, c, e)
  {
    var p :| Path(s, p, c, d);
    var r :| Path(s, r, d, e);
    PathConcat(s, p, c, d, r, e);
  }

  lemma {:induction false} PathEnds(s: State, p: seq<EventId>, c: EventId, d: EventId)
    requires NodesKnown(s) && Path(s, p, c, d)
    ensures InQueue(s, c) && InQueue(s, d)
    decreases |p|
  {
    if |p| > 2 { PathEnds(s, p[1..], p[1], d); }
  }

  // ---------- rank ----------

  /** Everything a command transitively needs. */
  ghost function Reach(s: State, c: EventId): set<EventId>
    requires NodesKnown(s)
  {
    set d: EventId | d < |s.nodes| && Depends(s, c, d)
  }

  lemma ReachSize(s: State, c: EventId)
    requires NodesKnown(s)
    ensures |Reach(s, c)| <= |s.nodes|
  {
    SubsetSize(Reach(s, c), Numbers(|s.nodes|));
  }

  ghost function Numbers(n: nat): (r: set<EventId>)
    ensures |r| == n && forall d: EventId :: d in r <==> d < n
  {
    if n == 0 then {} else Numbers(n - 1) + {n - 1}
  }

  /** In an acyclic state what is needed needs strictly less. */
  lemma ReachShrinks(s: State, c: EventId, d: EventId)
    requires NodesKnown(s) && Acyclic(s) && Depends(s, c, d)
    ensures |Reach(s, d)| < |Reach(s, c)|
  {
    var p :| Path(s, p, c, d);
    PathEnds(s, p, c, d);
    forall e | e in Reach(s, d) ensures e in Reach(s, c) - {d} {
      DependsTransitive(s, c, d, e);
    }
    SubsetSize(Reach(s, d), Reach(s, c) - {d});
  }

  // ---------- how it changes ----------

  ghost predicate NoNewNeeds(s: State, t: State)
    requires NodesKnown(s) && NodesKnown(t)
  {
    forall c: EventId, d: EventId :: Needs(t, c, d) ==> Needs(s, c, d)
  }

  lemma {:induction false} PathBefore(s: State, t: State, p: seq<EventId>, c: EventId, d: EventId)
    requires NodesKnown(s) && NodesKnown(t) && NoNewNeeds(s, t) && Path(t, p, c, d)
    ensures Path(s, p, c, d)
    decreases |p|
  {
    if |p| > 2 { PathBefore(s, t, p[1..], p[1], d); }
  }

  lemma StaysAcyclic(s: State, t: State)
    requires NodesKnown(s) && NodesKnown(t) && NoNewNeeds(s, t) && Acyclic(s)
    ensures Acyclic(t)
  {
    forall c: EventId ensures !Depends(t, c, c) {
      if Depends(t, c, c) {
        var p :| Path(t, p, c, c);
        PathBefore(s, t, p, c, c);
        assert Depends(s, c, c);
      }
    }
  }

  lemma SubmitNeeds(s: State, q: QueueId)
    requires Loose(s) && Enabled(s, Submit(q))
    ensures Loose(Submitting(s, q)) && NoNewNeeds(s, Submitting(s, q))
  {
    var t := Submitting(s, q);
    SubmitKeepsLoose(s, q);
    forall c: EventId, d: EventId | Needs(t, c, d) ensures Needs(s, c, d) {
      if Ahead(t, d, c) { SubmitAhead(s, q, d, c); }
    }
  }

  lemma SubmitAhead(s: State, q: QueueId, d: EventId, c: EventId)
    requires Loose(s) && Enabled(s, Submit(q)) && NodesKnown(Submitting(s, q)) && c < |s.nodes|
    requires Ahead(Submitting(s, q), d, c)
    ensures Ahead(s, d, c)
  {
    var p := s.nodes[c].queue;
    var Q, R := s.queues[p], Submitting(s, q).queues[p];
    var i, j :| 0 <= i < j < |R| && R[i] == d && R[j] == c;
    if p == q { assert Q[i + 1] == d && Q[j + 1] == c; }
  }

  /** A command just queued is not needed by any, and takes no need from the others. */
  lemma EnqueueNeeds(s: State, q: QueueId, waits: seq<EventId>, kind: Kind, op: Memory -> Memory, c: EventId, d: EventId)
    requires Loose(s) && Enabled(s, Enqueue(q, waits, kind, op)) && NodesKnown(Enqueuing(s, q, waits, kind, op))
    ensures Needs(Enqueuing(s, q, waits, kind, op), c, d) ==> d < |s.nodes|
    ensures c < |s.nodes| ==> (Needs(Enqueuing(s, q, waits, kind, op), c, d) <==> Needs(s, c, d))
  {
    var t := Enqueuing(s, q, waits, kind, op);
    assert Queue(s, q);
    if c <= |s.nodes| { OneMoreAhead(s, t, q, d, c); }
  }

  lemma OneMoreAhead(s: State, t: State, q: QueueId, d: EventId, c: EventId)
    requires OneMore(s, t, q) && NodesKnown(s) && NodesKnown(t) && (forall p: nat :: p < |s.queues| ==> Queue(s, p)) && c <= |s.nodes|
    ensures Ahead(t, d, c) ==> d < |s.nodes|
    ensures c < |s.nodes| ==> (Ahead(t, d, c) <==> Ahead(s, d, c))
  {
    var p := t.nodes[c].queue;
    var Q, R := s.queues[p], t.queues[p];
    assert Queue(s, p);
    if Ahead(t, d, c) {
      var i, j :| 0 <= i < j < |R| && R[i] == d && R[j] == c;
      assert i < |Q| && Q[i] == d;
    }
    if c < |s.nodes| && Ahead(s, d, c) {
      var i, j :| 0 <= i < j < |Q| && Q[i] == d && Q[j] == c;
      assert R[i] == d && R[j] == c;
    }
  }

  lemma {:induction false} EnqueuePath(s: State, q: QueueId, waits: seq<EventId>, kind: Kind, op: Memory -> Memory,
                                       p: seq<EventId>, c: EventId, d: EventId)
    requires Loose(s) && Enabled(s, Enqueue(q, waits, kind, op)) && NodesKnown(Enqueuing(s, q, waits, kind, op))
    requires Path(Enqueuing(s, q, waits, kind, op), p, c, d)
    ensures d < |s.nodes| && (c < |s.nodes| ==> Path(s, p, c, d))
    decreases |p|
  {
    EnqueueNeeds(s, q, waits, kind, op, c, p[1]);
    if |p| > 2 { EnqueuePath(s, q, waits, kind, op, p[1..], p[1], d); }
  }

  lemma EnqueueKeepsAcyclic(s: State, q: QueueId, waits: seq<EventId>, kind: Kind, op: Memory -> Memory)
    requires Loose(s) && Acyclic(s) && Enabled(s, Enqueue(q, waits, kind, op))
    ensures Loose(Enqueuing(s, q, waits, kind, op)) && Acyclic(Enqueuing(s, q, waits, kind, op))
  {
    var t := Enqueuing(s, q, waits, kind, op);
    EnqueueKeepsLoose(s, q, waits, kind, op);
    forall c: EventId ensures !Depends(t, c, c) {
      if Depends(t, c, c) {
        var p :| Path(t, p, c, c);
        EnqueuePath(s, q, waits, kind, op, p, c, c);
        assert Depends(s, c, c);
      }
    }
  }

  lemma AsideKeepsAcyclic(s: State, a: Action)
    requires Loose(s) && Acyclic(s) && Enabled(s, a) && Aside(a)
    ensures Loose(Next(s, a)) && Acyclic(Next(s, a))
  {
    var t := Next(s, a);
    OtherKeepsLoose(s, a);
    forall c: EventId, d: EventId | Needs(t, c, d) ensures Needs(s, c, d) {
      if Ahead(t, d, c) { assert Ahead(s, d, c); }
    }
    StaysAcyclic(s, t);
  }

  // ---------- fresh events ----------

  lemma NeedsEarlier(s: State, c: EventId, d: EventId)
    requires Valid(s) && Needs(s, c, d)
    ensures d < c
  {
    if d !in s.nodes[c].waits { assert QueueOk(s, s.nodes[c].queue); }
  }

  lemma {:induction false} PathEarlier(s: State, p: seq<EventId>, c: EventId, d: EventId)
    requires Valid(s) && Path(s, p, c, d)
    ensures d < c
    decreases |p|
  {
    NeedsEarlier(s, c, p[1]);
    if |p| > 2 { PathEarlier(s, p[1..], p[1], d); }
  }

  /** With fresh events every wait is for an earlier command, so there are no cycles. */
  lemma ValidIsAcyclic(s: State)
    requires Valid(s)
    ensures Acyclic(s)
  {
    forall c: EventId ensures !Depends(s, c, c) {
      if Depends(s, c, c) {
        var p :| Path(s, p, c, c);
        PathEarlier(s, p, c, c);
      }
    }
  }

  // ---------- what clFinish accepts ----------

  ghost predicate Schedulable(s: State) {
    Valid(s) || (Loose(s) && Acyclic(s))
  }

  lemma SchedulableIs(s: State)
    requires Schedulable(s)
    ensures Loose(s) && Acyclic(s)
  {
    if Valid(s) { ValidIsAcyclic(s); }
  }

  lemma SubmitKeepsSchedulable(s: State, q: QueueId)
    requires Schedulable(s) && Enabled(s, Submit(q))
    ensures Schedulable(Submitting(s, q)) && (Valid(s) ==> Valid(Submitting(s, q)))
  {
    if Valid(s) {
      NextKeepsValid(s, Submit(q));
    } else {
      SubmitNeeds(s, q);
      StaysAcyclic(s, Submitting(s, q));
    }
  }

  lemma ExecKeepsSchedulable(s: State)
    requires Schedulable(s) && s.ready != []
    ensures NodesKnown(s) && ReadyOk(s)
    ensures Schedulable(Executing(s)) && (Valid(s) ==> Valid(Executing(s)))
  {
    if Valid(s) {
      NextKeepsValid(s, Exec);
    } else {
      var t := Executing(s);
      ExecKeepsLoose(s);
      forall c: EventId, d: EventId | Needs(t, c, d) ensures Needs(s, c, d) {
        if Ahead(t, d, c) { assert Ahead(s, d, c); }
      }
      StaysAcyclic(s, t);
    }
  }

  /** What a caller does between two finishes keeps it, if it queues commands with events of their own. */
  lemma DoKeepsSchedulable(s: State, a: Action)
    requires Schedulable(s) && Enabled(s, a) && (Aside(a) || a.Enqueue?)
    ensures Schedulable(Next(s, a)) && (Valid(s) ==> Valid(Next(s, a)))
  {
    if Valid(s) { NextKeepsValid(s, a); }
    else if a.Enqueue? { EnqueueKeepsAcyclic(s, a.q, a.waits, a.kind, a.op); }
    else { AsideKeepsAcyclic(s, a); }
  }
}
