/**
 Events used again.  pocl_mem_management.c hands the event of a finished command that nobody holds
 to a new command, while wait lists of commands still queued may name it: such a command then waits
 for the new one.
 */
module Recycling {
  import opened Runtime
  import opened Waiting
  import opened Termination
  import opened Programs

  // ---------- needs after an event has changed hands ----------

  ghost predicate CanRecycle(t: State, e: EventId) {
    Loose(t) && Enabled(t, Recycle(e)) && NodesKnown(Recycled(t, e))
  }

  function Newest(t: State): EventId
    requires t.nodes != []
  {
    |t.nodes| - 1
  }

  /** Whoever is queued and names the event now needs the newest command; nothing else changes. */
  lemma RecycledNeeds(t: State, e: EventId, c: EventId, d: EventId)
    requires CanRecycle(t, e)
    ensures Needs(Recycled(t, e), c, d)
            <==> Needs(t, c, d) || (d == Newest(t) && InQueue(t, c) && e in t.nodes[c].waits)
  {
    if c < |t.nodes| {
      assert Recycled(t, e).nodes[c].waits == Renamed(t.nodes[c].waits, e, Newest(t));
      assert Ahead(Recycled(t, e), d, c) <==> Ahead(t, d, c);
    }
  }

  lemma {:induction false} RecycledKeepsPath(t: State, e: EventId, p: seq<EventId>, c: EventId, d: EventId)
    requires CanRecycle(t, e) && Path(t, p, c, d)
    ensures Path(Recycled(t, e), p, c, d)
    decreases |p|
  {
    RecycledNeeds(t, e, c, p[1]);
    if |p| > 2 { RecycledKeepsPath(t, e, p[1..], p[1], d); }
  }

  /** A command is the newest, or the newest needs it. */
  ghost predicate BeforeNewest(t: State, d: EventId)
    requires NodesKnown(t) && t.nodes != []
  {
    d < |t.nodes| && (d == Newest(t) || Depends(t, Newest(t), d))
  }

  /** Nothing that has to run before the newest command names the event. */
  ghost predicate NobodyNames(t: State, e: EventId)
    requires NodesKnown(t) && t.nodes != []
  {
    forall d: EventId :: BeforeNewest(t, d) ==> e !in t.nodes[d].waits
  }

  /** Then what the newest command needs it needed before. */
  lemma {:induction false} UnnamedPath(t: State, e: EventId, p: seq<EventId>, c: EventId, d: EventId)
    requires CanRecycle(t, e) && NobodyNames(t, e) && BeforeNewest(t, c) && Path(Recycled(t, e), p, c, d)
    ensures Depends(t, c, d)
    decreases |p|
  {
    RecycledNeeds(t, e, c, p[1]);
    NeedsDepends(t, c, p[1]);
    if |p| > 2 {
      if c != Newest(t) { DependsTransitive(t, Newest(t), c, p[1]); }
      UnnamedPath(t, e, p[1..], p[1], d);
      DependsTransitive(t, c, p[1], d);
    }
  }

  /** Any chain of needs was there before or comes to the newest command. */
  lemma {:induction false} NewPath(t: State, e: EventId, p: seq<EventId>, c: EventId, d: EventId)
    requires CanRecycle(t, e) && Path(Recycled(t, e), p, c, d)
    ensures Depends(t, c, d) || d == Newest(t) || Depends(Recycled(t, e), Newest(t), d)
    decreases |p|
  {
    RecycledNeeds(t, e, c, p[1]);
    if Needs(t, c, p[1]) { NeedsDepends(t, c, p[1]); }
    if |p| > 2 {
      assert Depends(Recycled(t, e), p[1], d);
      NewPath(t, e, p[1..], p[1], d);
      if Needs(t, c, p[1]) && Depends(t, p[1], d) { DependsTransitive(t, c, p[1], d); }
    }
  }

  lemma UnnamedStaysAcyclic(t: State, e: EventId, c: EventId)
    requires CanRecycle(t, e) && Acyclic(t) && NobodyNames(t, e)
    ensures !Depends(Recycled(t, e), c, c)
  {
    var r, n := Recycled(t, e), Newest(t);
    if Depends(r, c, c) {
      var p :| Path(r, p, c, c);
      NewPath(t, e, p, c, c);
      if c != n && !Depends(t, c, c) {
        var back :| Path(r, back, n, c);
        UnnamedPath(t, e, back, n, c);
        PathEnds(r, p, c, c);
      }
      if !Depends(t, c, c) { UnnamedPath(t, e, p, c, c); }
    }
  }

  lemma NamedCloses(t: State, e: EventId, d: EventId)
    requires CanRecycle(t, e) && BeforeNewest(t, d) && e in t.nodes[d].waits
    ensures Depends(Recycled(t, e), Newest(t), Newest(t))
  {
    var r, n := Recycled(t, e), Newest(t);
    if d != n {
      var p :| Path(t, p, n, d);
      PathEnds(t, p, n, d);
      RecycledKeepsPath(t, e, p, n, d);
    }
    RecycledNeeds(t, e, d, n);
    NeedsDepends(r, d, n);
    if d != n { DependsTransitive(r, n, d, n); }
  }

  /** The hand-over of an event closes a cycle iff something that has to run before the newest command names it. */
  lemma RecycledAcyclicIff(t: State, e: EventId)
    requires Loose(t) && Acyclic(t) && Enabled(t, Recycle(e))
    ensures Loose(Recycled(t, e)) && (Acyclic(Recycled(t, e)) <==> NobodyNames(t, e))
  {
    RecycleKeepsLoose(t, e);
    if NobodyNames(t, e) {
      forall c: EventId ensures !Depends(Recycled(t, e), c, c) { UnnamedStaysAcyclic(t, e, c); }
    } else {
      var d: EventId :| BeforeNewest(t, d) && e in t.nodes[d].waits;
      NamedCloses(t, e, d);
    }
  }

  // ---------- the same, before the call ----------

  /** A queued command d that a new one has to wait for: it is in its wait list, or needed by one that is. */
  ghost predicate Front(s: State, waits: seq<EventId>, d: EventId)
    requires NodesKnown(s)
  {
    exists w :: w in waits && InQueue(s, w) && (w == d || Depends(s, w, d))
  }

  /** Neither a new command nor any that it has to wait for names the event. */
  ghost predicate NothingNamesReused(s: State, waits: seq<EventId>, e: EventId)
    requires NodesKnown(s)
  {
    e !in waits && forall d: EventId :: d < |s.nodes| && Front(s, waits, d) ==> e !in s.nodes[d].waits
  }

  lemma FrontGrows(s: State, waits: seq<EventId>, c: EventId, d: EventId)
    requires NodesKnown(s) && Front(s, waits, c) && Depends(s, c, d)
    ensures Front(s, waits, d)
  {
    var w :| w in waits && InQueue(s, w) && (w == c || Depends(s, w, c));
    if w != c { DependsTransitive(s, w, c, d); }
  }

  /** What a command just queued needs is at its front. */
  lemma NewNeeds(s: State, a: Action, d: EventId)
    requires Loose(s) && a.Enqueue? && Enabled(s, a) && Loose(Next(s, a))
    ensures Needs(Next(s, a), |s.nodes|, d) ==> d < |s.nodes| && Front(s, WaitList(s, a.q, a.waits), d)
    ensures d in WaitList(s, a.q, a.waits) && InQueue(s, d) ==> Needs(Next(s, a), |s.nodes|, d)
  {
    var t := Next(s, a);
    EnqueueNeeds(s, a.q, a.waits, a.kind, a.op, |s.nodes|, d);
    assert t.nodes[|s.nodes|].waits == WaitList(s, a.q, a.waits);
    if Ahead(t, d, |s.nodes|) { AheadOfNew(s, t, a.q, a.waits, d); }
  }

  lemma AheadOfNew(s: State, t: State, q: QueueId, waits: seq<EventId>, d: EventId)
    requires OneMore(s, t, q) && NodesKnown(s) && Queue(s, q) && NodesKnown(t) && Ahead(t, d, |s.nodes|)
    ensures d < |s.nodes| && Front(s, WaitList(s, q, waits), d)
  {
    var Q, n := s.queues[q], |s.nodes|;
    var R := Q + [n];
    var i, j :| 0 <= i < j < |R| && R[i] == d && R[j] == n;
    assert i < |Q| && Q[i] == d;
    LastIsFront(s, q, waits, i);
  }

  /** Everything in a queue is at the front of a command about to join it. */
  lemma LastIsFront(s: State, q: QueueId, waits: seq<EventId>, i: nat)
    requires NodesKnown(s) && q < |s.queues| && Queue(s, q) && i < |s.queues[q]|
    ensures Front(s, WaitList(s, q, waits), s.queues[q][i])
  {
    var Q := s.queues[q];
    var last := |Q| - 1;
    assert WaitList(s, q, waits)[|waits|] == Q[last];
    assert Q[last] in WaitList(s, q, waits) && InQueue(s, Q[last]);
    if i < last {
      assert Ahead(s, Q[i], Q[last]);
      NeedsDepends(s, Q[last], Q[i]);
    }
  }

  lemma NeededIsFront(s: State, a: Action, d: EventId)
    requires Loose(s) && a.Enqueue? && Enabled(s, a) && Loose(Next(s, a)) && Depends(Next(s, a), |s.nodes|, d)
    ensures d < |s.nodes| && Front(s, WaitList(s, a.q, a.waits), d)
  {
    var p :| Path(Next(s, a), p, |s.nodes|, d);
    NewNeeds(s, a, p[1]);
    if |p| > 2 {
      EnqueuePath(s, a.q, a.waits, a.kind, a.op, p[1..], p[1], d);
      FrontGrows(s, WaitList(s, a.q, a.waits), p[1], d);
    }
  }

  lemma {:induction false} PathAfter(s: State, a: Action, p: seq<EventId>, c: EventId, d: EventId)
    requires Loose(s) && a.Enqueue? && Enabled(s, a) && Loose(Next(s, a)) && Path(s, p, c, d)
    ensures Path(Next(s, a), p, c, d)
    decreases |p|
  {
    EnqueueNeeds(s, a.q, a.waits, a.kind, a.op, c, p[1]);
    if |p| > 2 { PathAfter(s, a, p[1..], p[1], d); }
  }

  lemma FrontIsNeeded(s: State, a: Action, d: EventId)
    requires Loose(s) && a.Enqueue? && Enabled(s, a) && Loose(Next(s, a)) && Front(s, WaitList(s, a.q, a.waits), d)
    ensures Depends(Next(s, a), |s.nodes|, d)
  {
    var t, n := Next(s, a), |s.nodes|;
    var w :| w in WaitList(s, a.q, a.waits) && InQueue(s, w) && (w == d || Depends(s, w, d));
    NewNeeds(s, a, w);
    NeedsDepends(t, n, w);
    if w != d {
      var p :| Path(s, p, w, d);
      PathAfter(s, a, p, w, d);
      DependsTransitive(t, n, w, d);
    }
  }

  lemma NobodyNamesIff(s: State, a: Action, e: EventId)
    requires Loose(s) && a.Enqueue? && Enabled(s, a) && Loose(Next(s, a)) && e < |s.nodes|
    ensures NobodyNames(Next(s, a), e) <==> NothingNamesReused(s, WaitList(s, a.q, a.waits), e)
  {
    var t, n, W := Next(s, a), |s.nodes|, WaitList(s, a.q, a.waits);
    assert t.nodes[n].waits == W && BeforeNewest(t, n);
    forall d: EventId | d < n ensures BeforeNewest(t, d) <==> Front(s, W, d) {
      if Depends(t, n, d) { NeededIsFront(s, a, d); }
      if Front(s, W, d) { FrontIsNeeded(s, a, d); }
    }
  }

  /**
   After a command was queued with the event of a finished one, every clFinish still ends iff
   neither the new command nor any that it has to wait for names that event.
   */
  lemma ReuseEndsIff(s: State, a: Action, e: EventId)
    requires AtRest(s) && Able(s, Reuse(a, e))
    ensures EveryFinishEnds(After(s, Reuse(a, e))) <==> NothingNamesReused(s, WaitList(s, a.q, a.waits), e)
  {
    SchedulableIs(s);
    EnqueueKeepsAcyclic(s, a.q, a.waits, a.kind, a.op);
    RecycledAcyclicIff(Next(s, a), e);
    NobodyNamesIff(s, a, e);
    FinishEndsIff(After(s, Reuse(a, e)));
  }

  // ---------- whole programs ----------

  ghost predicate SafeRequest(s: State, r: Request)
    requires Loose(s) && Able(s, r)
  {
    r.Reuse? ==> NothingNamesReused(s, WaitList(s, r.act.q, r.act.waits), r.e)
  }

  lemma SafeKeepsRest(s: State, r: Request)
    requires AtRest(s) && Able(s, r) && SafeRequest(s, r)
    ensures AtRest(After(s, r))
  {
    if r.Reuse? {
      ReuseEndsIff(s, r.act, r.e);
      FinishEndsIff(After(s, r));
    }
  }

  /** As far as a program gets, every reuse of an event is safe. */
  ghost predicate SafeProgram(s: State, rs: seq<Request>)
    requires AtRest(s)
    decreases |rs|
  {
    rs != [] && Able(s, rs[0]) ==>
      SafeRequest(s, rs[0]) && (SafeKeepsRest(s, rs[0]); SafeProgram(After(s, rs[0]), rs[1..]))
  }

  lemma EndsIsRest(s: State)
    requires Loose(s) && s.ready == []
    ensures EveryFinishEnds(s) <==> AtRest(s)
  {
    FinishEndsIff(s);
    if AtRest(s) { SchedulableIs(s); }
  }

  /** As far as a program gets, any clFinish that it may call ends. */
  ghost predicate EndsThroughout(s: State, rs: seq<Request>)
    requires Loose(s) && s.ready == []
    decreases |rs|
  {
    && EveryFinishEnds(s)
    && (rs != [] && Able(s, rs[0]) ==> (EndsIsRest(s); EndsThroughout(After(s, rs[0]), rs[1..])))
  }

  /** Over any program of calls, reuses of events and finishes: every clFinish ends iff every reuse was safe. */
  lemma {:induction false} ProgramEndsIff(s: State, rs: seq<Request>)
    requires AtRest(s)
    ensures EndsThroughout(s, rs) <==> SafeProgram(s, rs)
    decreases |rs|
  {
    EndsIsRest(s);
    if rs != [] && Able(s, rs[0]) {
      var t := After(s, rs[0]);
      if SafeRequest(s, rs[0]) {
        SafeKeepsRest(s, rs[0]);
        ProgramEndsIff(t, rs[1..]);
      } else {
        ReuseEndsIff(s, rs[0].act, rs[0].e);
      }
    }
  }
}
