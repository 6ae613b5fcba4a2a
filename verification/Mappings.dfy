/**
 Buffer mappings over whole runs: clEnqueueMapBuffer records a mapping at once, the map count
 goes up when the map command runs, and an unmap command takes the record out and the count down.
 */
module Mappings {
  import opened Common
  import opened MappingList
  import opened Runtime
  import opened Finish
  import opened Waiting
  import opened Programs
  import opened Ordering

  /** Map commands of buffer b that have not run. */
  ghost function PendingMaps(s: State, b: BufferId): set<EventId>
    requires |s.nodes| == |s.status|
  {
    set e: EventId | e < |s.nodes| && s.status[e] != Complete && s.nodes[e].kind.Map? && s.nodes[e].kind.buffer == b
  }

  ghost predicate Unmaps(s: State, u: EventId, b: BufferId, m: EventId) {
    u < |s.nodes| && s.nodes[u].kind.Unmap? && s.nodes[u].kind.buffer == b && s.nodes[u].kind.mapping == m
  }

  /** Some unmap of m has run. */
  ghost predicate Unmapped(s: State, b: BufferId, m: EventId)
    requires |s.nodes| == |s.status|
  {
    exists u: EventId :: Unmaps(s, u, b, m) && s.status[u] == Complete
  }

  /** A mapping of b that was made and not unmapped. */
  ghost predicate Live(s: State, b: BufferId, m: EventId)
    requires |s.nodes| == |s.status|
  {
    m < |s.nodes| && s.nodes[m].kind.Map? && s.nodes[m].kind.buffer == b && !Unmapped(s, b, m)
  }

  ghost predicate PendingUnmap(s: State, e: EventId)
    requires |s.nodes| == |s.status|
  {
    e < |s.nodes| && s.status[e] != Complete && s.nodes[e].kind.Unmap?
  }

  ghost predicate Recorded(s: State, b: BufferId, m: EventId) {
    b < |s.bufs| && WellFormed(s.bufs[b].mappings) && m in Content(s.bufs[b].mappings)
  }

  ghost predicate HoldsLive(s: State, b: BufferId)
    requires |s.nodes| == |s.status| && b < |s.bufs|
  {
    WellFormed(s.bufs[b].mappings) && forall m: EventId :: m in Content(s.bufs[b].mappings) <==> Live(s, b, m)
  }

  /**
   The list of b is well formed and holds exactly the mappings made and not unmapped, and its
   length is the map count plus the maps still pending.
   */
  ghost predicate CountsAgree(s: State, b: BufferId)
    requires |s.nodes| == |s.status| && b < |s.bufs|
  {
    HoldsLive(s, b) && |Content(s.bufs[b].mappings)| == s.bufs[b].mapCount + |PendingMaps(s, b)|
  }

  /** Every pending unmap names a recorded mapping, and no two the same. */
  ghost predicate UnmapsOk(s: State)
    requires |s.nodes| == |s.status|
  {
    && (forall e: EventId :: PendingUnmap(s, e) ==> Recorded(s, s.nodes[e].kind.buffer, s.nodes[e].kind.mapping))
    && (forall e: EventId, f: EventId :: PendingUnmap(s, e) && PendingUnmap(s, f) && e != f ==>
          s.nodes[e].kind.mapping != s.nodes[f].kind.mapping)
  }

  ghost predicate NamesKnown(s: State) {
    forall e: EventId :: e < |s.nodes| && s.nodes[e].kind.Unmap? ==> s.nodes[e].kind.mapping < |s.nodes|
  }

  ghost predicate MappingsOk(s: State)
    requires |s.nodes| == |s.status|
  {
    NamesKnown(s) && (forall b: BufferId :: b < |s.bufs| ==> CountsAgree(s, b)) && UnmapsOk(s)
  }

  /** An unmap command is for a recorded mapping that no pending one is for. */
  ghost predicate UnmapOnce(s: State, a: Action)
    requires |s.nodes| == |s.status|
  {
    a.Enqueue? && a.kind.Unmap? ==>
      && Recorded(s, a.kind.buffer, a.kind.mapping)
      && forall e: EventId :: PendingUnmap(s, e) ==> s.nodes[e].kind.mapping != a.kind.mapping
  }

  // ---------- what changes and what does not ----------

  lemma {:induction false} AddRefsKeepsMappings(bufs: seq<Buffer>, ids: seq<BufferId>, d: int, b: BufferId)
    requires Below(ids, |bufs|) && b < |bufs|
    ensures AddRefs(bufs, ids, d)[b].mappings == bufs[b].mappings && AddRefs(bufs, ids, d)[b].mapCount == bufs[b].mapCount
    decreases |ids|
  {
    if ids != [] {
      AddRefsKeepsMappings(bufs[ids[0] := bufs[ids[0]].(refs := bufs[ids[0]].refs + d)], ids[1..], d, b);
    }
  }

  /** The commands of s are still there, whatever they wait for, no further unmap has run, and no new one has. */
  ghost predicate SameUnmaps(s: State, t: State)
    requires |s.nodes| == |s.status| && |t.nodes| == |t.status|
  {
    && |s.nodes| <= |t.nodes|
    && (forall e: EventId :: e < |s.nodes| ==> t.nodes[e].kind == s.nodes[e].kind)
    && (forall e: EventId :: e < |s.nodes| && s.nodes[e].kind.Unmap? ==> (s.status[e] == Complete <==> t.status[e] == Complete))
    && (forall e: EventId :: |s.nodes| <= e < |t.nodes| && t.nodes[e].kind.Unmap? ==> t.status[e] != Complete)
  }

  lemma LiveSame(s: State, t: State, b: BufferId, m: EventId)
    requires |s.nodes| == |s.status| && |t.nodes| == |t.status| && SameUnmaps(s, t) && m < |s.nodes|
    ensures Live(s, b, m) <==> Live(t, b, m)
  {
    if Unmapped(s, b, m) {
      var u: EventId :| Unmaps(s, u, b, m) && s.status[u] == Complete;
      assert Unmaps(t, u, b, m);
    }
    if Unmapped(t, b, m) {
      var u: EventId :| Unmaps(t, u, b, m) && t.status[u] == Complete;
      assert Unmaps(s, u, b, m);
    }
  }

  /** A list that did not change still holds what is live when no map came in. */
  lemma HoldsSame(s: State, t: State, b: BufferId)
    requires |s.nodes| == |s.status| && |t.nodes| == |t.status| && SameUnmaps(s, t)
    requires b < |s.bufs| && b < |t.bufs| && t.bufs[b].mappings == s.bufs[b].mappings && HoldsLive(s, b)
    requires forall e: EventId :: |s.nodes| <= e < |t.nodes| ==> !(t.nodes[e].kind.Map? && t.nodes[e].kind.buffer == b)
    ensures HoldsLive(t, b)
  {
    forall m: EventId ensures Live(s, b, m) <==> Live(t, b, m) {
      if m < |s.nodes| { LiveSame(s, t, b, m); }
    }
  }

  // ---------- enqueueing ----------

  lemma EnqueuePendingMaps(s: State, q: QueueId, waits: seq<EventId>, kind: Kind, op: Memory -> Memory, b: BufferId)
    requires |s.nodes| == |s.status| && q < |s.queues| && UsesIn(kind, |s.bufs|)
    ensures PendingMaps(Enqueuing(s, q, waits, kind, op), b)
            == PendingMaps(s, b) + (if kind.Map? && kind.buffer == b then {|s.nodes|} else {})
  {
  }

  lemma EnqueueBuffers(bufs: seq<Buffer>, e: EventId, kind: Kind, b: BufferId)
    requires UsesIn(kind, |bufs|) && b < |bufs|
    ensures var B, C := bufs[b], BuffersAtEnqueue(bufs, e, kind)[b];
      && C.mapCount == B.mapCount
      && C.mappings == if kind.Map? && kind.buffer == b then Append(B.mappings, e, kind.hostPtr) else B.mappings
  {
    if !kind.Map? { AddRefsKeepsMappings(bufs, Uses(kind), 1, b); }
  }

  lemma EnqueueContent(s: State, q: QueueId, waits: seq<EventId>, kind: Kind, op: Memory -> Memory, b: BufferId)
    requires NodesKnown(s) && Enabled(s, Enqueue(q, waits, kind, op)) && b < |s.bufs| && HoldsLive(s, b) && NamesKnown(s)
    ensures var t := Enqueuing(s, q, waits, kind, op);
      && HoldsLive(t, b)
      && Content(t.bufs[b].mappings) == Content(s.bufs[b].mappings) + (if kind.Map? && kind.buffer == b then [|s.nodes|] else [])
  {
    var t, n := Enqueuing(s, q, waits, kind, op), |s.nodes|;
    EnqueueBuffers(s.bufs, n, kind, b);
    if kind.Map? && kind.buffer == b {
      NewMapping(s, t, b, n, kind.hostPtr);
    } else {
      HoldsSame(s, t, b);
    }
  }

  lemma EnqueueCounts(s: State, q: QueueId, waits: seq<EventId>, kind: Kind, op: Memory -> Memory, b: BufferId)
    requires NodesKnown(s) && Enabled(s, Enqueue(q, waits, kind, op)) && b < |s.bufs| && CountsAgree(s, b) && NamesKnown(s)
    ensures CountsAgree(Enqueuing(s, q, waits, kind, op), b)
    ensures forall m: EventId :: Recorded(s, b, m) ==> Recorded(Enqueuing(s, q, waits, kind, op), b, m)
  {
    EnqueueContent(s, q, waits, kind, op, b);
    EnqueuePendingMaps(s, q, waits, kind, op, b);
    EnqueueBuffers(s.bufs, |s.nodes|, kind, b);
  }

  /** The list with the new mapping at its end holds what is live with the new map command. */
  lemma NewMapping(s: State, t: State, b: BufferId, n: EventId, hostPtr: int)
    requires |s.nodes| == |s.status| == n && |t.nodes| == |t.status| == n + 1 && s.nodes <= t.nodes && SameUnmaps(s, t) && NamesKnown(s)
    requires t.nodes[n].kind.Map? && t.nodes[n].kind.buffer == b && b < |s.bufs| && b < |t.bufs| && HoldsLive(s, b)
    requires t.bufs[b].mappings == Append(s.bufs[b].mappings, n, hostPtr)
    ensures HoldsLive(t, b) && Content(t.bufs[b].mappings) == Content(s.bufs[b].mappings) + [n]
  {
    var ids := Content(s.bufs[b].mappings);
    assert !Live(s, b, n);
    AppendLists(s.bufs[b].mappings, ids, n, hostPtr);
    ContentIs(t.bufs[b].mappings, ids + [n]);
    forall m: EventId ensures m in ids + [n] <==> Live(t, b, m) {
      if m < n { LiveSame(s, t, b, m); } else if m == n { NewIsLive(s, t, b, n); }
    }
  }

  lemma NewIsLive(s: State, t: State, b: BufferId, n: EventId)
    requires |s.nodes| == |s.status| == n && |t.nodes| == |t.status| == n + 1 && s.nodes <= t.nodes && NamesKnown(s)
    requires t.nodes[n].kind.Map? && t.nodes[n].kind.buffer == b
    ensures Live(t, b, n)
  {
    forall u: EventId ensures !Unmaps(t, u, b, n) {
      if u < n && s.nodes[u].kind.Unmap? { assert s.nodes[u].kind.mapping < n; }
    }
  }

  lemma EnqueueMappings(s: State, q: QueueId, waits: seq<EventId>, kind: Kind, op: Memory -> Memory)
    requires Loose(s) && Enabled(s, Enqueue(q, waits, kind, op)) && UnmapOnce(s, Enqueue(q, waits, kind, op)) && MappingsOk(s)
    ensures MappingsOk(Enqueuing(s, q, waits, kind, op))
  {
    var t, n := Enqueuing(s, q, waits, kind, op), |s.nodes|;
    forall b: BufferId | b < |t.bufs|
      ensures CountsAgree(t, b) && forall m: EventId :: Recorded(s, b, m) ==> Recorded(t, b, m)
    {
      EnqueueCounts(s, q, waits, kind, op, b);
    }
    if kind.Unmap? {
      assert CountsAgree(s, kind.buffer) && Live(s, kind.buffer, kind.mapping);
    }
    forall e: EventId | PendingUnmap(t, e)
      ensures Recorded(t, t.nodes[e].kind.buffer, t.nodes[e].kind.mapping) && (e < n ==> PendingUnmap(s, e))
    {
      if e < n { assert PendingUnmap(s, e); }
      EnqueueCounts(s, q, waits, kind, op, t.nodes[e].kind.buffer);
    }
  }

  // ---------- executing ----------

  lemma ExecPendingMaps(s: State, b: BufferId)
    requires NodesKnown(s) && ReadyOk(s) && s.ready != []
    ensures var e := s.ready[0]; var k := s.nodes[e].kind;
      PendingMaps(Executing(s), b) == PendingMaps(s, b) - {e}
      && (e in PendingMaps(s, b) <==> k.Map? && k.buffer == b)
  {
  }

  lemma ExecBuffers(bufs: seq<Buffer>, kind: Kind, b: BufferId)
    requires UsesIn(kind, |bufs|) && b < |bufs|
    ensures var B, C, mine := bufs[b], BuffersAtExec(bufs, kind)[b], (kind.Map? || kind.Unmap?) && kind.buffer == b;
      && C.mapCount == B.mapCount + (if !mine then 0 else if kind.Map? then 1 else -1)
      && C.mappings == if mine && kind.Unmap? then Delete(B.mappings, kind.mapping) else B.mappings
  {
    if !kind.Map? && !kind.Unmap? { AddRefsKeepsMappings(bufs, Uses(kind), -1, b); }
  }

  /** Running an unmap ends the life of one mapping. */
  lemma ExecUnmapLive(s: State, b: BufferId, m: EventId)
    requires NodesKnown(s) && ReadyOk(s) && s.ready != []
    ensures Live(Executing(s), b, m) <==> Live(s, b, m) && !Unmaps(s, s.ready[0], b, m)
  {
    var t, e := Executing(s), s.ready[0];
    if Unmapped(s, b, m) {
      var u: EventId :| Unmaps(s, u, b, m) && s.status[u] == Complete;
      assert Unmaps(t, u, b, m) && t.status[u] == Complete;
    }
    if Unmaps(s, e, b, m) { assert Unmaps(t, e, b, m) && t.status[e] == Complete; }
    if Unmapped(t, b, m) {
      var u: EventId :| Unmaps(t, u, b, m) && t.status[u] == Complete;
      assert Unmaps(s, u, b, m);
    }
  }

  lemma WithoutOne(ids: seq<EventId>, k: nat)
    requires Distinct(ids) && k < |ids|
    ensures |Without(ids, k)| == |ids| - 1
    ensures forall m :: m in Without(ids, k) <==> m in ids && m != ids[k]
  {
    var r := Without(ids, k);
    forall m | m in ids && m != ids[k] ensures m in r {
      var i :| 0 <= i < |ids| && ids[i] == m;
      assert r[if i < k then i else i - 1] == m;
    }
  }

  lemma ExecUnmapCounts(s: State, b: BufferId)
    requires NodesKnown(s) && ReadyOk(s) && s.ready != [] && b < |s.bufs| && CountsAgree(s, b)
    requires var k := s.nodes[s.ready[0]].kind; k.Unmap? && k.buffer == b && k.mapping in Content(s.bufs[b].mappings)
    ensures CountsAgree(Executing(s), b)
  {
    var t, m := Executing(s), s.nodes[s.ready[0]].kind.mapping;
    var ids := Content(s.bufs[b].mappings);
    var k: nat :| k < |ids| && ids[k] == m;
    ExecPendingMaps(s, b);
    DeleteLists(s.bufs[b].mappings, ids, k);
    ContentIs(t.bufs[b].mappings, Without(ids, k));
    WithoutOne(ids, k);
    forall x: EventId ensures x in Without(ids, k) <==> Live(t, b, x) { ExecUnmapLive(s, b, x); }
  }

  lemma ExecCounts(s: State, b: BufferId)
    requires NodesKnown(s) && ReadyOk(s) && s.ready != [] && b < |s.bufs| && CountsAgree(s, b)
    requires var k := s.nodes[s.ready[0]].kind; k.Unmap? && k.buffer == b ==> k.mapping in Content(s.bufs[b].mappings)
    ensures CountsAgree(Executing(s), b)
  {
    var t, k := Executing(s), s.nodes[s.ready[0]].kind;
    if k.Unmap? && k.buffer == b {
      ExecUnmapCounts(s, b);
    } else {
      ExecPendingMaps(s, b);
      ExecBuffers(s.bufs, k, b);
      forall m: EventId ensures Live(t, b, m) <==> Live(s, b, m) { ExecUnmapLive(s, b, m); }
    }
  }

  lemma ExecMappings(s: State)
    requires Loose(s) && s.ready != [] && MappingsOk(s)
    ensures NodesKnown(Executing(s)) && MappingsOk(Executing(s))
  {
    var t, e := Executing(s), s.ready[0];
    var k := s.nodes[e].kind;
    ExecKeepsLoose(s);
    if k.Unmap? { assert PendingUnmap(s, e); }
    forall b: BufferId | b < |t.bufs| ensures CountsAgree(t, b) {
      assert CountsAgree(s, b);
      ExecCounts(s, b);
    }
    forall f: EventId | PendingUnmap(t, f)
      ensures PendingUnmap(s, f) && Recorded(t, t.nodes[f].kind.buffer, t.nodes[f].kind.mapping)
    {
      assert PendingUnmap(s, f) && f != e;
      var b, m := s.nodes[f].kind.buffer, s.nodes[f].kind.mapping;
      assert Recorded(s, b, m);
      assert CountsAgree(s, b) && CountsAgree(t, b);
      ExecUnmapLive(s, b, m);
    }
  }

  // ---------- the other actions ----------

  ghost predicate SameList(s: State, t: State, b: BufferId)
    requires b < |t.bufs|
  {
    if b < |s.bufs| then t.bufs[b].mappings == s.bufs[b].mappings && t.bufs[b].mapCount == s.bufs[b].mapCount
    else t.bufs[b].mappings == EMPTY && t.bufs[b].mapCount == 0
  }

  lemma OtherLists(s: State, a: Action, b: BufferId)
    requires Loose(s) && Enabled(s, a) && !a.Enqueue? && !a.Exec? && b < |Next(s, a).bufs|
    ensures SameList(s, Next(s, a), b)
  {
    match a
    case Retain(held) => AddRefsKeepsMappings(s.bufs, held, 1, b);
    case Release(held) => AddRefsKeepsMappings(s.bufs, held, -1, b);
    case NativeFailed(_, retained) => AddRefsKeepsMappings(s.bufs, retained, 1, b);
    case _ =>
  }

  lemma OtherUnmaps(s: State, a: Action)
    requires Loose(s) && Enabled(s, a) && !a.Enqueue? && !a.Exec?
    ensures NodesKnown(Next(s, a)) && SameUnmaps(s, Next(s, a))
    ensures forall e: EventId :: |s.nodes| <= e < |Next(s, a).nodes| ==> Next(s, a).nodes[e].kind == Marker
    ensures forall b: BufferId :: PendingMaps(Next(s, a), b) == PendingMaps(s, b)
  {
    NextKeepsLoose(s, a);
    if a.Submit? { assert Queue(s, a.q); }
  }

  lemma NothingLive(s: State, b: BufferId)
    requires NodesKnown(s) && b >= |s.bufs|
    ensures PendingMaps(s, b) == {} && forall m: EventId :: !Live(s, b, m)
  {
  }

  lemma EmptyList()
    ensures WellFormed(EMPTY) && Content(EMPTY) == []
  {
    ContentIs(EMPTY, []);
  }

  lemma OtherCounts(s: State, t: State, b: BufferId)
    requires NodesKnown(s) && |t.nodes| == |t.status| && SameUnmaps(s, t) && b < |t.bufs| && SameList(s, t, b)
    requires b < |s.bufs| ==> CountsAgree(s, b)
    requires forall e: EventId :: |s.nodes| <= e < |t.nodes| ==> t.nodes[e].kind == Marker
    requires PendingMaps(t, b) == PendingMaps(s, b)
    ensures CountsAgree(t, b)
  {
    if b < |s.bufs| {
      HoldsSame(s, t, b);
    } else {
      EmptyList();
      NothingLive(s, b);
      forall m: EventId ensures !Live(t, b, m) {
        if m < |s.nodes| { LiveSame(s, t, b, m); }
      }
    }
  }

  lemma OtherMappings(s: State, a: Action)
    requires Loose(s) && Enabled(s, a) && !a.Enqueue? && !a.Exec? && MappingsOk(s)
    ensures NodesKnown(Next(s, a)) && MappingsOk(Next(s, a))
  {
    var t := Next(s, a);
    OtherUnmaps(s, a);
    forall b: BufferId | b < |t.bufs| ensures SameList(s, t, b) && CountsAgree(t, b) {
      OtherLists(s, a, b);
      if b < |s.bufs| { assert CountsAgree(s, b); }
      OtherCounts(s, t, b);
    }
    forall f: EventId | PendingUnmap(t, f)
      ensures PendingUnmap(s, f) && Recorded(t, t.nodes[f].kind.buffer, t.nodes[f].kind.mapping)
    {
      assert PendingUnmap(s, f);
      assert Recorded(s, s.nodes[f].kind.buffer, s.nodes[f].kind.mapping);
      assert SameList(s, t, s.nodes[f].kind.buffer);
    }
  }

  // ---------- whole runs ----------

  lemma NextKeepsMappings(s: State, a: Action)
    requires Loose(s) && Enabled(s, a) && UnmapOnce(s, a) && MappingsOk(s)
    ensures NodesKnown(Next(s, a)) && MappingsOk(Next(s, a))
  {
    match a
    case Enqueue(q, waits, kind, op) =>
      NextKeepsLoose(s, a);
      EnqueueMappings(s, q, waits, kind, op);
    case Exec => ExecMappings(s);
    case _ => OtherMappings(s, a);
  }

  ghost predicate UnmapOnceRun(s: State, acts: seq<Action>)
    requires Loose(s) && CanRun(s, acts)
    decreases |acts|
  {
    acts == [] || (UnmapOnce(s, acts[0]) && (NextKeepsLoose(s, acts[0]); UnmapOnceRun(Next(s, acts[0]), acts[1..])))
  }

  /** Along every run with one unmap per mapping the lists stay well formed and in step with the counts. */
  lemma {:induction false} RunKeepsMappings(s: State, acts: seq<Action>)
    requires Loose(s) && CanRun(s, acts) && UnmapOnceRun(s, acts) && MappingsOk(s)
    ensures MappingsOk(Run(s, acts))
    decreases |acts|
  {
    if acts != [] {
      NextKeepsMappings(s, acts[0]);
      NextKeepsLoose(s, acts[0]);
      RunKeepsMappings(Next(s, acts[0]), acts[1..]);
    }
  }

  // ---------- unmaps that come after their maps ----------

  ghost predicate MapFirst(s: State, e: EventId)
    requires NodesOk(s) && PendingUnmap(s, e)
  {
    var m := s.nodes[e].kind.mapping;
    m < |s.nodes| && (s.status[m] == Complete || Precedes(s.nodes, m, e))
  }

  /** Pending maps are recorded, and no unmap can overtake its map. */
  ghost predicate InOrder(s: State)
    requires NodesOk(s)
  {
    && (forall b: BufferId, m: EventId :: b < |s.bufs| && m in PendingMaps(s, b) ==> Recorded(s, b, m))
    && (forall e: EventId :: PendingUnmap(s, e) ==> MapFirst(s, e))
  }

  /** An unmap is enqueued when its map has run or comes before it, by queue order or wait lists. */
  ghost predicate UnmapAfterMap(s: State, a: Action)
    requires Valid(s) && Enabled(s, a)
  {
    a.Enqueue? && a.kind.Unmap? ==>
      var m := a.kind.mapping;
      m < |s.nodes|
      && (s.status[m] == Complete || (NewWaits(s, a.q, a.waits); Leads(s.nodes, m, WaitList(s, a.q, a.waits), |s.nodes|)))
  }

  lemma KeepsMapFirst(s: State, t: State, e: EventId)
    requires NodesOk(s) && NodesOk(t) && s.nodes <= t.nodes && PendingUnmap(s, e) && PendingUnmap(t, e) && MapFirst(s, e)
    requires forall m: EventId :: m < |s.nodes| && s.status[m] == Complete ==> t.status[m] == Complete
    ensures MapFirst(t, e)
  {
    var m := s.nodes[e].kind.mapping;
    if Precedes(s.nodes, m, e) {
      var more := t.nodes[|s.nodes|..];
      assert t.nodes == s.nodes + more;
      LeadsAppend(s.nodes, more, m, s.nodes[e].waits, e);
    }
  }

  /** When an unmap runs, its map has run. */
  lemma UnmapFindsItsMap(s: State)
    requires Valid(s) && s.ready != [] && s.nodes[s.ready[0]].kind.Unmap? && InOrder(s)
    ensures var m := s.nodes[s.ready[0]].kind.mapping; m < |s.nodes| && s.status[m] == Complete
  {
    var e := s.ready[0];
    StartsAfterItsWaits(s);
    assert PendingUnmap(s, e) && MapFirst(s, e);
    if Precedes(s.nodes, s.nodes[e].kind.mapping, e) { CompleteBefore(s, s.nodes[e].kind.mapping, s.nodes[e].waits, e); }
  }

  lemma EnqueueInOrder(s: State, q: QueueId, waits: seq<EventId>, kind: Kind, op: Memory -> Memory)
    requires Valid(s) && Enabled(s, Enqueue(q, waits, kind, op)) && MappingsOk(s) && InOrder(s)
    requires UnmapOnce(s, Enqueue(q, waits, kind, op)) && UnmapAfterMap(s, Enqueue(q, waits, kind, op))
    ensures NodesOk(Enqueuing(s, q, waits, kind, op)) && InOrder(Enqueuing(s, q, waits, kind, op))
  {
    var t, n := Enqueuing(s, q, waits, kind, op), |s.nodes|;
    EnqueueKeepsNodes(s, q, waits, kind, op);
    EnqueueMappings(s, q, waits, kind, op);
    forall b: BufferId, m: EventId | b < |t.bufs| && m in PendingMaps(t, b) ensures Recorded(t, b, m) {
      assert CountsAgree(s, b) && CountsAgree(t, b);
      EnqueueCounts(s, q, waits, kind, op, b);
      if m < n { assert m in PendingMaps(s, b); } else { NewIsLive(s, t, b, n); }
    }
    forall e: EventId | PendingUnmap(t, e) ensures MapFirst(t, e) {
      if e < n {
        assert PendingUnmap(s, e) && MapFirst(s, e);
        KeepsMapFirst(s, t, e);
      } else {
        NewMapFirst(s, q, waits, kind, op);
      }
    }
  }

  lemma NewMapFirst(s: State, q: QueueId, waits: seq<EventId>, kind: Kind, op: Memory -> Memory)
    requires Valid(s) && Enabled(s, Enqueue(q, waits, kind, op)) && kind.Unmap? && UnmapAfterMap(s, Enqueue(q, waits, kind, op))
    ensures NodesOk(Enqueuing(s, q, waits, kind, op)) && PendingUnmap(Enqueuing(s, q, waits, kind, op), |s.nodes|)
    ensures MapFirst(Enqueuing(s, q, waits, kind, op), |s.nodes|)
  {
    var t, n := Enqueuing(s, q, waits, kind, op), |s.nodes|;
    EnqueueKeepsNodes(s, q, waits, kind, op);
    NewWaits(s, q, waits);
    if Leads(s.nodes, kind.mapping, WaitList(s, q, waits), n) {
      LeadsAppend(s.nodes, [t.nodes[n]], kind.mapping, WaitList(s, q, waits), n);
    }
  }

  lemma ExecInOrder(s: State)
    requires Valid(s) && s.ready != [] && MappingsOk(s) && InOrder(s)
    ensures NodesOk(Executing(s)) && InOrder(Executing(s))
  {
    var t, e := Executing(s), s.ready[0];
    ExecMappings(s);
    forall b: BufferId, m: EventId | b < |t.bufs| && m in PendingMaps(t, b) ensures Recorded(t, b, m) {
      assert CountsAgree(s, b) && CountsAgree(t, b) && m in PendingMaps(s, b) && Recorded(s, b, m);
      if s.nodes[e].kind.Unmap? { UnmapFindsItsMap(s); }
      ExecUnmapLive(s, b, m);
    }
    forall f: EventId | PendingUnmap(t, f) ensures MapFirst(t, f) {
      assert PendingUnmap(s, f) && MapFirst(s, f);
      KeepsMapFirst(s, t, f);
    }
  }

  lemma OtherInOrder(s: State, a: Action)
    requires Valid(s) && Enabled(s, a) && !a.Enqueue? && !a.Exec? && !a.Recycle? && MappingsOk(s) && InOrder(s)
    ensures NodesOk(Next(s, a)) && InOrder(Next(s, a))
  {
    var t := Next(s, a);
    OtherUnmaps(s, a);
    forall b: BufferId, m: EventId | b < |t.bufs| && m in PendingMaps(t, b) ensures Recorded(t, b, m) {
      OtherLists(s, a, b);
      if b >= |s.bufs| { NothingLive(s, b); }
      assert m in PendingMaps(s, b) && Recorded(s, b, m);
    }
    if a.Submit? { assert QueueOk(s, a.q); }
    forall f: EventId | PendingUnmap(t, f) ensures MapFirst(t, f) {
      assert PendingUnmap(s, f) && MapFirst(s, f);
      KeepsMapFirst(s, t, f);
    }
  }

  lemma NextInOrder(s: State, a: Action)
    requires Valid(s) && Enabled(s, a) && !a.Recycle? && UnmapOnce(s, a) && UnmapAfterMap(s, a) && MappingsOk(s) && InOrder(s)
    ensures NodesOk(Next(s, a)) && InOrder(Next(s, a))
  {
    match a
    case Enqueue(q, waits, kind, op) => EnqueueInOrder(s, q, waits, kind, op);
    case Exec => ExecInOrder(s);
    case _ => OtherInOrder(s, a);
  }

  lemma MapCountNonNegative(s: State, b: BufferId)
    requires NodesOk(s) && MappingsOk(s) && InOrder(s) && b < |s.bufs|
    ensures s.bufs[b].mapCount >= 0
  {
    assert CountsAgree(s, b);
    var ids := Content(s.bufs[b].mappings);
    forall m | m in PendingMaps(s, b) ensures m in Members(ids) { assert Recorded(s, b, m); }
    SubsetSize(PendingMaps(s, b), Members(ids));
    MembersAtMost(ids);
  }

  ghost function Members(ids: seq<EventId>): set<EventId> {
    set x | x in ids
  }

  lemma {:induction false} MembersAtMost(ids: seq<EventId>)
    ensures |Members(ids)| <= |ids|
  {
    if ids != [] {
      MembersAtMost(ids[1..]);
      assert forall x :: x in ids ==> x == ids[0] || x in ids[1..];
      SubsetSize(Members(ids), {ids[0]} + Members(ids[1..]));
      OneMoreMember(Members(ids[1..]), ids[0]);
    }
  }

  lemma OneMoreMember(xs: set<EventId>, x: EventId)
    ensures |{x} + xs| <= |xs| + 1
  {
    if x in xs { assert {x} + xs == xs; } else { assert {x} + xs == xs + {x}; }
  }

  ghost predicate UnmapAfterMapRun(s: State, acts: seq<Action>)
    requires Valid(s) && CanRun(s, acts)
    decreases |acts|
  {
    acts == []
    || (UnmapAfterMap(s, acts[0]) && !acts[0].Recycle?
        && (NextKeepsValid(s, acts[0]); UnmapAfterMapRun(Next(s, acts[0]), acts[1..])))
  }

  /** If moreover events are fresh and unmaps come after their maps, the map count never falls below zero. */
  lemma {:induction false} RunKeepsCounts(s: State, acts: seq<Action>, b: BufferId)
    requires Valid(s) && CanRun(s, acts) && UnmapOnceRun(s, acts) && UnmapAfterMapRun(s, acts) && MappingsOk(s) && InOrder(s)
    ensures Valid(Run(s, acts)) && InOrder(Run(s, acts)) && MappingsOk(Run(s, acts))
    ensures b < |Run(s, acts).bufs| ==> CountsAgree(Run(s, acts), b) && Run(s, acts).bufs[b].mapCount >= 0
    decreases |acts|
  {
    if acts != [] {
      NextKeepsMappings(s, acts[0]);
      NextInOrder(s, acts[0]);
      NextKeepsValid(s, acts[0]);
      RunKeepsCounts(Next(s, acts[0]), acts[1..], b);
    } else if b < |s.bufs| {
      assert CountsAgree(s, b);
      MapCountNonNegative(s, b);
    }
  }

  // ---------- a mapping unmapped twice ----------

  ghost function Done(s: State, b: BufferId, unmap: bool): set<EventId>
    requires |s.nodes| == |s.status|
  {
    set e: EventId | e < |s.nodes| && s.status[e] == Complete
                     && (if unmap then s.nodes[e].kind.Unmap? && s.nodes[e].kind.buffer == b
                         else s.nodes[e].kind.Map? && s.nodes[e].kind.buffer == b)
  }

  /** The map count is what has run: maps minus unmaps. */
  ghost predicate CountIsHistory(s: State)
    requires |s.nodes| == |s.status|
  {
    forall b: BufferId :: b < |s.bufs| ==> s.bufs[b].mapCount == |Done(s, b, false)| - |Done(s, b, true)|
  }

  lemma EnqueueHistory(s: State, q: QueueId, waits: seq<EventId>, kind: Kind, op: Memory -> Memory)
    requires NodesKnown(s) && Enabled(s, Enqueue(q, waits, kind, op)) && CountIsHistory(s)
    ensures CountIsHistory(Enqueuing(s, q, waits, kind, op))
  {
    var t := Enqueuing(s, q, waits, kind, op);
    forall b: BufferId | b < |t.bufs| ensures t.bufs[b].mapCount == |Done(t, b, false)| - |Done(t, b, true)| {
      EnqueueBuffers(s.bufs, |s.nodes|, kind, b);
      assert Done(t, b, false) == Done(s, b, false) && Done(t, b, true) == Done(s, b, true);
    }
  }

  lemma ExecDone(s: State, b: BufferId, unmap: bool)
    requires NodesKnown(s) && ReadyOk(s) && s.ready != []
    ensures var e := s.ready[0]; var k := s.nodes[e].kind;
      var mine := (if unmap then k.Unmap? else k.Map?) && k.buffer == b;
      && Done(Executing(s), b, unmap) == Done(s, b, unmap) + (if mine then {e} else {})
      && e !in Done(s, b, unmap)
  {
  }

  lemma ExecHistory(s: State)
    requires NodesKnown(s) && ReadyOk(s) && s.ready != [] && CountIsHistory(s)
    ensures CountIsHistory(Executing(s))
  {
    var t := Executing(s);
    forall b: BufferId | b < |t.bufs| ensures t.bufs[b].mapCount == |Done(t, b, false)| - |Done(t, b, true)| {
      ExecBuffers(s.bufs, s.nodes[s.ready[0]].kind, b);
      ExecDone(s, b, false);
      ExecDone(s, b, true);
      assert s.bufs[b].mapCount == |Done(s, b, false)| - |Done(s, b, true)|;
    }
  }

  lemma OtherHistory(s: State, a: Action)
    requires Loose(s) && Enabled(s, a) && !a.Enqueue? && !a.Exec? && CountIsHistory(s)
    ensures NodesKnown(Next(s, a)) && CountIsHistory(Next(s, a))
  {
    var t := Next(s, a);
    NextKeepsLoose(s, a);
    if a.Submit? { assert Queue(s, a.q); }
    forall b: BufferId | b < |t.bufs| ensures t.bufs[b].mapCount == |Done(t, b, false)| - |Done(t, b, true)| {
      OtherLists(s, a, b);
      OtherDone(s, a, b, false);
      OtherDone(s, a, b, true);
      if b >= |s.bufs| {
        assert Done(s, b, false) == {} && Done(s, b, true) == {};
      }
    }
  }

  lemma OtherDone(s: State, a: Action, b: BufferId, unmap: bool)
    requires Loose(s) && Enabled(s, a) && !a.Enqueue? && !a.Exec?
    ensures |Next(s, a).nodes| == |Next(s, a).status| && Done(Next(s, a), b, unmap) == Done(s, b, unmap)
  {
    if a.Submit? { assert Queue(s, a.q); }
  }

  /** Over every run, whatever is unmapped and how often. */
  lemma {:induction false} RunKeepsHistory(s: State, acts: seq<Action>)
    requires Loose(s) && CanRun(s, acts) && CountIsHistory(s)
    ensures CountIsHistory(Run(s, acts))
    decreases |acts|
  {
    if acts != [] {
      NextKeepsLoose(s, acts[0]);
      match acts[0] {
        case Enqueue(q, waits, kind, op) => EnqueueHistory(s, q, waits, kind, op);
        case Exec => ExecHistory(s);
        case _ => OtherHistory(s, acts[0]);
      }
      RunKeepsHistory(Next(s, acts[0]), acts[1..]);
    }
  }

  lemma {:induction false} ImageSize(f: EventId -> EventId, xs: set<EventId>)
    ensures |set x | x in xs :: f(x)| <= |xs|
  {
    if x :| x in xs {
      ImageSize(f, xs - {x});
      SubsetSize(set y | y in xs :: f(y), (set y | y in xs - {x} :: f(y)) + {f(x)});
    }
  }

  /** The mappings that some unmap of b other than f, which has run, is for. */
  ghost function Named(s: State, b: BufferId, f: EventId): set<EventId>
    requires |s.nodes| == |s.status|
  {
    set u | u in Done(s, b, true) - {f} :: s.nodes[u].kind.mapping
  }

  lemma NamedSize(s: State, b: BufferId, f: EventId)
    requires |s.nodes| == |s.status| && f in Done(s, b, true)
    ensures |Named(s, b, f)| <= |Done(s, b, true)| - 1
  {
    var name: EventId -> EventId :=
      (u: EventId) => if u < |s.nodes| && s.nodes[u].kind.Unmap? then s.nodes[u].kind.mapping else 0;
    ImageSize(name, Done(s, b, true) - {f});
    assert Named(s, b, f) == set u | u in Done(s, b, true) - {f} :: name(u);
  }

  /** Of two unmaps of one mapping one is dispensable: every map of b is live or named by the others. */
  lemma LiveOrNamed(s: State, b: BufferId, m: EventId, e: EventId, f: EventId, x: EventId)
    requires |s.nodes| == |s.status| && x < |s.nodes| && s.nodes[x].kind.Map? && s.nodes[x].kind.buffer == b
    requires Unmaps(s, e, b, m) && Unmaps(s, f, b, m) && e != f && s.status[e] == Complete
    ensures Live(s, b, x) || x in Named(s, b, f)
  {
    if !Live(s, b, x) {
      var u: EventId :| Unmaps(s, u, b, x) && s.status[u] == Complete;
      var v := if u == f then e else u;
      assert v in Done(s, b, true) - {f} && s.nodes[v].kind.mapping == x;
    }
  }

  lemma MapsSize(s: State, b: BufferId)
    requires |s.nodes| == |s.status|
    ensures |Done(s, b, false) + PendingMaps(s, b)| == |Done(s, b, false)| + |PendingMaps(s, b)|
  {
    assert Done(s, b, false) !! PendingMaps(s, b);
  }

  lemma UnionAtMost(a: set<EventId>, b: set<EventId>)
    ensures |a + b| <= |a| + |b|
  {
    assert |a + b| + |a * b| == |a| + |b|;
  }

  lemma MapsCovered(s: State, b: BufferId, m: EventId, e: EventId, f: EventId)
    requires |s.nodes| == |s.status| && b < |s.bufs| && HoldsLive(s, b)
    requires Unmaps(s, e, b, m) && Unmaps(s, f, b, m) && e != f && s.status[e] == Complete
    ensures Done(s, b, false) + PendingMaps(s, b) <= Members(Content(s.bufs[b].mappings)) + Named(s, b, f)
  {
    forall x | x in Done(s, b, false) + PendingMaps(s, b)
      ensures x in Members(Content(s.bufs[b].mappings)) + Named(s, b, f)
    {
      LiveOrNamed(s, b, m, e, f, x);
    }
  }

  /** Once two unmaps of one mapping have run, list and count of the buffer never agree. */
  lemma UnmappedTwice(s: State, b: BufferId, m: EventId, e: EventId, f: EventId)
    requires |s.nodes| == |s.status| && b < |s.bufs| && CountIsHistory(s)
    requires Unmaps(s, e, b, m) && Unmaps(s, f, b, m) && e != f && s.status[e] == Complete && s.status[f] == Complete
    ensures !CountsAgree(s, b)
  {
    if HoldsLive(s, b) {
      var ids := Content(s.bufs[b].mappings);
      MapsCovered(s, b, m, e, f);
      SubsetSize(Done(s, b, false) + PendingMaps(s, b), Members(ids) + Named(s, b, f));
      UnionAtMost(Members(ids), Named(s, b, f));
      MapsSize(s, b);
      MembersAtMost(ids);
      NamedSize(s, b, f);
    }
  }

  lemma NewUnmapRuns(s: State, a: Action)
    requires AtRest(s) && a.Enqueue? && Enabled(s, a)
    ensures Schedulable(Next(s, a))
    ensures var u := Finished(Next(s, a), a.q);
      |u.nodes| == |s.nodes| + 1 && u.status[|s.nodes|] == Complete && u.nodes[..|s.nodes|] == s.nodes && u.nodes[|s.nodes|].kind == a.kind
  {
    DoKeepsSchedulable(s, a);
    FinishCompletesQueue(Next(s, a), a.q, |s.nodes|);
  }

  /**
   Queueing an unmap of a recorded mapping and finishing its queue leaves lists and counts in
   order iff no unmap of that mapping was pending.
   */
  lemma ExtraUnmapIff(s: State, a: Action)
    requires AtRest(s) && a.Enqueue? && a.kind.Unmap? && Enabled(s, a)
    requires MappingsOk(s) && CountIsHistory(s) && Recorded(s, a.kind.buffer, a.kind.mapping)
    ensures Schedulable(Next(s, a)) && (MappingsOk(Finished(Next(s, a), a.q)) <==> UnmapOnce(s, a))
  {
    DoKeepsSchedulable(s, a);
    var t := Next(s, a);
    var acts := FinishIsRun(t, a.q);
    if UnmapOnce(s, a) {
      NextKeepsMappings(s, a);
      QuietUnmaps(t, acts);
      RunKeepsMappings(t, acts);
    } else {
      var e: EventId :| PendingUnmap(s, e) && s.nodes[e].kind.mapping == a.kind.mapping;
      EnqueueHistory(s, a.q, a.waits, a.kind, a.op);
      RunKeepsHistory(t, acts);
      SecondUnmapShows(s, a, e);
    }
  }

  lemma {:induction false} QuietUnmaps(s: State, acts: seq<Action>)
    requires Loose(s) && CanRun(s, acts) && forall a :: a in acts ==> a.Submit? || a.Exec?
    ensures UnmapOnceRun(s, acts)
    decreases |acts|
  {
    if acts != [] {
      assert acts[0] in acts;
      NextKeepsLoose(s, acts[0]);
      QuietUnmaps(Next(s, acts[0]), acts[1..]);
    }
  }

  lemma SecondUnmapShows(s: State, a: Action, e: EventId)
    requires AtRest(s) && a.Enqueue? && a.kind.Unmap? && Enabled(s, a) && MappingsOk(s)
    requires Recorded(s, a.kind.buffer, a.kind.mapping)
    requires PendingUnmap(s, e) && s.nodes[e].kind.mapping == a.kind.mapping
    requires Schedulable(Next(s, a)) && CountIsHistory(Finished(Next(s, a), a.q))
    ensures !MappingsOk(Finished(Next(s, a), a.q))
  {
    NewUnmapRuns(s, a);
    SameBuffer(s, a.kind.buffer, a.kind.mapping, e);
    UnmapAgain(s, Finished(Next(s, a), a.q), a.kind.buffer, a.kind.mapping, e);
  }

  /** A pending unmap of a recorded mapping is for the buffer that records it. */
  lemma SameBuffer(s: State, b: BufferId, m: EventId, e: EventId)
    requires |s.nodes| == |s.status| && MappingsOk(s) && Recorded(s, b, m) && PendingUnmap(s, e) && s.nodes[e].kind.mapping == m
    ensures Unmaps(s, e, b, m)
  {
    PendingIsLive(s, e);
    assert CountsAgree(s, b) && Live(s, b, m);
  }

  lemma UnmapAgain(s: State, u: State, b: BufferId, m: EventId, e: EventId)
    requires Unmaps(s, e, b, m) && |u.nodes| == |u.status| == |s.nodes| + 1 && u.nodes[..|s.nodes|] == s.nodes && b < |u.bufs|
    requires Unmaps(u, |s.nodes|, b, m) && u.status[|s.nodes|] == Complete && CountIsHistory(u)
    ensures !MappingsOk(u)
  {
    assert u.nodes[e] == s.nodes[e] && Unmaps(u, e, b, m);
    assert Unmapped(u, b, m);
    if u.status[e] == Complete {
      UnmappedTwice(u, b, m, e, |s.nodes|);
    } else if MappingsOk(u) {
      PendingIsLive(u, e);
    }
  }

  lemma PendingIsLive(s: State, e: EventId)
    requires |s.nodes| == |s.status| && MappingsOk(s) && PendingUnmap(s, e)
    ensures Live(s, s.nodes[e].kind.buffer, s.nodes[e].kind.mapping)
  {
    assert Recorded(s, s.nodes[e].kind.buffer, s.nodes[e].kind.mapping);
    assert CountsAgree(s, s.nodes[e].kind.buffer);
  }
}
