/**
 The state behind the OpenCL command queues: command nodes, their events, the in-order queues,
 the list of submitted commands, the buffers and the memory that device operations transform.

 pocl creates one event for every command node, so both are named here by one number, their
 creation index.  What a caller can do to the state is cut into the atomic actions below; an
 API call is one such action or a sequence of them.
 */
module Runtime {
  import opened Common
  import opened MappingList

  type EventId = nat
  type QueueId = nat
  type BufferId = nat

  datatype Location = Host(addr: int) | Device(dev: nat, addr: int)
  type Memory = map<Location, int>

  /** CL_COMPLETE, CL_RUNNING, CL_SUBMITTED and CL_QUEUED, in the order of their numeric values. */
  datatype Status = Complete | Running | Submitted | Queued

  datatype Kind =
    | Read(buffer: BufferId)
    | Write(buffer: BufferId)
    | Copy(src: BufferId, dst: BufferId)
    | NDRange(args: seq<Option<BufferId>>)
    | Native(mems: seq<BufferId>)
    | Map(buffer: BufferId, hostPtr: int)
    | Unmap(buffer: BufferId, mapping: EventId)
    | Marker

  /** A command node together with the parts of its event that never change. */
  datatype Node = Node(queue: QueueId, waits: seq<EventId>, kind: Kind, op: Memory -> Memory)

  /** Its mappings are records linked into a list, each named by the command that created it. */
  datatype Buffer = Buffer(refs: int, mapCount: int, mappings: MapList)

  datatype State = State(
    nodes: seq<Node>,
    status: seq<Status>,
    queues: seq<seq<EventId>>,
    ready: seq<EventId>,
    bufs: seq<Buffer>,
    mem: Memory)

  // ---------- buffers ----------

  /** The buffers a command of this kind retains when queued and releases when executed. */
  function Uses(kind: Kind): seq<BufferId> {
    match kind
    case Read(b) => [b]
    case Write(b) => [b]
    case Copy(s, d) => [s, d]
    case NDRange(args) => Present(args)
    case Native(mems) => mems
    case _ => []
  }

  function Present(args: seq<Option<BufferId>>): seq<BufferId> {
    if args == [] then []
    else (if args[0].Some? then [args[0].value] else []) + Present(args[1..])
  }

  /** The objects a native kernel retains before it meets a null one. */
  function BeforeNull(mems: seq<Option<BufferId>>): seq<BufferId> {
    if mems == [] || mems[0].None? then [] else [mems[0].value] + BeforeNull(mems[1..])
  }

  ghost predicate Below(ids: seq<nat>, n: nat) {
    forall i :: 0 <= i < |ids| ==> ids[i] < n
  }

  ghost predicate UsesIn(kind: Kind, n: nat) {
    && Below(Uses(kind), n)
    && (kind.Map? || kind.Unmap? ==> kind.buffer < n)
  }

  /** Adds d to the reference count of every buffer listed, once per occurrence. */
  function AddRefs(bufs: seq<Buffer>, ids: seq<BufferId>, d: int): (r: seq<Buffer>)
    requires Below(ids, |bufs|)
    ensures |r| == |bufs|
    decreases |ids|
  {
    if ids == [] then bufs
    else AddRefs(bufs[ids[0] := bufs[ids[0]].(refs := bufs[ids[0]].refs + d)], ids[1..], d)
  }

  /** What queueing command e does to the buffers. */
  function BuffersAtEnqueue(bufs: seq<Buffer>, e: EventId, kind: Kind): (r: seq<Buffer>)
    requires UsesIn(kind, |bufs|)
    ensures |r| == |bufs|
  {
    match kind
    case Map(b, p) => bufs[b := bufs[b].(refs := bufs[b].refs + 1, mappings := Append(bufs[b].mappings, e, p))]
    case _ => AddRefs(bufs, Uses(kind), 1)
  }

  /** What executing a command of this kind does to the buffers. */
  function BuffersAtExec(bufs: seq<Buffer>, kind: Kind): (r: seq<Buffer>)
    requires UsesIn(kind, |bufs|)
    ensures |r| == |bufs|
  {
    match kind
    case Map(b, p) => bufs[b := bufs[b].(mapCount := bufs[b].mapCount + 1)]
    case Unmap(b, m) => bufs[b := bufs[b].(mapCount := bufs[b].mapCount - 1, mappings := Delete(bufs[b].mappings, m))]
    case _ => AddRefs(bufs, Uses(kind), -1)
  }

  // ---------- what the scheduling loop relies on ----------

  ghost predicate NodesKnown(s: State) {
    && |s.status| == |s.nodes|
    && (forall e, w :: 0 <= e < |s.nodes| && w in s.nodes[e].waits ==> w < |s.nodes|)
    && (forall e :: 0 <= e < |s.nodes| ==> s.nodes[e].queue < |s.queues|)
    && (forall e :: 0 <= e < |s.nodes| ==> UsesIn(s.nodes[e].kind, |s.bufs|))
  }

  /** A queue holds QUEUED commands of its own, each once. */
  ghost predicate Queue(s: State, q: QueueId)
    requires |s.status| == |s.nodes| && q < |s.queues|
  {
    var Q := s.queues[q];
    && (forall k :: 0 <= k < |Q| ==> Q[k] < |s.nodes| && s.nodes[Q[k]].queue == q && s.status[Q[k]] == Queued)
    && (forall i, j :: 0 <= i < j < |Q| ==> Q[i] != Q[j])
  }

  /** The ready list holds the SUBMITTED commands, each after everything it still waits for. */
  ghost predicate ReadyOk(s: State)
    requires NodesKnown(s)
  {
    && (forall k :: 0 <= k < |s.ready| ==> s.ready[k] < |s.nodes| && s.status[s.ready[k]] == Submitted)
    && (forall i, j :: 0 <= i < j < |s.ready| ==> s.ready[i] != s.ready[j])
    && (forall k, w :: 0 <= k < |s.ready| && w in s.nodes[s.ready[k]].waits ==>
          s.status[w] == Complete || w in s.ready[..k])
  }

  /** QUEUED means in its queue, SUBMITTED means in the ready list. */
  ghost predicate Placed(s: State, e: EventId)
    requires NodesKnown(s) && e < |s.nodes|
  {
    && s.status[e] != Running
    && (s.status[e] == Queued ==> e in s.queues[s.nodes[e].queue])
    && (s.status[e] == Submitted ==> e in s.ready)
  }

  /**
   What holds even when wait lists are arbitrary: a wait may name any command, a later one included,
   which happens when the event of a finished command is used again for a new one.
   */
  ghost predicate Loose(s: State) {
    && NodesKnown(s)
    && (forall q: nat :: q < |s.queues| ==> Queue(s, q))
    && ReadyOk(s)
    && (forall e: nat :: e < |s.nodes| ==> Placed(s, e))
  }

  // ---------- the invariant of every state with fresh events ----------

  ghost predicate WaitsEarlier(nodes: seq<Node>) {
    forall e, w :: 0 <= e < |nodes| && w in nodes[e].waits ==> w < e
  }

  ghost predicate NodesOk(s: State) {
    NodesKnown(s) && WaitsEarlier(s.nodes)
  }

  /** A queue holds its own QUEUED commands, in creation order, each waiting for its predecessor. */
  ghost predicate QueueOk(s: State, q: QueueId)
    requires |s.status| == |s.nodes| && q < |s.queues|
  {
    Chain(s.nodes, s.status, s.queues[q], q)
  }

  ghost predicate Chain(nodes: seq<Node>, status: seq<Status>, Q: seq<EventId>, q: QueueId)
    requires |status| == |nodes|
  {
    && (forall k :: 0 <= k < |Q| ==> Q[k] < |nodes| && nodes[Q[k]].queue == q && status[Q[k]] == Queued)
    && (forall i, j :: 0 <= i < j < |Q| ==> Q[i] < Q[j])
    && (forall k :: 0 < k < |Q| ==> Q[k - 1] in nodes[Q[k]].waits)
  }

  /** Events are where their status says, and COMPLETE means so is all that was waited for. */
  ghost predicate StatusOk(s: State)
    requires NodesOk(s)
  {
    forall e: nat :: e < |s.nodes| ==>
      Placed(s, e) && (s.status[e] == Complete ==> AllComplete(s, s.nodes[e].waits))
  }

  ghost predicate AllComplete(s: State, events: seq<EventId>) {
    forall w :: w in events ==> w < |s.status| && s.status[w] == Complete
  }

  ghost predicate Valid(s: State) {
    && Loose(s)
    && NodesOk(s)
    && (forall q :: 0 <= q < |s.queues| ==> QueueOk(s, q))
    && StatusOk(s)
  }

  // ---------- atomic actions ----------

  datatype Action =
    | NewQueue
    | NewBuffer
    | Retain(held: seq<BufferId>)
    | Release(held: seq<BufferId>)
    | Enqueue(q: QueueId, waits: seq<EventId>, kind: Kind, op: Memory -> Memory)
    | NativeFailed(q: QueueId, retained: seq<BufferId>)
    | Submit(q: QueueId)
    | Exec
    | Touch(op: Memory -> Memory)  // the host, or a rect command run directly, changes memory
    | Recycle(e: EventId)  // the newest command gets the event of the finished command e

  /** In-order queues: the last command still queued joins the wait list. */
  function WaitList(s: State, q: QueueId, waits: seq<EventId>): seq<EventId>
    requires q < |s.queues|
  {
    if s.queues[q] == [] then waits else waits + [s.queues[q][|s.queues[q]| - 1]]
  }

  /** COMPLETE or SUBMITTED: what clFinish takes for a satisfied wait. */
  predicate Satisfied(s: State, w: EventId) {
    w < |s.status| && (s.status[w] == Complete || s.status[w] == Submitted)
  }

  ghost predicate Enabled(s: State, a: Action) {
    match a
    case NewQueue => true
    case NewBuffer => true
    case Retain(held) => Below(held, |s.bufs|)
    case Release(held) => Below(held, |s.bufs|)
    case Enqueue(q, waits, kind, _) => q < |s.queues| && UsesIn(kind, |s.bufs|) && Below(waits, |s.nodes|)
    case NativeFailed(q, retained) => q < |s.queues| && Below(retained, |s.bufs|)
    case Submit(q) =>
      && q < |s.queues| && s.queues[q] != [] && s.queues[q][0] < |s.nodes|
      && forall w :: w in s.nodes[s.queues[q][0]].waits ==> Satisfied(s, w)
    case Exec => s.ready != []
    case Touch(_) => true
    case Recycle(e) =>
      && s.ready == [] && e < |s.nodes| - 1 && |s.nodes| == |s.status|
      && s.status[e] == Complete && s.status[|s.nodes| - 1] == Queued
  }

  function Submitting(s: State, q: QueueId): State
    requires q < |s.queues| && s.queues[q] != [] && s.queues[q][0] < |s.status|
  {
    s.(status := s.status[s.queues[q][0] := Submitted],
       queues := s.queues[q := s.queues[q][1..]],
       ready := s.ready + [s.queues[q][0]])
  }

  function Enqueuing(s: State, q: QueueId, waits: seq<EventId>, kind: Kind, op: Memory -> Memory): State
    requires q < |s.queues| && UsesIn(kind, |s.bufs|)
  {
    s.(nodes := s.nodes + [Node(q, WaitList(s, q, waits), kind, op)],
       status := s.status + [Queued],
       queues := s.queues[q := s.queues[q] + [|s.nodes|]],
       bufs := BuffersAtEnqueue(s.bufs, |s.nodes|, kind))
  }

  function Executing(s: State): State
    requires s.ready != [] && s.ready[0] < |s.nodes| == |s.status|
    requires UsesIn(s.nodes[s.ready[0]].kind, |s.bufs|)
  {
    var e := s.ready[0];
    s.(status := s.status[e := Complete],
       ready := s.ready[1..],
       bufs := BuffersAtExec(s.bufs, s.nodes[e].kind),
       mem := s.nodes[e].op(s.mem))
  }

  /** The event of a command that failed after its creation: it is COMPLETE, and waits for nothing. */
  function DeadNode(q: QueueId): Node {
    Node(q, [], Marker, m => m)
  }

  /** A wait list in which event e has become event n. */
  function Renamed(waits: seq<EventId>, e: EventId, n: EventId): (r: seq<EventId>)
    ensures |r| == |waits|
    ensures forall w :: w in r <==> (w in waits && w != e) || (w == n && e in waits)
  {
    if waits == [] then [] else [if waits[0] == e then n else waits[0]] + Renamed(waits[1..], e, n)
  }

  /** Whoever still names the event of e now names that of the newest command. */
  function Recycled(s: State, e: EventId): (t: State)
    requires s.nodes != []
    ensures |t.nodes| == |s.nodes| && t == s.(nodes := t.nodes)
  {
    s.(nodes := seq(|s.nodes|, i requires 0 <= i < |s.nodes| => s.nodes[i].(waits := Renamed(s.nodes[i].waits, e, |s.nodes| - 1))))
  }

  function Next(s: State, a: Action): State
    requires Loose(s) && Enabled(s, a)
  {
    match a
    case NewQueue => s.(queues := s.queues + [[]])
    case NewBuffer => s.(bufs := s.bufs + [Buffer(1, 0, EMPTY)])
    case Retain(held) => s.(bufs := AddRefs(s.bufs, held, 1))
    case Release(held) => s.(bufs := AddRefs(s.bufs, held, -1))
    case Enqueue(q, waits, kind, op) => Enqueuing(s, q, waits, kind, op)
    case NativeFailed(q, retained) =>
      s.(nodes := s.nodes + [DeadNode(q)], status := s.status + [Complete], bufs := AddRefs(s.bufs, retained, 1))
    case Submit(q) => Submitting(s, q)
    case Exec => Executing(s)
    case Touch(op) => s.(mem := op(s.mem))
    case Recycle(e) => Recycled(s, e)
  }

  const INITIAL := State([], [], [], [], [], map[])

  lemma SubmitKeepsQueue(s: State, q: QueueId, p: QueueId)
    requires NodesOk(s) && Enabled(s, Submit(q)) && p < |s.queues| && QueueOk(s, p) && QueueOk(s, q)
    ensures QueueOk(Submitting(s, q), p)
  {
    var Q, R := s.queues[p], Submitting(s, q).queues[p];
    if p == q { assert forall k :: 0 <= k < |R| ==> R[k] == Q[k + 1]; }
  }

  lemma SubmitKeepsReady(s: State, q: QueueId)
    requires Loose(s) && Enabled(s, Submit(q))
    ensures ReadyOk(Submitting(s, q))
  {
    var t := Submitting(s, q);
    assert Queue(s, q);
    forall k, w | 0 <= k < |t.ready| && w in t.nodes[t.ready[k]].waits
      ensures t.status[w] == Complete || w in t.ready[..k]
    {
      if k < |s.ready| {
        assert t.ready[..k] == s.ready[..k];
      } else {
        assert t.ready[..k] == s.ready;
        assert Satisfied(s, w) && Placed(s, w);
      }
    }
  }

  lemma SubmitKeepsPlaced(s: State, q: QueueId, e: EventId)
    requires Loose(s) && Enabled(s, Submit(q)) && e < |s.nodes|
    ensures Placed(Submitting(s, q), e)
  {
    var t := Submitting(s, q);
    assert Queue(s, q) && Placed(s, e);
    assert t.ready[|s.ready|] == s.queues[q][0];
    if t.status[e] == Queued {
      var p := s.nodes[e].queue;
      var k :| 0 <= k < |s.queues[p]| && s.queues[p][k] == e;
      if p == q { assert t.queues[q][k - 1] == e; }
    }
  }

  /** Submitting a head keeps queues, ready list and status in step, whatever the waits are. */
  lemma SubmitKeepsLoose(s: State, q: QueueId)
    requires Loose(s) && Enabled(s, Submit(q))
    ensures Loose(Submitting(s, q))
  {
    var t := Submitting(s, q);
    assert Queue(s, q);
    SubmitKeepsReady(s, q);
    forall e: nat | e < |t.nodes| ensures Placed(t, e) { SubmitKeepsPlaced(s, q, e); }
    forall p: nat | p < |t.queues| ensures Queue(t, p) { SubmitKeepsMembers(s, q, p); }
  }

  lemma SubmitKeepsMembers(s: State, q: QueueId, p: QueueId)
    requires NodesKnown(s) && Enabled(s, Submit(q)) && p < |s.queues| && Queue(s, p) && Queue(s, q)
    ensures Queue(Submitting(s, q), p)
  {
    var Q, R := s.queues[p], Submitting(s, q).queues[p];
    if p == q { assert forall k :: 0 <= k < |R| ==> R[k] == Q[k + 1]; }
  }

  lemma SubmitKeepsStatus(s: State, q: QueueId)
    requires Valid(s) && Enabled(s, Submit(q))
    ensures NodesOk(Submitting(s, q)) && StatusOk(Submitting(s, q))
  {
    var t := Submitting(s, q);
    assert QueueOk(s, q);
    forall e: nat | e < |t.nodes|
      ensures Placed(t, e) && (t.status[e] == Complete ==> AllComplete(t, t.nodes[e].waits))
    {
      SubmitKeepsPlaced(s, q, e);
      assert s.status[e] == Complete ==> AllComplete(s, s.nodes[e].waits);
    }
  }

  /** A queue grows by a new node that waits for its last command. */
  lemma ChainGrows(nodes: seq<Node>, status: seq<Status>, Q: seq<EventId>, q: QueueId, node: Node)
    requires |status| == |nodes| && Chain(nodes, status, Q, q)
    requires node.queue == q && (Q != [] ==> Q[|Q| - 1] in node.waits)
    ensures Chain(nodes + [node], status + [Queued], Q + [|nodes|], q)
  {
    var R, n := Q + [|nodes|], |Q|;
    var nodes' := nodes + [node];
    forall k | 0 < k < |R| ensures R[k - 1] in nodes'[R[k]].waits {
      if k < n { assert Q[k - 1] in nodes[Q[k]].waits; }
    }
  }

  /** New commands leave another queue alone. */
  lemma ChainStays(nodes: seq<Node>, status: seq<Status>, Q: seq<EventId>, q: QueueId, nodes': seq<Node>, status': seq<Status>)
    requires |status| == |nodes| && |status'| == |nodes'| && nodes <= nodes' && status <= status' && Chain(nodes, status, Q, q)
    ensures Chain(nodes', status', Q, q)
  {
    forall k | 0 < k < |Q| ensures Q[k - 1] in nodes'[Q[k]].waits { assert Q[k - 1] in nodes[Q[k]].waits; }
  }

  lemma EnqueueKeepsQueue(s: State, q: QueueId, waits: seq<EventId>, kind: Kind, op: Memory -> Memory, p: QueueId)
    requires NodesOk(s) && p < |s.queues| && QueueOk(s, p) && Enabled(s, Enqueue(q, waits, kind, op))
    ensures QueueOk(Enqueuing(s, q, waits, kind, op), p)
  {
    if p == q {
      var Q, node := s.queues[q], Node(q, WaitList(s, q, waits), kind, op);
      if Q != [] { assert node.waits[|waits|] == Q[|Q| - 1]; }
      ChainGrows(s.nodes, s.status, Q, q, node);
    } else {
      var t := Enqueuing(s, q, waits, kind, op);
      ChainStays(s.nodes, s.status, s.queues[p], p, t.nodes, t.status);
    }
  }

  lemma EnqueueKeepsNodes(s: State, q: QueueId, waits: seq<EventId>, kind: Kind, op: Memory -> Memory)
    requires Valid(s) && Enabled(s, Enqueue(q, waits, kind, op))
    ensures NodesOk(Enqueuing(s, q, waits, kind, op))
  {
    assert QueueOk(s, q);
  }

  lemma EnqueueKeepsStatus(s: State, q: QueueId, waits: seq<EventId>, kind: Kind, op: Memory -> Memory)
    requires Valid(s) && Enabled(s, Enqueue(q, waits, kind, op))
    ensures NodesOk(Enqueuing(s, q, waits, kind, op)) && StatusOk(Enqueuing(s, q, waits, kind, op))
  {
    EnqueueKeepsNodes(s, q, waits, kind, op);
    var t := Enqueuing(s, q, waits, kind, op);
    assert t.queues[q][|s.queues[q]|] == |s.nodes|;
    forall e: nat | e < |t.nodes|
      ensures Placed(t, e) && (t.status[e] == Complete ==> AllComplete(t, t.nodes[e].waits))
    {
      if e < |s.nodes| {
        assert Placed(s, e);
        assert s.status[e] == Complete ==> AllComplete(s, s.nodes[e].waits);
      }
    }
  }

  /** Whole-run wait safety: what a command waits for is COMPLETE when the command starts. */
  lemma StartsAfterItsWaits(s: State)
    requires NodesKnown(s) && ReadyOk(s) && s.ready != []
    ensures AllComplete(s, s.nodes[s.ready[0]].waits)
  {
    assert s.ready[..0] == [];
  }

  lemma ExecKeepsReadyAt(s: State, k: nat, w: EventId)
    requires NodesKnown(s) && ReadyOk(s) && k + 1 < |s.ready| && w in s.nodes[s.ready[k + 1]].waits
    ensures s.status[w] == Complete || w == s.ready[0] || w in s.ready[1..][..k]
  {
    if s.status[w] != Complete && w != s.ready[0] {
      var j :| 0 <= j < k + 1 && s.ready[j] == w;
      assert s.ready[1..][..k][j - 1] == w;
    }
  }

  lemma ExecKeepsReady(s: State)
    requires NodesKnown(s) && ReadyOk(s) && s.ready != []
    ensures ReadyOk(Executing(s))
  {
    var t := Executing(s);
    forall k, w | 0 <= k < |t.ready| && w in t.nodes[t.ready[k]].waits
      ensures t.status[w] == Complete || w in t.ready[..k]
    {
      ExecKeepsReadyAt(s, k, w);
    }
  }

  lemma ExecKeepsPlaced(s: State, e: EventId)
    requires NodesKnown(s) && ReadyOk(s) && s.ready != [] && e < |s.nodes| && Placed(s, e)
    ensures Placed(Executing(s), e)
  {
    var t := Executing(s);
    if t.status[e] == Submitted {
      var j :| 0 <= j < |s.ready| && s.ready[j] == e;
      assert t.ready[j - 1] == e;
    }
  }

  lemma ExecKeepsLoose(s: State)
    requires Loose(s) && s.ready != []
    ensures Loose(Executing(s))
  {
    var t := Executing(s);
    ExecKeepsReady(s);
    forall e: nat | e < |t.nodes| ensures Placed(t, e) { ExecKeepsPlaced(s, e); }
    forall p: nat | p < |t.queues| ensures Queue(t, p) { assert Queue(s, p); }
  }

  lemma ExecKeepsStatus(s: State)
    requires Valid(s) && s.ready != []
    ensures NodesOk(Executing(s)) && StatusOk(Executing(s))
  {
    var t := Executing(s);
    StartsAfterItsWaits(s);
    forall x: nat | x < |t.nodes|
      ensures Placed(t, x) && (t.status[x] == Complete ==> AllComplete(t, t.nodes[x].waits))
    {
      assert Placed(s, x);
      ExecKeepsPlaced(s, x);
      assert s.status[x] == Complete ==> AllComplete(s, s.nodes[x].waits);
    }
  }

  lemma ExecKeepsQueue(s: State, p: QueueId)
    requires Valid(s) && s.ready != [] && p < |s.queues|
    ensures QueueOk(Executing(s), p)
  {
    assert QueueOk(s, p);
  }

  // ---------- every action keeps it ----------

  /** Where one more command on queue q leaves nodes, queues and status. */
  ghost predicate OneMore(s: State, t: State, q: QueueId) {
    && q < |s.queues| && |s.status| == |s.nodes| && |t.nodes| == |s.nodes| + 1
    && t.status == s.status + [Queued] && t.queues == s.queues[q := s.queues[q] + [|s.nodes|]]
    && s.nodes <= t.nodes && t.nodes[|s.nodes|].queue == q
  }

  lemma OneMoreInQueue(s: State, t: State, q: QueueId, p: QueueId)
    requires OneMore(s, t, q) && p < |s.queues| && Queue(s, p)
    ensures Queue(t, p)
  {
  }

  /** New commands at the end leave the ready list in order. */
  lemma MoreNodesReady(s: State, t: State)
    requires NodesKnown(s) && NodesKnown(t) && ReadyOk(s) && s.nodes <= t.nodes && s.status <= t.status && t.ready == s.ready
    ensures ReadyOk(t)
  {
  }

  lemma EnqueueKeepsLoose(s: State, q: QueueId, waits: seq<EventId>, kind: Kind, op: Memory -> Memory)
    requires Loose(s) && Enabled(s, Enqueue(q, waits, kind, op))
    ensures Loose(Enqueuing(s, q, waits, kind, op))
  {
    var t := Enqueuing(s, q, waits, kind, op);
    assert Queue(s, q);
    forall p: nat | p < |t.queues| ensures Queue(t, p) { OneMoreInQueue(s, t, q, p); }
    MoreNodesReady(s, t);
    assert t.queues[q][|s.queues[q]|] == |s.nodes|;
    forall e: nat | e < |t.nodes| ensures Placed(t, e) {
      if e < |s.nodes| { assert Placed(s, e); }
    }
  }

  lemma RecycleKeepsLoose(s: State, e: EventId)
    requires Loose(s) && Enabled(s, Recycle(e))
    ensures Loose(Recycled(s, e))
  {
    var t := Recycled(s, e);
    forall x, w | 0 <= x < |t.nodes| && w in t.nodes[x].waits ensures w < |t.nodes| {
      assert w in Renamed(s.nodes[x].waits, e, |s.nodes| - 1);
    }
    forall p: nat | p < |t.queues| ensures Queue(t, p) { assert Queue(s, p); }
    forall x: nat | x < |t.nodes| ensures Placed(t, x) { assert Placed(s, x); }
  }

  /** Actions that leave the old nodes, their status, the queues' contents and the ready list alone. */
  ghost predicate Aside(a: Action) {
    !a.Submit? && !a.Enqueue? && !a.Exec? && !a.Recycle?
  }

  lemma OtherKeepsLoose(s: State, a: Action)
    requires Loose(s) && Enabled(s, a) && Aside(a)
    ensures Loose(Next(s, a))
  {
    var t := Next(s, a);
    MoreNodesReady(s, t);
    forall p: nat | p < |t.queues| ensures Queue(t, p) {
      if p < |s.queues| { assert Queue(s, p); }
    }
    forall e: nat | e < |t.nodes| ensures Placed(t, e) {
      if e < |s.nodes| { assert Placed(s, e); }
    }
  }

  /** Every action keeps queues, ready list and status in step. */
  lemma NextKeepsLoose(s: State, a: Action)
    requires Loose(s) && Enabled(s, a)
    ensures Loose(Next(s, a))
  {
    match a
    case Submit(q) => SubmitKeepsLoose(s, q);
    case Enqueue(q, waits, kind, op) => EnqueueKeepsLoose(s, q, waits, kind, op);
    case Exec => ExecKeepsLoose(s);
    case Recycle(e) => RecycleKeepsLoose(s, e);
    case _ => OtherKeepsLoose(s, a);
  }

  lemma OtherKeepsValid(s: State, a: Action)
    requires Valid(s) && Enabled(s, a) && Aside(a)
    ensures Valid(Next(s, a))
  {
    var t := Next(s, a);
    OtherKeepsLoose(s, a);
    forall p | 0 <= p < |t.queues| ensures QueueOk(t, p) {
      if p < |s.queues| { assert QueueOk(s, p); }
    }
    forall e: nat | e < |t.nodes|
      ensures Placed(t, e) && (t.status[e] == Complete ==> AllComplete(t, t.nodes[e].waits))
    {
      if e < |s.nodes| {
        assert s.status[e] == Complete ==> AllComplete(s, s.nodes[e].waits);
      }
    }
  }

  /** Every action but the reuse of an event keeps the invariant of fresh events. */
  lemma NextKeepsValid(s: State, a: Action)
    requires Valid(s) && Enabled(s, a) && !a.Recycle?
    ensures Valid(Next(s, a))
  {
    NextKeepsLoose(s, a);
    match a
    case Submit(q) =>
      SubmitKeepsStatus(s, q);
      forall p | 0 <= p < |s.queues| { SubmitKeepsQueue(s, q, p); }
    case Enqueue(q, waits, kind, op) =>
      EnqueueKeepsStatus(s, q, waits, kind, op);
      forall p | 0 <= p < |s.queues| { EnqueueKeepsQueue(s, q, waits, kind, op, p); }
    case Exec =>
      ExecKeepsStatus(s);
      forall p | 0 <= p < |s.queues| { ExecKeepsQueue(s, p); }
    case _ => OtherKeepsValid(s, a);
  }
}
