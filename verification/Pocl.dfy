/**
 The runtime as pocl runs it: one object whose methods update the queues, the events, the
 buffers and memory in place.  Each method is proved equal to the actions of module Runtime.
 */
module Pocl {
  import opened Common
  import opened MappingList
  import opened Runtime
  import opened Waiting
  import opened Finish
  import opened Calls
  import opened RectCalls

  class PoclRuntime {
    var nodes: seq<Node>
    var status: seq<Status>
    var queues: seq<seq<EventId>>
    var bufs: seq<Buffer>
    var mem: Memory

    /** The state when the commands `ready` have been submitted. */
    ghost function At(ready: seq<EventId>): State
      reads this
    {
      State(nodes, status, queues, ready, bufs, mem)
    }

    constructor ()
      ensures At([]) == INITIAL
    {
      nodes, status, queues, bufs, mem := [], [], [], [], map[];
    }

    method CreateCommandQueue() returns (q: QueueId)
      requires Idle(At([]))
      modifies this
      ensures At([]) == Next(old(At([])), NewQueue) && q == |old(queues)|
    {
      q := |queues|;
      queues := queues + [[]];
    }

    method CreateBuffer() returns (b: BufferId)
      requires Idle(At([]))
      modifies this
      ensures At([]) == Next(old(At([])), NewBuffer) && b == |old(bufs)|
    {
      b := |bufs|;
      bufs := bufs + [Buffer(1, 0, EMPTY)];
    }

    /** clRetainMemObject and clReleaseMemObject, for each object listed. */
    method Credit(ids: seq<BufferId>, d: int)
      requires Below(ids, |bufs|)
      modifies this`bufs
      ensures bufs == AddRefs(old(bufs), ids, d)
    {
      for i := 0 to |ids|
        invariant |bufs| == |old(bufs)|
        invariant AddRefs(bufs, ids[i..], d) == AddRefs(old(bufs), ids, d)
      {
        assert ids[i..][1..] == ids[i + 1..];
        bufs := bufs[ids[i] := bufs[ids[i]].(refs := bufs[ids[i]].refs + d)];
      }
    }

    /** pocl_create_command: a fresh event, and in an in-order queue the predecessor in the wait list. */
    method CreateCommand(q: QueueId, waits: seq<EventId>, kind: Kind, op: Memory -> Memory) returns (e: EventId)
      requires q < |queues|
      modifies this`nodes, this`status
      ensures e == |old(nodes)|
      ensures nodes == old(nodes) + [Node(q, WaitList(old(At([])), q, waits), kind, op)]
      ensures status == old(status) + [Complete]
    {
      e := |nodes|;
      var newWaits := waits;
      if queues[q] != [] {
        newWaits := newWaits + [queues[q][|queues[q]| - 1]];
      }
      nodes := nodes + [Node(q, newWaits, kind, op)];
      status := status + [Complete];
    }

    /** pocl_command_enqueue. */
    method CommandEnqueue(q: QueueId, e: EventId)
      requires q < |queues| && e < |status|
      modifies this`queues, this`status
      ensures queues == old(queues)[q := old(queues)[q] + [e]] && status == old(status)[e := Queued]
    {
      queues := queues[q := queues[q] + [e]];
      status := status[e := Queued];
    }

    /** POCL_UPDATE_EVENT_*: the macros assert that an event takes one step at a time. */
    method UpdateEvent(e: EventId, from: Status, to: Status)
      requires e < |status| && status[e] == from
      requires (from, to) in {(Queued, Submitted), (Submitted, Running), (Running, Complete)}
      modifies this`status
      ensures status == old(status)[e := to]
    {
      status := status[e := to];
    }

    // ---------- enqueueing ----------

    method EnqueueBufferCommand(q: QueueId, kind: Kind, waits: seq<EventId>, op: Memory -> Memory, blocking: bool) returns (e: EventId)
      requires Idle(At([])) && Enabled(At([]), Enqueue(q, waits, kind, op))
      requires kind.Read? || kind.Write? || kind.Copy? || kind.Marker?
      modifies this
      ensures e == |old(nodes)| && e < |status| && q < |queues|
      ensures blocking ==> queues[q] == [] && status[e] == Complete
      ensures At([]) == CallNext(old(At([])), if blocking then Blocking(q, waits, kind, op) else Basic(Enqueue(q, waits, kind, op)))
    {
      ghost var s := At([]);
      e := CreateCommand(q, waits, kind, op);
      Credit(Uses(kind), 1);
      CommandEnqueue(q, e);
      assert At([]) == Enqueuing(s, q, waits, kind, op);
      QueuedCall(s, q, waits, kind, op);
      if blocking { FinishUntil(q, e); }
    }

    method EnqueueNDRangeKernel(q: QueueId, args: seq<Option<BufferId>>, waits: seq<EventId>, op: Memory -> Memory) returns (e: EventId)
      requires Idle(At([])) && Enabled(At([]), Enqueue(q, waits, NDRange(args), op))
      modifies this
      ensures At([]) == Next(old(At([])), Enqueue(q, waits, NDRange(args), op)) && e == |old(nodes)|
    {
      e := CreateCommand(q, waits, NDRange(args), op);
      for i := 0 to |args|
        invariant |bufs| == |old(bufs)| && Below(Present(args[i..]), |bufs|)
        invariant AddRefs(bufs, Present(args[i..]), 1) == AddRefs(old(bufs), Present(args), 1)
        invariant nodes == old(nodes) + [Node(q, WaitList(old(At([])), q, waits), NDRange(args), op)]
        invariant status == old(status) + [Complete] && queues == old(queues) && mem == old(mem)
      {
        assert args[i..][1..] == args[i + 1..];
        match args[i]
        case Some(b) =>
          assert Present(args[i..])[0] == b;
          assert Present(args[i..])[1..] == Present(args[i + 1..]);
          bufs := bufs[b := bufs[b].(refs := bufs[b].refs + 1)];
        case None =>
          assert Present(args[i..]) == Present(args[i + 1..]);
      }
      CommandEnqueue(q, e);
    }

    /** The loop over the memory objects: it stops at a null one. */
    method RetainObjects(mems: seq<Option<BufferId>>) returns (ok: bool)
      requires Below(BeforeNull(mems), |bufs|)
      modifies this`bufs
      ensures ok <==> None !in mems
      ensures bufs == AddRefs(old(bufs), BeforeNull(mems), 1)
    {
      assert mems[0..] == mems;
      for i := 0 to |mems|
        invariant |bufs| == |old(bufs)| && None !in mems[..i]
        invariant Below(BeforeNull(mems[i..]), |bufs|)
        invariant AddRefs(bufs, BeforeNull(mems[i..]), 1) == AddRefs(old(bufs), BeforeNull(mems), 1)
      {
        assert mems[i..][1..] == mems[i + 1..];
        match mems[i]
        case None =>
          return false;
        case Some(b) =>
          var rest := BeforeNull(mems[i + 1..]);
          assert BeforeNull(mems[i..]) == [b] + rest && ([b] + rest)[1..] == rest;
          bufs := bufs[b := bufs[b].(refs := bufs[b].refs + 1)];
      }
      assert mems[..|mems|] == mems;
      return true;
    }

    /** Objects are retained one by one; at a null one the call fails and what was retained stays so. */
    method EnqueueNativeKernel(q: QueueId, mems: seq<Option<BufferId>>, waits: seq<EventId>, op: Memory -> Memory) returns (ok: bool)
      requires Idle(At([])) && q < |queues| && Below(waits, |nodes|) && Below(Present(mems), |bufs|)
      modifies this
      ensures ok <==> None !in mems
      ensures ok ==> At([]) == Next(old(At([])), Enqueue(q, waits, Native(Present(mems)), op))
      ensures !ok ==> Below(BeforeNull(mems), |old(bufs)|) && At([]) == Next(old(At([])), NativeFailed(q, BeforeNull(mems)))
    {
      BeforeNullPresent(mems);
      var e := CreateCommand(q, waits, Native(Present(mems)), op);
      ok := RetainObjects(mems);
      if ok {
        CommandEnqueue(q, e);
      } else {
        nodes := nodes[e := DeadNode(q)];
      }
    }

    /** `hostPtr` is where the device driver places the mapping. */
    method EnqueueMapBuffer(q: QueueId, b: BufferId, hostPtr: int, waits: seq<EventId>, op: Memory -> Memory, blocking: bool) returns (e: EventId)
      requires Idle(At([])) && Enabled(At([]), Enqueue(q, waits, Map(b, hostPtr), op))
      modifies this
      ensures e == |old(nodes)| && e < |status| && q < |queues|
      ensures blocking ==> queues[q] == [] && status[e] == Complete
      ensures At([]) == CallNext(old(At([])),
                if blocking then Blocking(q, waits, Map(b, hostPtr), op) else Basic(Enqueue(q, waits, Map(b, hostPtr), op)))
    {
      QueuedCall(At([]), q, waits, Map(b, hostPtr), op);
      e := QueueMap(q, b, hostPtr, waits, op);
      if blocking { FinishUntil(q, e); }
    }

    /** The mapping is recorded at once, the command only queued. */
    method QueueMap(q: QueueId, b: BufferId, hostPtr: int, waits: seq<EventId>, op: Memory -> Memory) returns (e: EventId)
      requires NodesOk(At([])) && Enabled(At([]), Enqueue(q, waits, Map(b, hostPtr), op))
      modifies this
      ensures e == |old(nodes)| && At([]) == Enqueuing(old(At([])), q, waits, Map(b, hostPtr), op)
    {
      Credit([b], 1);
      e := CreateCommand(q, waits, Map(b, hostPtr), op);
      bufs := bufs[b := bufs[b].(mappings := Append(bufs[b].mappings, e, hostPtr))];
      CommandEnqueue(q, e);
    }

    /** The scan over a list of mappings, if it ends: after that many steps. */
    method FindMapping(l: MapList, mappedPtr: int, ghost steps: nat) returns (r: Option<EventId>)
      requires l.MapList? && !Scan(l, l.head, mappedPtr, steps).Looking?
      ensures Outcome(r) == Scan(l, l.head, mappedPtr, steps)
      ensures WellFormed(l) ==> r == First(l, Content(l), mappedPtr)
    {
      if WellFormed(l) { DecidedIsFirst(l, mappedPtr, steps); }
      r := l.head;
      ghost var left := steps;
      while r.Some? && !(r.value in l.address && l.address[r.value] == mappedPtr)
        invariant Scan(l, r, mappedPtr, left) == Scan(l, l.head, mappedPtr, steps)
        decreases left
      {
        r := l.next[r.value];
        left := left - 1;
      }
    }

    /** None stands for CL_INVALID_VALUE: no mapping of the object has this pointer, and nothing changes. */
    method EnqueueUnmapMemObject(q: QueueId, b: BufferId, mappedPtr: int, waits: seq<EventId>, op: Memory -> Memory, ghost steps: nat)
      returns (r: Option<EventId>)
      requires Idle(At([])) && q < |queues| && b < |bufs| && Below(waits, |nodes|)
      requires var l := bufs[b].mappings; l.MapList? && !Scan(l, l.head, mappedPtr, steps).Looking?
      modifies this
      ensures var l := old(bufs)[b].mappings;
        && Outcome(r) == Scan(l, l.head, mappedPtr, steps)
        && (WellFormed(l) ==> r == First(l, Content(l), mappedPtr))
      ensures r.None? ==> At([]) == old(At([]))
      ensures r.Some? ==> At([]) == Next(old(At([])), Enqueue(q, waits, Unmap(b, r.value), op))
    {
      r := FindMapping(bufs[b].mappings, mappedPtr, steps);
      if r.Some? {
        var e := CreateCommand(q, waits, Unmap(b, r.value), op);
        CommandEnqueue(q, e);
      }
    }

    /** clEnqueueReadBufferRect, WriteBufferRect and CopyBufferRect: finish the queue, then run directly. */
    method RunRectDirectly(q: QueueId, held: seq<BufferId>, waits: seq<EventId>, op: Memory -> Memory)
      requires Idle(At([])) && q < |queues| && Below(held, |bufs|) && Below(waits, |nodes|)
      modifies this
      ensures At([]) == CallNext(old(At([])), Rect(q, held, waits, op))
      ensures At([]) == Finished(old(At([])), q).(mem := op(Finished(old(At([])), q).mem))
    {
      ghost var s := At([]);
      RectIsFinishThenRun(s, q, held, waits, op);
      NextKeepsValid(s, Retain(held));
      Credit(held, 1);
      assert At([]) == Next(s, Retain(held));
      FinishAll(q);
      RunAndRelease(held, op);
    }

    method RunAndRelease(held: seq<BufferId>, op: Memory -> Memory)
      requires Idle(At([])) && Below(held, |bufs|)
      modifies this`mem, this`bufs
      ensures Valid(Next(old(At([])), Touch(op))) && At([]) == Next(Next(old(At([])), Touch(op)), Release(held))
    {
      NextKeepsValid(At([]), Touch(op));
      mem := op(mem);
      Credit(held, -1);
    }

    // ---------- clFinish ----------

    /** The inner loop of clFinish over one wait list: the queue to hop to, if the command is not ready. */
    method CheckWaits(waits: seq<EventId>, at: QueueId) returns (ready: bool, hop: QueueId)
      requires Below(waits, |nodes|) && |nodes| == |status|
      ensures var w := LastUnsatisfied(At([]), waits);
        ready == (w < 0) && hop == if ready then at else nodes[w].queue
      ensures ready <==> forall i :: 0 <= i < |waits| ==> status[waits[i]] == Complete || status[waits[i]] == Submitted
      ensures !ready ==> exists k: nat :: LastAt(At([]), waits, k) && hop == nodes[waits[k]].queue
    {
      ready, hop := true, at;
      for i := 0 to |waits|
        invariant var w := LastUnsatisfied(At([]), waits[..i]);
          w < |nodes| && ready == (w < 0) && hop == if ready then at else nodes[w].queue
      {
        assert waits[..i + 1][..i] == waits[..i];
        if status[waits[i]] != Complete && status[waits[i]] != Submitted {
          hop := nodes[waits[i]].queue;
          ready := false;
        }
      }
      assert waits[..|waits|] == waits;
      if ready {
        assert forall i :: 0 <= i < |waits| ==> waits[i] in waits;
      } else {
        UnsatisfiedIsLast(At([]), waits);
      }
    }

    /** The command at the head of a queue moves to the end of the ready list. */
    method SubmitHead(at: QueueId, ready: seq<EventId>) returns (longer: seq<EventId>)
      requires Loose(At(ready)) && Enabled(At(ready), Submit(at))
      modifies this`status, this`queues
      ensures At(longer) == Submitting(old(At(ready)), at)
    {
      assert Queue(At(ready), at);
      var node := queues[at][0];
      UpdateEvent(node, Queued, Submitted);
      queues := queues[at := queues[at][1..]];
      longer := ready + [node];
    }

    /** It ends, and does what Finished says, in every state without a cycle of waits. */
    method FinishAll(target: QueueId)
      requires Schedulable(At([])) && target < |queues|
      modifies this
      ensures At([]) == Finished(old(At([])), target)
    {
      ghost var s := At([]);
      var at: QueueId := target;
      var ready: seq<EventId> := [];
      while queues[target] != []
        invariant Schedulable(At(ready)) && at < |queues| && |queues| == |s.queues|
        invariant Drain(At(ready), target, at) == Drain(s, target, target)
        decreases Total(queues), Rank(At(ready), at)
      {
        ghost var t := At(ready);
        SchedulableIs(t);
        if queues[at] == [] {
          RankOfHead(t, target);
          at := target;
        } else {
          HeadKnown(t, at);
          WaitsBelow(t, queues[at][0]);
          var isReady, hop := CheckWaits(nodes[queues[at][0]].waits, at);
          SameWaits(t, At([]), nodes[queues[at][0]].waits);
          ghost var w := LastUnsatisfied(t, t.nodes[t.queues[at][0]].waits);
          if isReady {
            SubmitDescends(t, at);
            ready := SubmitHead(at, ready);
          } else {
            HopDescends(t, at, w);
            at := hop;
          }
        }
      }
      ExecCommands(ready);
    }

    /** clFinish at the end of a blocking call: the command that the call queued has run. */
    method FinishUntil(q: QueueId, ghost e: EventId)
      requires Schedulable(At([])) && q < |queues| && e < |nodes| && nodes[e].queue == q
      modifies this
      ensures At([]) == Finished(old(At([])), q) && q < |queues| && queues[q] == []
      ensures e < |status| && status[e] == Complete
    {
      FinishCompletesQueue(At([]), q, e);
      FinishAll(q);
    }

    method ExecCommands(list: seq<EventId>)
      requires Schedulable(At(list))
      modifies this
      ensures At([]) == ExecAll(old(At(list)))
    {
      assert list[0..] == list;
      for i := 0 to |list|
        invariant Schedulable(At(list[i..])) && ExecAll(At(list[i..])) == ExecAll(old(At(list)))
      {
        assert list[i..][0] == list[i] && list[i..][1..] == list[i + 1..];
        ExecHead(list[i], list[i..]);
      }
    }

    /** The head of the ready list may run. */
    method ExecHead(e: EventId, ghost list: seq<EventId>)
      requires Schedulable(At(list)) && list != [] && list[0] == e
      modifies this
      ensures At(list[1..]) == Executing(old(At(list))) && Schedulable(At(list[1..]))
    {
      ExecKeepsSchedulable(At(list));
      StartsAfterItsWaits(At(list));
      ExecCommand(e);
    }

    /** One turn of exec_commands: everything the command waits for is COMPLETE. */
    method ExecCommand(e: EventId)
      requires e < |nodes| == |status| && status[e] == Submitted && UsesIn(nodes[e].kind, |bufs|)
      requires AllComplete(At([]), nodes[e].waits)
      modifies this`status, this`mem, this`bufs
      ensures status == old(status)[e := Complete] && mem == nodes[e].op(old(mem))
      ensures bufs == BuffersAtExec(old(bufs), nodes[e].kind)
    {
      var node := nodes[e];
      UpdateEvent(e, Submitted, Running);
      mem := node.op(mem);
      match node.kind {
        case Map(b, _) =>
          bufs := bufs[b := bufs[b].(mapCount := bufs[b].mapCount + 1)];
          UpdateEvent(e, Running, Complete);
        case Unmap(b, m) =>
          bufs := bufs[b := bufs[b].(mappings := Delete(bufs[b].mappings, m))];
          bufs := bufs[b := bufs[b].(mapCount := bufs[b].mapCount - 1)];
          UpdateEvent(e, Running, Complete);
        case _ =>
          UpdateEvent(e, Running, Complete);
          Credit(Uses(node.kind), -1);
      }
    }

    /** clWaitForEvents finishes the queue of each event: all of them end up COMPLETE. */
    method WaitForEvents(events: seq<EventId>)
      requires Idle(At([])) && Below(events, |nodes|)
      modifies this
      ensures Idle(At([])) && nodes == old(nodes)
      ensures AllComplete(At([]), events)
    {
      for i := 0 to |events|
        invariant Idle(At([])) && nodes == old(nodes)
        invariant AllComplete(At([]), events[..i])
      {
        ghost var s := At([]);
        FinishAll(nodes[events[i]].queue);
        FinishCompletes(s, nodes[events[i]].queue, events[i], events[i]);
        forall w | w in events[..i + 1] ensures w < |status| && status[w] == Complete {
          if w != events[i] { CompleteStays(s, nodes[events[i]].queue, w); }
        }
      }
      assert events[..|events|] == events;
    }
  }

  // ---------- helpers ----------

  /** A call that queues a command, and finishes the queue if it blocks. */
  lemma QueuedCall(s: State, q: QueueId, waits: seq<EventId>, kind: Kind, op: Memory -> Memory)
    requires Idle(s) && Enabled(s, Enqueue(q, waits, kind, op))
    ensures var t := Enqueuing(s, q, waits, kind, op);
      && Schedulable(t) && q < |t.queues|
      && CallNext(s, Basic(Enqueue(q, waits, kind, op))) == t
      && CallNext(s, Blocking(q, waits, kind, op)) == Finished(t, q)
  {
    NextKeepsValid(s, Enqueue(q, waits, kind, op));
  }

  lemma WaitsBelow(s: State, e: EventId)
    requires NodesKnown(s) && e < |s.nodes|
    ensures Below(s.nodes[e].waits, |s.nodes|)
  {
    forall i | 0 <= i < |s.nodes[e].waits| ensures s.nodes[e].waits[i] < |s.nodes| {
      assert s.nodes[e].waits[i] in s.nodes[e].waits;
    }
  }

  lemma {:induction false} BeforeNullPresent(mems: seq<Option<BufferId>>)
    ensures BeforeNull(mems) <= Present(mems)
    ensures None !in mems ==> BeforeNull(mems) == Present(mems)
  {
    if mems != [] { BeforeNullPresent(mems[1..]); }
  }
}
