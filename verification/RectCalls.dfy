/**
 What a rect command comes to: it takes references, finishes its queue, runs its operation and gives
 the references back, which is a finish of the queue and then the operation.
 */
module RectCalls {
  import opened Runtime
  import opened Finish
  import opened Calls
  import opened RefCount

  /** t is s with each buffer's count higher by its occurrences in `held`. */
  ghost predicate Lifted(s: State, t: State, held: seq<BufferId>) {
    && t == s.(bufs := t.bufs) && |t.bufs| == |s.bufs|
    && forall b: BufferId :: b < |s.bufs| ==> LiftedAt(s, t, held, b)
  }

  ghost predicate LiftedAt(s: State, t: State, held: seq<BufferId>, b: BufferId)
    requires b < |s.bufs| && b < |t.bufs|
  {
    t.bufs[b] == s.bufs[b].(refs := s.bufs[b].refs + Occurrences(held, b))
  }

  lemma RetainLifts(s: State, held: seq<BufferId>)
    requires Valid(s) && Below(held, |s.bufs|)
    ensures Valid(Next(s, Retain(held))) && Lifted(s, Next(s, Retain(held)), held)
  {
    NextKeepsValid(s, Retain(held));
    forall b: BufferId | b < |s.bufs| { AddRefsCounts(s.bufs, held, 1, b); }
  }

  lemma ExecLifts(s: State, t: State, held: seq<BufferId>)
    requires Valid(s) && Valid(t) && Lifted(s, t, held) && s.ready != []
    ensures Lifted(Executing(s), Executing(t), held)
  {
    var kind := s.nodes[s.ready[0]].kind;
    forall b: BufferId | b < |s.bufs| ensures LiftedAt(Executing(s), Executing(t), held, b) {
      assert LiftedAt(s, t, held, b);
      if !kind.Map? && !kind.Unmap? {
        AddRefsCounts(s.bufs, Uses(kind), -1, b);
        AddRefsCounts(t.bufs, Uses(kind), -1, b);
      }
    }
  }

  lemma {:induction false} ExecAllLifts(s: State, t: State, held: seq<BufferId>)
    requires Valid(s) && Valid(t) && Lifted(s, t, held)
    ensures Lifted(ExecAll(s), ExecAll(t), held)
    decreases |s.ready|
  {
    if s.ready != [] {
      ExecLifts(s, t, held);
      NextKeepsValid(s, Exec);
      NextKeepsValid(t, Exec);
      ExecAllLifts(Executing(s), Executing(t), held);
    }
  }

  lemma SubmitLifts(s: State, t: State, held: seq<BufferId>, at: QueueId)
    requires Valid(s) && Valid(t) && Lifted(s, t, held) && Enabled(s, Submit(at))
    ensures Enabled(t, Submit(at)) && Lifted(Submitting(s, at), Submitting(t, at), held)
  {
    forall b: BufferId | b < |s.bufs| ensures LiftedAt(Submitting(s, at), Submitting(t, at), held, b) {
      assert LiftedAt(s, t, held, b);
    }
  }

  /** The scheduling loop does not look at the counts. */
  lemma {:induction false} DrainLifts(s: State, t: State, held: seq<BufferId>, target: QueueId, at: QueueId)
    requires Valid(s) && Valid(t) && Lifted(s, t, held) && target < |s.queues| && at < |s.queues|
    ensures Lifted(Drain(s, target, at), Drain(t, target, at), held)
    decreases Total(s.queues), Rank(s, at)
  {
    if s.queues[target] == [] {
    } else if s.queues[at] == [] {
      RankOfHead(s, target);
      DrainLifts(s, t, held, target, target);
    } else {
      HeadKnown(s, at);
      var waits := s.nodes[s.queues[at][0]].waits;
      SameWaits(s, t, waits);
      var w := LastUnsatisfied(s, waits);
      if w >= 0 {
        HopDescends(s, at, w);
        DrainLifts(s, t, held, target, s.nodes[w].queue);
      } else {
        SubmitDescends(s, at);
        SubmitLifts(s, t, held, at);
        SubmitDescends(t, at);
        DrainLifts(Submitting(s, at), Submitting(t, at), held, target, at);
      }
    }
  }

  lemma FinishLifts(s: State, t: State, held: seq<BufferId>, q: QueueId)
    requires Valid(s) && Valid(t) && Lifted(s, t, held) && q < |s.queues|
    ensures Lifted(Finished(s, q), Finished(t, q), held)
  {
    DrainLifts(s, t, held, q, q);
    ExecAllLifts(Drain(s, q, q), Drain(t, q, q), held);
  }

  lemma ReleaseLowers(s: State, t: State, held: seq<BufferId>)
    requires Lifted(s, t, held) && Below(held, |s.bufs|)
    ensures AddRefs(t.bufs, held, -1) == s.bufs
  {
    forall b: BufferId | b < |s.bufs| ensures AddRefs(t.bufs, held, -1)[b] == s.bufs[b] {
      assert LiftedAt(s, t, held, b);
      AddRefsCounts(t.bufs, held, -1, b);
    }
  }

  /** A rect call is a finish of its queue and then its operation; it keeps no reference. */
  lemma RectIsFinishThenRun(s: State, q: QueueId, held: seq<BufferId>, waits: seq<EventId>, op: Memory -> Memory)
    requires Idle(s) && Callable(s, Rect(q, held, waits, op))
    ensures CallNext(s, Rect(q, held, waits, op)) == Finished(s, q).(mem := op(Finished(s, q).mem))
  {
    FinishRetained(s, q, held);
    RunAndRelease(Finished(s, q), RectPoint(s, q, held), held, op);
  }

  lemma FinishRetained(s: State, q: QueueId, held: seq<BufferId>)
    requires Idle(s) && q < |s.queues| && Below(held, |s.bufs|)
    ensures Lifted(Finished(s, q), RectPoint(s, q, held), held)
  {
    RetainLifts(s, held);
    FinishLifts(s, Next(s, Retain(held)), held, q);
  }

  lemma RunAndRelease(s: State, t: State, held: seq<BufferId>, op: Memory -> Memory)
    requires Lifted(s, t, held) && Below(held, |s.bufs|) && Valid(t)
    ensures Valid(Next(t, Touch(op))) && Next(Next(t, Touch(op)), Release(held)) == s.(mem := op(s.mem))
  {
    NextKeepsValid(t, Touch(op));
    ReleaseLowers(s, t, held);
  }
}
