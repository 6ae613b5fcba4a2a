/**
 When clFinish ends, for arbitrary wait lists: the loop turn by turn, without any assumption that
 makes it end.
 */
module Termination {
  import opened Runtime
  import opened Waiting
  import opened Finish

  /** The loop of clFinish between two turns. */
  datatype Loop = Loop(s: State, at: QueueId)

  ghost predicate LoopOk(l: Loop, target: QueueId) {
    Loose(l.s) && l.at < |l.s.queues| && target < |l.s.queues|
  }

  lemma HeadInQueue(s: State, at: QueueId)
    requires Loose(s) && at < |s.queues| && s.queues[at] != []
    ensures s.queues[at][0] < |s.nodes| && InQueue(s, s.queues[at][0]) && s.nodes[s.queues[at][0]].queue == at
  {
    assert Queue(s, at);
  }

  /** One turn of the while loop. */
  function Turn(l: Loop, target: QueueId): (r: Loop)
    requires LoopOk(l, target)
    ensures LoopOk(r, target) && NodesKnown(r.s) && |r.s.queues| == |l.s.queues| && r.s.nodes == l.s.nodes
  {
    if l.s.queues[l.at] == [] then Loop(l.s, target)
    else
      HeadInQueue(l.s, l.at);
      var w := LastUnsatisfied(l.s, l.s.nodes[l.s.queues[l.at][0]].waits);
      if w >= 0 then Loop(l.s, l.s.nodes[w].queue)
      else
        SubmitKeepsLoose(l.s, l.at);
        Loop(Submitting(l.s, l.at), l.at)
  }

  /** What happens to the loop in a turn: nothing any more once its queue is empty. */
  ghost function Step(target: QueueId): Loop -> Loop {
    l => if LoopOk(l, target) && l.s.queues[target] != [] then Turn(l, target) else l
  }

  ghost function Turns(f: Loop -> Loop, l: Loop, n: nat): Loop
    decreases n
  {
    if n == 0 then l else Turns(f, f(l), n - 1)
  }

  lemma {:induction false} TurnsKeep(f: Loop -> Loop, good: Loop -> bool, l: Loop, n: nat)
    requires good(l) && forall x :: good(x) ==> good(f(x))
    ensures good(Turns(f, l, n))
    decreases n
  {
    if n > 0 { TurnsKeep(f, good, f(l), n - 1); }
  }

  lemma FirstTurn(f: Loop -> Loop, l: Loop, r: Loop, n: nat)
    requires f(l) == r
    ensures Turns(f, l, n + 1) == Turns(f, r, n)
  {
  }

  ghost predicate EndsAfter(s: State, q: QueueId, n: nat) {
    var t := Turns(Step(q), Loop(s, q), n).s;
    q < |t.queues| && t.queues[q] == []
  }

  /** The loop that clFinish starts on queue q comes to an end. */
  ghost predicate Terminates(s: State, q: QueueId) {
    exists n: nat :: EndsAfter(s, q, n)
  }

  // ---------- without cycles it ends ----------

  lemma TurnDescends(l: Loop, target: QueueId) returns (r: Loop)
    requires LoopOk(l, target) && Schedulable(l.s) && Acyclic(l.s) && l.s.queues[target] != []
    ensures Step(target)(l) == r && LoopOk(r, target) && Schedulable(r.s) && Acyclic(r.s)
    ensures Drain(r.s, target, r.at) == Drain(l.s, target, l.at)
    ensures Total(r.s.queues) < Total(l.s.queues)
            || (Total(r.s.queues) == Total(l.s.queues) && Rank(r.s, r.at) < Rank(l.s, l.at))
  {
    r := Turn(l, target);
    var s, at := l.s, l.at;
    if s.queues[at] == [] {
      RankOfHead(s, target);
    } else {
      HeadInQueue(s, at);
      var w := LastUnsatisfied(s, s.nodes[s.queues[at][0]].waits);
      if w >= 0 {
        HopDescends(s, at, w);
      } else {
        SubmitDescends(s, at);
        SchedulableIs(Submitting(s, at));
      }
    }
  }

  /** A loop whose turns lower a pair of numbers ends, with what the turns leave unchanged. */
  lemma {:induction false} CountsDown(f: Loop -> Loop, done: Loop -> bool, good: Loop -> bool,
                                      major: Loop -> nat, minor: Loop -> nat, result: Loop -> State, l: Loop)
    returns (n: nat)
    requires good(l)
    requires forall x :: good(x) && !done(x) ==>
      && good(f(x)) && result(f(x)) == result(x)
      && (major(f(x)) < major(x) || (major(f(x)) == major(x) && minor(f(x)) < minor(x)))
    ensures good(Turns(f, l, n)) && done(Turns(f, l, n)) && result(Turns(f, l, n)) == result(l)
    decreases major(l), minor(l)
  {
    n := 0;
    if !done(l) {
      var m := CountsDown(f, done, good, major, minor, result, f(l));
      FirstTurn(f, l, f(l), m);
      n := m + 1;
    }
  }

  ghost predicate Ending(l: Loop, target: QueueId) {
    LoopOk(l, target) && Schedulable(l.s) && Acyclic(l.s)
  }

  ghost function Drained(l: Loop, target: QueueId): State {
    if Ending(l, target) then Drain(l.s, target, l.at) else l.s
  }

  /** And then it has come to what Drain says. */
  lemma DrainIsTurns(l: Loop, target: QueueId) returns (n: nat)
    requires Ending(l, target)
    ensures Turns(Step(target), l, n).s == Drain(l.s, target, l.at)
  {
    var good := x => Ending(x, target);
    var done := (x: Loop) => target < |x.s.queues| && x.s.queues[target] == [];
    var major: Loop -> nat := (x: Loop) => Total(x.s.queues);
    var minor: Loop -> nat := (x: Loop) => if Ending(x, target) then Rank(x.s, x.at) else 0;
    var result := x => Drained(x, target);
    forall x | good(x) && !done(x)
      ensures good(Step(target)(x)) && result(Step(target)(x)) == result(x)
      ensures major(Step(target)(x)) < major(x) || (major(Step(target)(x)) == major(x) && minor(Step(target)(x)) < minor(x))
    {
      var r := TurnDescends(x, target);
    }
    n := CountsDown(Step(target), done, good, major, minor, result, l);
  }

  /** One turn takes the loop from l to r. */
  ghost predicate TurnsTo(l: Loop, r: Loop, target: QueueId) {
    LoopOk(l, target) && l.s.queues[target] != [] && Turn(l, target) == r
  }

  lemma SubmitTurns(s: State, at: QueueId, t: State, target: QueueId)
    requires LoopOk(Loop(s, at), target) && s.queues[target] != [] && Enabled(s, Submit(at)) && Submitting(s, at) == t
    ensures TurnsTo(Loop(s, at), Loop(t, at), target)
  {
  }

  lemma HopTurns(s: State, at: QueueId, w: EventId, target: QueueId)
    requires LoopOk(Loop(s, at), target) && s.queues[target] != [] && s.queues[at] != []
    requires s.queues[at][0] < |s.nodes| && w < |s.nodes| && LastUnsatisfied(s, s.nodes[s.queues[at][0]].waits) == w
    ensures TurnsTo(Loop(s, at), Loop(s, s.nodes[w].queue), target)
  {
  }

  /** A loop followed turn by turn to the end of its queue. */
  lemma {:induction false} DrainFollows(ls: seq<Loop>, target: QueueId)
    requires ls != [] && Ending(ls[0], target) && forall i :: 0 <= i < |ls| - 1 ==> TurnsTo(ls[i], ls[i + 1], target)
    requires target < |ls[|ls| - 1].s.queues| && ls[|ls| - 1].s.queues[target] == []
    ensures Drain(ls[0].s, target, ls[0].at) == ls[|ls| - 1].s
    decreases |ls|
  {
    if |ls| > 1 {
      assert TurnsTo(ls[0], ls[1], target);
      var r := TurnDescends(ls[0], target);
      var rest := ls[1..];
      forall i | 0 <= i < |rest| - 1 ensures TurnsTo(rest[i], rest[i + 1], target) {
        assert TurnsTo(ls[i + 1], ls[i + 2], target);
      }
      DrainFollows(rest, target);
    }
  }

  lemma TwoTurns(a: Loop, b: Loop, c: Loop, target: QueueId)
    requires Ending(a, target) && TurnsTo(a, b, target) && TurnsTo(b, c, target)
    requires target < |c.s.queues| && c.s.queues[target] == []
    ensures Drain(a.s, target, a.at) == c.s
  {
    DrainFollows([a, b, c], target);
  }

  // ---------- with a cycle it does not ----------

  /** Queued commands each of which needs another of them. */
  ghost predicate Deadlocked(s: State, C: set<EventId>)
    requires NodesKnown(s)
  {
    forall c :: c in C ==> NeedsOneOf(s, c, C)
  }

  ghost predicate NeedsOneOf(s: State, c: EventId, C: set<EventId>)
    requires NodesKnown(s)
  {
    exists d :: d in C && Needs(s, c, d)
  }

  lemma OneOf(s: State, c: EventId, C: set<EventId>) returns (d: EventId)
    requires NodesKnown(s) && Deadlocked(s, C) && c in C
    ensures d in C && Needs(s, c, d)
  {
    assert NeedsOneOf(s, c, C);
    d :| d in C && Needs(s, c, d);
  }

  lemma {:induction false} PathDeadlocked(s: State, p: seq<EventId>, c: EventId, d: EventId, k: nat)
    requires NodesKnown(s) && Path(s, p, c, d) && k + 1 < |p|
    ensures InQueue(s, p[k]) && Needs(s, p[k], p[k + 1])
    decreases |p|
  {
    if k > 0 { PathDeadlocked(s, p[1..], p[1], d, k - 1); }
  }

  lemma {:induction false} PathLast(s: State, p: seq<EventId>, c: EventId, d: EventId)
    requires NodesKnown(s) && Path(s, p, c, d)
    ensures p[|p| - 1] == d
    decreases |p|
  {
    if |p| > 2 { PathLast(s, p[1..], p[1], d); }
  }

  lemma CycleDeadlocks(s: State, c: EventId) returns (C: set<EventId>)
    requires NodesKnown(s) && Depends(s, c, c)
    ensures c in C && Deadlocked(s, C)
  {
    var p :| Path(s, p, c, c);
    C := set e | e in p;
    PathLast(s, p, c, c);
    forall e | e in C ensures NeedsOneOf(s, e, C) {
      var k: nat :| k < |p| && p[k] == e;
      var j := if k + 1 < |p| then k else 0;
      PathDeadlocked(s, p, c, c, j);
      assert p[j + 1] in C;
    }
  }

  /** No member of a deadlock is ever at the head of its queue with its waits satisfied. */
  lemma MemberNotReady(s: State, C: set<EventId>, at: QueueId)
    requires Loose(s) && Deadlocked(s, C) && at < |s.queues| && s.queues[at] != [] && s.queues[at][0] in C
    ensures s.queues[at][0] < |s.nodes| && LastUnsatisfied(s, s.nodes[s.queues[at][0]].waits) >= 0
  {
    var c := s.queues[at][0];
    HeadInQueue(s, at);
    var d := OneOf(s, c, C);
    HeadNotBehind(s, at, d);
    assert d in s.nodes[c].waits && !Satisfied(s, d);
  }

  lemma HeadNotBehind(s: State, at: QueueId, d: EventId)
    requires Loose(s) && at < |s.queues| && s.queues[at] != []
    ensures s.queues[at][0] < |s.nodes| && !Ahead(s, d, s.queues[at][0])
  {
    assert Queue(s, at);
  }

  lemma SubmitKeepsDeadlock(s: State, C: set<EventId>, q: QueueId)
    requires Loose(s) && Enabled(s, Submit(q)) && Deadlocked(s, C) && s.queues[q][0] !in C
    ensures NodesKnown(Submitting(s, q)) && Deadlocked(Submitting(s, q), C)
  {
    var t := Submitting(s, q);
    SubmitKeepsLoose(s, q);
    forall c | c in C ensures NeedsOneOf(t, c, C) {
      var d := OneOf(s, c, C);
      SubmitKeepsNeeds(s, q, c, d);
    }
  }

  lemma SubmitKeepsNeeds(s: State, q: QueueId, c: EventId, d: EventId)
    requires Loose(s) && Enabled(s, Submit(q)) && NodesKnown(Submitting(s, q))
    requires Needs(s, c, d) && c != s.queues[q][0] && d != s.queues[q][0]
    ensures Needs(Submitting(s, q), c, d)
  {
    if Ahead(s, d, c) { SubmitKeepsAhead(s, q, d, c); }
  }

  lemma SubmitKeepsAhead(s: State, q: QueueId, d: EventId, c: EventId)
    requires Loose(s) && Enabled(s, Submit(q)) && NodesKnown(Submitting(s, q)) && c < |s.nodes|
    requires Ahead(s, d, c) && d != s.queues[q][0]
    ensures Ahead(Submitting(s, q), d, c)
  {
    var p := s.nodes[c].queue;
    var Q, R := s.queues[p], Submitting(s, q).queues[p];
    var i, j :| 0 <= i < j < |Q| && Q[i] == d && Q[j] == c;
    if p == q { assert R[i - 1] == d && R[j - 1] == c; } else { assert R[i] == d && R[j] == c; }
  }

  lemma TurnKeepsDeadlock(l: Loop, target: QueueId, C: set<EventId>)
    requires LoopOk(l, target) && Deadlocked(l.s, C)
    ensures Deadlocked(Turn(l, target).s, C)
  {
    var s, at := l.s, l.at;
    if s.queues[at] != [] {
      HeadInQueue(s, at);
      var w := LastUnsatisfied(s, s.nodes[s.queues[at][0]].waits);
      if w < 0 {
        if s.queues[at][0] in C { MemberNotReady(s, C, at); }
        SubmitKeepsDeadlock(s, C, at);
      }
    }
  }

  /** The loop goes on among queues that hold the deadlocked commands. */
  ghost predicate Stuck(l: Loop, target: QueueId, C: set<EventId>, nodes: seq<Node>) {
    LoopOk(l, target) && Deadlocked(l.s, C) && l.s.nodes == nodes
  }

  lemma StepKeepsStuck(l: Loop, target: QueueId, C: set<EventId>, nodes: seq<Node>)
    requires Stuck(l, target, C, nodes)
    ensures Stuck(Step(target)(l), target, C, nodes)
  {
    if l.s.queues[target] != [] { TurnKeepsDeadlock(l, target, C); }
  }

  lemma StuckForever(l: Loop, target: QueueId, C: set<EventId>, nodes: seq<Node>, n: nat)
    requires Stuck(l, target, C, nodes)
    ensures Stuck(Turns(Step(target), l, n), target, C, nodes)
  {
    var stuck := x => Stuck(x, target, C, nodes);
    forall x | stuck(x) ensures stuck(Step(target)(x)) { StepKeepsStuck(x, target, C, nodes); }
    TurnsKeep(Step(target), stuck, l, n);
  }

  lemma StuckNotEnded(s: State, C: set<EventId>, c: EventId, n: nat)
    requires Loose(s) && Deadlocked(s, C) && c in C && c < |s.nodes| && s.nodes[c].queue < |s.queues|
    ensures !EndsAfter(s, s.nodes[c].queue, n)
  {
    var q := s.nodes[c].queue;
    StuckForever(Loop(s, q), q, C, s.nodes, n);
    MemberQueued(Turns(Step(q), Loop(s, q), n).s, C, c);
  }

  /** A finish of a queue with a deadlocked command never ends. */
  lemma DeadlockHangs(s: State, C: set<EventId>, c: EventId)
    requires Loose(s) && Deadlocked(s, C) && c in C
    ensures c < |s.nodes| && s.nodes[c].queue < |s.queues| && !Terminates(s, s.nodes[c].queue)
  {
    MemberQueued(s, C, c);
    forall n: nat ensures !EndsAfter(s, s.nodes[c].queue, n) { StuckNotEnded(s, C, c, n); }
  }

  lemma MemberQueued(s: State, C: set<EventId>, c: EventId)
    requires Loose(s) && Deadlocked(s, C) && c in C
    ensures c < |s.nodes| && c in s.queues[s.nodes[c].queue]
  {
    var d := OneOf(s, c, C);
    assert Placed(s, c);
  }

  // ---------- exactly when ----------

  ghost predicate EveryFinishEnds(s: State)
    requires Loose(s)
  {
    forall q: QueueId :: q < |s.queues| ==> Terminates(s, q)
  }

  /** clFinish ends for every queue iff no queued command needs itself, by queue order and unsatisfied waits. */
  lemma FinishEndsIff(s: State)
    requires Loose(s)
    ensures EveryFinishEnds(s) <==> Acyclic(s)
  {
    if Acyclic(s) {
      forall q: QueueId | q < |s.queues| ensures Terminates(s, q) {
        assert Schedulable(s);
        var n := DrainIsTurns(Loop(s, q), q);
        assert EndsAfter(s, q, n);
      }
    } else {
      var c: EventId :| Depends(s, c, c);
      var C := CycleDeadlocks(s, c);
      DeadlockHangs(s, C, c);
    }
  }
}
