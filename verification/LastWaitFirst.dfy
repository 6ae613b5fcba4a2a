/**
 Which queue clFinish hops to, shown by a program on three queues: a command that waits for two
 others makes the loop go for the last of its waits first, so that one runs first.
 */
module LastWaitFirst {
  import opened Runtime
  import opened Waiting
  import opened Finish
  import opened Termination
  import opened Programs

  type Op = Memory -> Memory

  /** Command 0 on queue 1 and command 1 on queue 2; command 2 on queue 0 waits for both, in that order. */
  function ThreeCommands(f: Op, g: Op, h: Op): seq<Node> {
    [Node(1, [], Marker, f), Node(2, [], Marker, g), Node(0, [0, 1], Marker, h)]
  }

  /** The state after k commands were queued. */
  function QueuedAt(k: nat, f: Op, g: Op, h: Op): State
    requires k <= 3
  {
    var status := [[], [Queued], [Queued, Queued], [Queued, Queued, Queued]];
    var queues := [[[], [], []], [[], [0], []], [[], [0], [1]], [[2], [0], [1]]];
    State(ThreeCommands(f, g, h)[..k], status[k], queues[k], [], [], map[])
  }

  /** The state in which clFinish of queue 0 has submitted k commands. */
  function SubmittedAt(k: nat, f: Op, g: Op, h: Op): State
    requires k <= 3
  {
    var status := [[Queued, Queued, Queued], [Queued, Submitted, Queued], [Submitted, Submitted, Queued], [Submitted, Submitted, Submitted]];
    var queues := [[[2], [0], [1]], [[2], [0], []], [[2], [], []], [[], [], []]];
    State(ThreeCommands(f, g, h), status[k], queues[k], [1, 0, 2][..k], [], map[])
  }

  function MemoryAt(k: nat, f: Op, g: Op, h: Op): Memory
    requires k <= 3
  {
    if k == 0 then map[] else if k == 1 then g(map[]) else if k == 2 then f(g(map[])) else h(f(g(map[])))
  }

  /** The state in which it has run k of them. */
  function ExecutedAt(k: nat, f: Op, g: Op, h: Op): State
    requires k <= 3
  {
    var status := [[Submitted, Submitted, Submitted], [Submitted, Complete, Submitted], [Complete, Complete, Submitted], [Complete, Complete, Complete]];
    State(ThreeCommands(f, g, h), status[k], [[], [], []], [1, 0, 2][k..], [], MemoryAt(k, f, g, h))
  }

  // ---------- queueing ----------

  function Queueing(k: nat, f: Op, g: Op, h: Op): Action
    requires k < 3
  {
    if k == 0 then Enqueue(1, [], Marker, f) else if k == 1 then Enqueue(2, [], Marker, g) else Enqueue(0, [0, 1], Marker, h)
  }

  lemma QueueFields(k: nat, q: QueueId, f: Op, g: Op, h: Op)
    requires k < 3 && q == [1, 2, 0][k]
    ensures var s, t, a := QueuedAt(k, f, g, h), QueuedAt(k + 1, f, g, h), Queueing(k, f, g, h);
      && a.q == q && |s.nodes| == k && s.queues[q] == []
      && t.nodes == s.nodes + [Node(q, a.waits, Marker, a.op)]
      && t.status == s.status + [Queued] && t.queues == s.queues[q := [k]]
  {
    assert ThreeCommands(f, g, h)[..k + 1] == ThreeCommands(f, g, h)[..k] + [ThreeCommands(f, g, h)[k]];
    var Q, R := QueuedAt(k, f, g, h).queues[q := [k]], QueuedAt(k + 1, f, g, h).queues;
    assert Q[0] == R[0] && Q[1] == R[1] && Q[2] == R[2];
  }

  lemma Queues(s: State, t: State, a: Action)
    requires Valid(s) && a.Enqueue? && a.kind == Marker && a.q < |s.queues| && s.queues[a.q] == [] && Below(a.waits, |s.nodes|)
    requires t == s.(nodes := s.nodes + [Node(a.q, a.waits, Marker, a.op)], status := s.status + [Queued],
                     queues := s.queues[a.q := [|s.nodes|]])
    ensures Enabled(s, a) && Next(s, a) == t && Valid(t)
  {
    assert s.queues[a.q] + [|s.nodes|] == [|s.nodes|];
    NextKeepsValid(s, a);
  }

  lemma QueueFollows(rs: seq<Request>, k: nat, f: Op, g: Op, h: Op)
    requires k < 3 && LeadsTo(rs, QueuedAt(k, f, g, h)) && Valid(QueuedAt(k, f, g, h))
    ensures LeadsTo(rs + [Do(Queueing(k, f, g, h))], QueuedAt(k + 1, f, g, h)) && Valid(QueuedAt(k + 1, f, g, h))
  {
    QueueFields(k, [1, 2, 0][k], f, g, h);
    Queues(QueuedAt(k, f, g, h), QueuedAt(k + 1, f, g, h), Queueing(k, f, g, h));
    LeadsOn(rs, QueuedAt(k, f, g, h), Do(Queueing(k, f, g, h)), QueuedAt(k + 1, f, g, h));
  }

  // ---------- the finish ----------

  lemma SubmitFields(k: nat, q: QueueId, e: EventId, f: Op, g: Op, h: Op)
    requires k < 3 && q == [2, 1, 0][k] && e == [1, 0, 2][k]
    ensures var s, t := SubmittedAt(k, f, g, h), SubmittedAt(k + 1, f, g, h);
      && s.queues[q] == [e] && e < |s.status|
      && t == s.(status := s.status[e := Submitted], queues := s.queues[q := []], ready := s.ready + [e])
  {
    var s, t := SubmittedAt(k, f, g, h), SubmittedAt(k + 1, f, g, h);
    var Q := s.queues[q := []];
    assert Q[0] == t.queues[0] && Q[1] == t.queues[1] && Q[2] == t.queues[2];
  }

  lemma HeadReady(k: nat, q: QueueId, f: Op, g: Op, h: Op)
    requires k < 3 && q == [2, 1, 0][k]
    ensures Enabled(SubmittedAt(k, f, g, h), Submit(q))
  {
    var s := SubmittedAt(k, f, g, h);
    assert s.queues[q] == [[1, 0, 2][k]];
    assert s.nodes[[1, 0, 2][k]].waits == if k < 2 then [] else [0, 1];
    assert k == 2 ==> s.status[0] == Submitted && s.status[1] == Submitted;
  }

  lemma SubmitStep(k: nat, q: QueueId, e: EventId, f: Op, g: Op, h: Op)
    requires k < 3 && q == [2, 1, 0][k] && e == [1, 0, 2][k] && Valid(SubmittedAt(k, f, g, h))
    ensures Enabled(SubmittedAt(k, f, g, h), Submit(q)) && Submitting(SubmittedAt(k, f, g, h), q) == SubmittedAt(k + 1, f, g, h)
    ensures Valid(SubmittedAt(k + 1, f, g, h))
  {
    SubmitFields(k, q, e, f, g, h);
    HeadReady(k, q, f, g, h);
    assert [e][1..] == [];
    NextKeepsValid(SubmittedAt(k, f, g, h), Submit(q));
  }

  /** Where the loop stands: each time it leaves queue 0 it goes for the last wait that is not satisfied. */
  function LoopAt(i: nat, f: Op, g: Op, h: Op): Loop
    requires i < 8
  {
    if i < 2 then Loop(SubmittedAt(0, f, g, h), if i == 0 then 0 else 2)
    else if i < 5 then Loop(SubmittedAt(1, f, g, h), if i == 2 then 2 else if i == 3 then 0 else 1)
    else if i < 7 then Loop(SubmittedAt(2, f, g, h), if i == 5 then 1 else 0)
    else Loop(SubmittedAt(3, f, g, h), 0)
  }

  /** From queue 0 to the queue of event 1, and the second time to that of event 0. */
  lemma Hops(k: nat, w: EventId, f: Op, g: Op, h: Op)
    requires k < 2 && w == 1 - k && Valid(SubmittedAt(k, f, g, h))
    ensures TurnsTo(Loop(SubmittedAt(k, f, g, h), 0), Loop(SubmittedAt(k, f, g, h), w + 1), 0)
  {
    var s := SubmittedAt(k, f, g, h);
    assert s.nodes[2].waits == [0, 1] && s.queues[0] == [2];
    assert LastAt(s, [0, 1], w);
    LastIsOne(s, [0, 1], w);
    HopTurns(s, 0, w, 0);
  }

  lemma Returns(k: nat, at: QueueId, f: Op, g: Op, h: Op)
    requires (k == 1 && at == 2) || (k == 2 && at == 1)
    requires Valid(SubmittedAt(k, f, g, h))
    ensures TurnsTo(Loop(SubmittedAt(k, f, g, h), at), Loop(SubmittedAt(k, f, g, h), 0), 0)
  {
    var s := SubmittedAt(k, f, g, h);
    assert s.queues[at] == [] && s.queues[0] == [2];
  }

  lemma SubmitsOne(k: nat, f: Op, g: Op, h: Op)
    requires k < 3 && Valid(SubmittedAt(k, f, g, h))
    ensures TurnsTo(Loop(SubmittedAt(k, f, g, h), [2, 1, 0][k]), Loop(SubmittedAt(k + 1, f, g, h), [2, 1, 0][k]), 0)
    ensures Valid(SubmittedAt(k + 1, f, g, h))
  {
    var q := [2, 1, 0][k];
    SubmitStep(k, q, [1, 0, 2][k], f, g, h);
    assert SubmittedAt(k, f, g, h).queues[0] == [2];
    SubmitTurns(SubmittedAt(k, f, g, h), q, SubmittedAt(k + 1, f, g, h), 0);
  }

  lemma {:induction false} AllValid(k: nat, f: Op, g: Op, h: Op)
    requires k <= 3 && Valid(SubmittedAt(0, f, g, h))
    ensures Valid(SubmittedAt(k, f, g, h))
  {
    if k > 0 {
      AllValid(k - 1, f, g, h);
      SubmitsOne(k - 1, f, g, h);
    }
  }

  lemma LoopTurns(i: nat, f: Op, g: Op, h: Op)
    requires i < 7 && Valid(SubmittedAt(0, f, g, h))
    ensures TurnsTo(LoopAt(i, f, g, h), LoopAt(i + 1, f, g, h), 0)
  {
    AllValid(1, f, g, h);
    AllValid(2, f, g, h);
    if i == 0 { Hops(0, 1, f, g, h); }
    else if i == 1 { SubmitsOne(0, f, g, h); }
    else if i == 2 { Returns(1, 2, f, g, h); }
    else if i == 3 { Hops(1, 0, f, g, h); }
    else if i == 4 { SubmitsOne(1, f, g, h); }
    else if i == 5 { Returns(2, 1, f, g, h); }
    else { SubmitsOne(2, f, g, h); }
  }

  /** The ready list holds the last wait, then the first, then the command that waits for them. */
  lemma DrainsInOrder(f: Op, g: Op, h: Op)
    requires Valid(SubmittedAt(0, f, g, h))
    ensures Drain(SubmittedAt(0, f, g, h), 0, 0) == SubmittedAt(3, f, g, h) && Valid(SubmittedAt(3, f, g, h))
    ensures Drain(SubmittedAt(0, f, g, h), 0, 0).ready == [1, 0, 2]
  {
    var ls := seq(8, i requires 0 <= i < 8 => LoopAt(i, f, g, h));
    forall i | 0 <= i < 7 ensures TurnsTo(ls[i], ls[i + 1], 0) { LoopTurns(i, f, g, h); }
    ValidIsAcyclic(SubmittedAt(0, f, g, h));
    assert ls[0] == LoopAt(0, f, g, h) && ls[7] == LoopAt(7, f, g, h);
    AllValid(3, f, g, h);
    DrainFollows(ls, 0);
  }

  lemma ExecFields(k: nat, f: Op, g: Op, h: Op)
    requires k < 3
    ensures var s, t, e := ExecutedAt(k, f, g, h), ExecutedAt(k + 1, f, g, h), [1, 0, 2][k];
      && s.ready != [] && s.ready[0] == e && t.status == s.status[e := Complete] && t.ready == s.ready[1..]
      && s.nodes[e].kind == Marker && t.mem == s.nodes[e].op(s.mem)
  {
  }

  lemma {:induction false} ExecutesRest(k: nat, f: Op, g: Op, h: Op)
    requires k <= 3 && Valid(ExecutedAt(k, f, g, h))
    ensures ExecAll(ExecutedAt(k, f, g, h)) == ExecutedAt(3, f, g, h)
    decreases 3 - k
  {
    if k < 3 {
      ExecFields(k, f, g, h);
      NextKeepsValid(ExecutedAt(k, f, g, h), Exec);
      ExecAllTurns(ExecutedAt(k, f, g, h), ExecutedAt(k + 1, f, g, h));
      ExecutesRest(k + 1, f, g, h);
    }
  }

  lemma SameStages(f: Op, g: Op, h: Op)
    ensures QueuedAt(3, f, g, h) == SubmittedAt(0, f, g, h) && SubmittedAt(3, f, g, h) == ExecutedAt(0, f, g, h)
  {
  }

  lemma FinishesInOrder(f: Op, g: Op, h: Op)
    requires Valid(QueuedAt(3, f, g, h))
    ensures Finished(QueuedAt(3, f, g, h), 0) == ExecutedAt(3, f, g, h)
  {
    SameStages(f, g, h);
    DrainsInOrder(f, g, h);
    ExecutesRest(0, f, g, h);
  }

  // ---------- the program ----------

  function ThreeQueues(): seq<Request> {
    [Do(NewQueue), Do(NewQueue), Do(NewQueue)]
  }

  function Program(rs: seq<Request>, f: Op, g: Op, h: Op): seq<Request> {
    rs + [Do(Queueing(0, f, g, h))] + [Do(Queueing(1, f, g, h))] + [Do(Queueing(2, f, g, h))] + [FinishQueue(0)]
  }

  lemma QueuesAdded(none: seq<Request>, s: State, rs: seq<Request>, t: State)
    requires LeadsTo(none, s) && Valid(s) && s.queues == []
    requires rs == none + [Do(NewQueue)] + [Do(NewQueue)] + [Do(NewQueue)] && t == s.(queues := [[], [], []])
    ensures LeadsTo(rs, t) && Valid(t)
  {
    var one := s.(queues := s.queues + [[]]);
    var two := one.(queues := one.queues + [[]]);
    QueueAdded(none, s);
    QueueAdded(none + [Do(NewQueue)], one);
    QueueAdded(none + [Do(NewQueue)] + [Do(NewQueue)], two);
    assert two.queues + [[]] == [[], [], []];
  }

  lemma ProgramLeads(a: nat, b: nat, c: nat, d: nat, rs: seq<Request>, f: Op, g: Op, h: Op)
    requires a == 0 && b == 1 && c == 2 && d == 3 && LeadsTo(rs, QueuedAt(a, f, g, h)) && Valid(QueuedAt(a, f, g, h))
    ensures LeadsTo(rs + [Do(Queueing(a, f, g, h))] + [Do(Queueing(b, f, g, h))] + [Do(Queueing(c, f, g, h))] + [FinishQueue(0)],
                    ExecutedAt(d, f, g, h))
  {
    QueueFollows(rs, a, f, g, h);
    QueueFollows(rs + [Do(Queueing(a, f, g, h))], b, f, g, h);
    QueueFollows(rs + [Do(Queueing(a, f, g, h))] + [Do(Queueing(b, f, g, h))], c, f, g, h);
    FinishesInOrder(f, g, h);
    LeadsOn(rs + [Do(Queueing(a, f, g, h))] + [Do(Queueing(b, f, g, h))] + [Do(Queueing(c, f, g, h))],
            QueuedAt(d, f, g, h), FinishQueue(0), ExecutedAt(d, f, g, h));
  }

  lemma FromNothing(none: seq<Request>, s: State, rs: seq<Request>, f: Op, g: Op, h: Op)
    requires none == [] && s == INITIAL && LeadsTo(none, s) && rs == ThreeQueues()
    ensures LeadsTo(Program(rs, f, g, h), ExecutedAt(3, f, g, h))
  {
    QueuesAdded(none, s, rs, QueuedAt(0, f, g, h));
    ProgramLeads(0, 1, 2, 3, rs, f, g, h);
  }

  /** The program ends with the last wait's operation run first, then the first wait's, then that of the command that waits. */
  lemma LastWaitRunsFirst(f: Op, g: Op, h: Op) returns (t: State)
    ensures LeadsTo(Program(ThreeQueues(), f, g, h), t)
    ensures t.queues == [[], [], []] && t.status == [Complete, Complete, Complete] && t.mem == h(f(g(map[])))
  {
    NothingLeads();
    FromNothing([], INITIAL, ThreeQueues(), f, g, h);
    t := ExecutedAt(3, f, g, h);
  }

  function Writes(l: Location, v: int): Op {
    m => m[l := v]
  }

  /** So of two commands that write one cell, that of the first wait has the last word. */
  lemma FirstWaitWins(l: Location) returns (t: State)
    ensures LeadsTo(Program(ThreeQueues(), Writes(l, 1), Writes(l, 2), m => m), t) && t.mem == map[l := 1]
  {
    t := LastWaitRunsFirst(Writes(l, 1), Writes(l, 2), m => m);
  }
}
