/**
 One mapping unmapped twice, as a program can do by unmapping an address two times before finishing:
 the run step by step, and the list it leaves.
 */
module DoubleUnmap {
  import opened Common
  import opened MappingList
  import opened Runtime
  import opened Finish
  import opened Waiting
  import opened Termination
  import opened Programs
  import Mappings

  /** Two maps of one region and, after a finish, two unmaps of its address: both name the first mapping. */
  function Commands(p: int, op: Memory -> Memory): seq<Node> {
    [Node(0, [], Map(0, p), op), Node(0, [0], Map(0, p), op), Node(0, [], Unmap(0, 0), op), Node(0, [2], Unmap(0, 0), op)]
  }

  /** The buffer's list once n of: map, map, unmap, unmap have got to it. */
  function ListAfter(n: nat, p: int): MapList
    requires n <= 4
  {
    if n == 0 then EMPTY
    else if n <= 2 then Append(ListAfter(n - 1, p), n - 1, p)
    else Delete(ListAfter(n - 1, p), 0)
  }

  datatype Stage = Stage(nodes: nat, status: seq<Status>, queue: seq<EventId>, ready: seq<EventId>, refs: int, count: int, list: nat)

  function StageAt(k: nat): (g: Stage)
    requires k <= 12
    ensures g.nodes <= 4 && g.list <= 4
  {
    if k == 0 then Stage(0, [], [], [], 1, 0, 0)
    else if k == 1 then Stage(1, [Queued], [0], [], 2, 0, 1)
    else if k == 2 then Stage(2, [Queued, Queued], [0, 1], [], 3, 0, 2)
    else if k == 3 then Stage(2, [Submitted, Queued], [1], [0], 3, 0, 2)
    else if k == 4 then Stage(2, [Submitted, Submitted], [], [0, 1], 3, 0, 2)
    else if k == 5 then Stage(2, [Complete, Submitted], [], [1], 3, 1, 2)
    else if k == 6 then Stage(2, [Complete, Complete], [], [], 3, 2, 2)
    else if k == 7 then Stage(3, [Complete, Complete, Queued], [2], [], 3, 2, 2)
    else if k == 8 then Stage(4, [Complete, Complete, Queued, Queued], [2, 3], [], 3, 2, 2)
    else if k == 9 then Stage(4, [Complete, Complete, Submitted, Queued], [3], [2], 3, 2, 2)
    else if k == 10 then Stage(4, [Complete, Complete, Submitted, Submitted], [], [2, 3], 3, 2, 2)
    else if k == 11 then Stage(4, [Complete, Complete, Complete, Submitted], [], [3], 3, 1, 3)
    else Stage(4, [Complete, Complete, Complete, Complete], [], [], 3, 0, 4)
  }

  function StateAt(k: nat, p: int, op: Memory -> Memory): State
    requires k <= 12
  {
    var g := StageAt(k);
    State(Commands(p, op)[..g.nodes], g.status, [g.queue], g.ready, [Buffer(g.refs, g.count, ListAfter(g.list, p))], map[])
  }

  /** The command queued at a stage. */
  function CommandAt(k: nat, p: int, op: Memory -> Memory): Action {
    Enqueue(0, [], if k < 2 then Map(0, p) else Unmap(0, 0), op)
  }

  lemma Enqueues(s: State, t: State, kind: Kind, op: Memory -> Memory)
    requires Valid(s) && |s.queues| == 1 && |s.bufs| == 1 && UsesIn(kind, 1)
    requires t.nodes == s.nodes + [Node(0, WaitList(s, 0, []), kind, op)] && t.status == s.status + [Queued]
    requires |t.queues| == 1 && t.queues[0] == s.queues[0] + [|s.nodes|] && t.ready == s.ready && t.mem == s.mem
    requires t.bufs == BuffersAtEnqueue(s.bufs, |s.nodes|, kind)
    ensures Enabled(s, Enqueue(0, [], kind, op)) && Next(s, Enqueue(0, [], kind, op)) == t
  {
    assert s.queues[0 := s.queues[0] + [|s.nodes|]] == t.queues;
  }

  lemma Submits(s: State, t: State)
    requires Valid(s) && |s.queues| == 1 && Enabled(s, Submit(0)) && s.queues[0][0] < |s.status|
    requires t.nodes == s.nodes && t.status == s.status[s.queues[0][0] := Submitted] && |t.queues| == 1 && t.queues[0] == s.queues[0][1..]
    requires t.ready == s.ready + [s.queues[0][0]] && t.bufs == s.bufs && t.mem == s.mem
    ensures Next(s, Submit(0)) == t
  {
    assert s.queues[0 := s.queues[0][1..]] == t.queues;
  }

  lemma Executes(s: State, t: State, op: Memory -> Memory)
    requires Valid(s) && s.ready != [] && s.ready[0] < |s.nodes| && s.nodes[s.ready[0]].op == op && op(s.mem) == s.mem
    requires t.nodes == s.nodes && t.status == s.status[s.ready[0] := Complete] && t.ready == s.ready[1..]
    requires t.queues == s.queues && t.mem == s.mem && t.bufs == BuffersAtExec(s.bufs, s.nodes[s.ready[0]].kind)
    ensures Next(s, Exec) == t
  {
  }

  lemma NewStage(k: nat, i: nat)
    requires (k < 2 && i == k) || (6 <= k < 8 && i == k - 4)
    ensures var g, h := StageAt(k), StageAt(k + 1);
      g.nodes == i && h.nodes == i + 1 && h.status == g.status + [Queued] && h.queue == g.queue + [i]
      && g.queue == if i % 2 == 0 then [] else [i - 1]
  {
  }

  lemma OneMoreCommand(p: int, op: Memory -> Memory, i: nat)
    requires i < 4
    ensures Commands(p, op)[..i + 1] == Commands(p, op)[..i] + [Commands(p, op)[i]]
    ensures Commands(p, op)[i] == Node(0, if i % 2 == 0 then [] else [i - 1], if i < 2 then Map(0, p) else Unmap(0, 0), op)
  {
  }

  /** The node that each enqueue makes. */
  lemma NewNode(k: nat, p: int, op: Memory -> Memory)
    requires k < 2 || 6 <= k < 8
    ensures var s, t, kind := StateAt(k, p, op), StateAt(k + 1, p, op), (if k < 2 then Map(0, p) else Unmap(0, 0));
      && t.nodes == s.nodes + [Node(0, WaitList(s, 0, []), kind, op)]
      && t.status == s.status + [Queued] && t.queues[0] == s.queues[0] + [|s.nodes|]
  {
    var i := if k < 2 then k else k - 4;
    NewStage(k, i);
    OneMoreCommand(p, op, i);
    assert WaitList(StateAt(k, p, op), 0, []) == if i % 2 == 0 then [] else [i - 1];
  }

  lemma EnqueueStep(k: nat, p: int, op: Memory -> Memory)
    requires (k < 2 || 6 <= k < 8) && Valid(StateAt(k, p, op))
    ensures Enabled(StateAt(k, p, op), CommandAt(k, p, op))
    ensures Next(StateAt(k, p, op), CommandAt(k, p, op)) == StateAt(k + 1, p, op)
  {
    var kind := if k < 2 then Map(0, p) else Unmap(0, 0);
    NewNode(k, p, op);
    NewBuffers(k, p, op);
    Enqueues(StateAt(k, p, op), StateAt(k + 1, p, op), kind, op);
  }

  lemma NewBuffers(k: nat, p: int, op: Memory -> Memory)
    requires k < 2 || 6 <= k < 8
    ensures var s, t, kind := StateAt(k, p, op), StateAt(k + 1, p, op), (if k < 2 then Map(0, p) else Unmap(0, 0));
      t.bufs == BuffersAtEnqueue(s.bufs, |s.nodes|, kind)
  {
    if k < 2 {
      assert ListAfter(k + 1, p) == Append(ListAfter(k, p), k, p);
      assert |StateAt(k, p, op).nodes| == k;
    }
  }

  lemma HeadSubmitted(k: nat, p: int, op: Memory -> Memory)
    requires 2 <= k < 4 || 8 <= k < 10
    ensures var s, t := StateAt(k, p, op), StateAt(k + 1, p, op);
      && s.queues[0] != [] && s.queues[0][0] < |s.status| && t.nodes == s.nodes
      && t.status == s.status[s.queues[0][0] := Submitted]
      && t.queues[0] == s.queues[0][1..] && t.ready == s.ready + [s.queues[0][0]] && t.bufs == s.bufs
  {
  }

  lemma SubmitStep(k: nat, p: int, op: Memory -> Memory)
    requires (2 <= k < 4 || 8 <= k < 10) && Valid(StateAt(k, p, op))
    ensures Enabled(StateAt(k, p, op), Submit(0)) && Next(StateAt(k, p, op), Submit(0)) == StateAt(k + 1, p, op)
  {
    HeadSubmitted(k, p, op);
    HeadReady(k, p, op);
    Submits(StateAt(k, p, op), StateAt(k + 1, p, op));
  }

  lemma HeadReady(k: nat, p: int, op: Memory -> Memory)
    requires (2 <= k < 4 || 8 <= k < 10) && Valid(StateAt(k, p, op))
    ensures Enabled(StateAt(k, p, op), Submit(0))
  {
  }

  lemma ExecMapStep(k: nat, p: int, op: Memory -> Memory)
    requires 4 <= k < 6 && Valid(StateAt(k, p, op)) && op(map[]) == map[]
    ensures Enabled(StateAt(k, p, op), Exec) && Next(StateAt(k, p, op), Exec) == StateAt(k + 1, p, op)
  {
    var s, t := StateAt(k, p, op), StateAt(k + 1, p, op);
    assert s.ready[0] == k - 4 && s.nodes[k - 4].kind == Map(0, p);
    assert t.bufs == BuffersAtExec(s.bufs, Map(0, p));
    Executes(s, t, op);
  }

  lemma ExecUnmapStep(k: nat, p: int, op: Memory -> Memory)
    requires 10 <= k < 12 && Valid(StateAt(k, p, op)) && op(map[]) == map[]
    ensures Enabled(StateAt(k, p, op), Exec) && Next(StateAt(k, p, op), Exec) == StateAt(k + 1, p, op)
  {
    var s, t := StateAt(k, p, op), StateAt(k + 1, p, op);
    assert s.ready[0] == k - 8 && s.nodes[k - 8].kind == Unmap(0, 0);
    assert t.bufs == BuffersAtExec(s.bufs, Unmap(0, 0));
    Executes(s, t, op);
  }

  lemma SubmitsNext(k: nat, p: int, op: Memory -> Memory)
    requires (2 <= k < 4 || 8 <= k < 10) && Valid(StateAt(k, p, op))
    ensures Valid(StateAt(k + 1, p, op)) && TurnsTo(Loop(StateAt(k, p, op), 0), Loop(StateAt(k + 1, p, op), 0), 0)
  {
    SubmitStep(k, p, op);
    NextKeepsValid(StateAt(k, p, op), Submit(0));
    SubmitTurns(StateAt(k, p, op), 0, StateAt(k + 1, p, op), 0);
  }

  lemma ExecutesNext(k: nat, p: int, op: Memory -> Memory)
    requires (4 <= k < 6 || 10 <= k < 12) && Valid(StateAt(k, p, op)) && op(map[]) == map[]
    ensures Valid(StateAt(k + 1, p, op)) && ExecAll(StateAt(k, p, op)) == ExecAll(StateAt(k + 1, p, op))
  {
    if k < 6 { ExecMapStep(k, p, op); } else { ExecUnmapStep(k, p, op); }
    NextKeepsValid(StateAt(k, p, op), Exec);
    ExecAllTurns(StateAt(k, p, op), StateAt(k + 1, p, op));
  }

  lemma Drains(k: nat, p: int, op: Memory -> Memory)
    requires (k == 2 || k == 8) && Valid(StateAt(k, p, op))
    ensures Drain(StateAt(k, p, op), 0, 0) == StateAt(k + 2, p, op) && Valid(StateAt(k + 2, p, op))
  {
    SubmitsNext(k, p, op);
    SubmitsNext(k + 1, p, op);
    ValidIsAcyclic(StateAt(k, p, op));
    TwoTurns(Loop(StateAt(k, p, op), 0), Loop(StateAt(k + 1, p, op), 0), Loop(StateAt(k + 2, p, op), 0), 0);
  }

  /** A clFinish takes stage 2 to stage 6, and stage 8 to stage 12. */
  lemma Finishes(k: nat, p: int, op: Memory -> Memory)
    requires (k == 2 || k == 8) && Valid(StateAt(k, p, op)) && op(map[]) == map[]
    ensures Finished(StateAt(k, p, op), 0) == StateAt(k + 4, p, op) && Valid(StateAt(k + 4, p, op))
  {
    Drains(k, p, op);
    ExecutesNext(k + 2, p, op);
    ExecutesNext(k + 3, p, op);
    assert ExecAll(StateAt(k + 4, p, op)) == StateAt(k + 4, p, op);
  }

  lemma Enqueued(k: nat, p: int, op: Memory -> Memory, rs: seq<Request>)
    requires (k < 2 || 6 <= k < 8) && Valid(StateAt(k, p, op)) && LeadsTo(rs, StateAt(k, p, op))
    ensures LeadsTo(rs + [Do(CommandAt(k, p, op))], StateAt(k + 1, p, op)) && Valid(StateAt(k + 1, p, op))
  {
    EnqueueStep(k, p, op);
    NextKeepsValid(StateAt(k, p, op), CommandAt(k, p, op));
    LeadsOn(rs, StateAt(k, p, op), Do(CommandAt(k, p, op)), StateAt(k + 1, p, op));
  }

  lemma FinishedThen(k: nat, p: int, op: Memory -> Memory, rs: seq<Request>)
    requires (k == 2 || k == 8) && Valid(StateAt(k, p, op)) && LeadsTo(rs, StateAt(k, p, op)) && op(map[]) == map[]
    ensures LeadsTo(rs + [FinishQueue(0)], StateAt(k + 4, p, op)) && Valid(StateAt(k + 4, p, op))
  {
    Finishes(k, p, op);
    LeadsOn(rs, StateAt(k, p, op), FinishQueue(0), StateAt(k + 4, p, op));
  }

  /** Two commands and a finish. */
  function Half(rs: seq<Request>, first: Action, second: Action): seq<Request> {
    rs + [Do(first)] + [Do(second)] + [FinishQueue(0)]
  }

  /** A queue and a buffer; two maps of one region, and a finish; two unmaps of its address, and a finish. */
  function Program(p: int, op: Memory -> Memory): seq<Request> {
    Half(MapHalf(p, op), CommandAt(6, p, op), CommandAt(7, p, op))
  }

  function MapHalf(p: int, op: Memory -> Memory): seq<Request> {
    Half([Do(NewQueue), Do(NewBuffer)], CommandAt(0, p, op), CommandAt(1, p, op))
  }

  lemma Opens(none: seq<Request>, s: State, rs: seq<Request>, t: State)
    requires LeadsTo(none, s) && Valid(s) && s.queues == [] && s.bufs == []
    requires rs == none + [Do(NewQueue)] + [Do(NewBuffer)] && t == s.(queues := [[]], bufs := [Buffer(1, 0, EMPTY)])
    ensures LeadsTo(rs, t) && Valid(t)
  {
    var one := s.(queues := s.queues + [[]]);
    QueueAdded(none, s);
    NextKeepsValid(one, NewBuffer);
    LeadsOn(none + [Do(NewQueue)], one, Do(NewBuffer), t);
  }

  lemma HalfLeads(k: nat, p: int, op: Memory -> Memory, rs: seq<Request>)
    requires (k == 0 || k == 6) && LeadsTo(rs, StateAt(k, p, op)) && Valid(StateAt(k, p, op)) && op(map[]) == map[]
    ensures LeadsTo(Half(rs, CommandAt(k, p, op), CommandAt(k + 1, p, op)), StateAt(k + 6, p, op)) && Valid(StateAt(k + 6, p, op))
  {
    Enqueued(k, p, op, rs);
    Enqueued(k + 1, p, op, rs + [Do(CommandAt(k, p, op))]);
    FinishedThen(k + 2, p, op, rs + [Do(CommandAt(k, p, op))] + [Do(CommandAt(k + 1, p, op))]);
  }

  lemma BothHalves(k: nat, m: nat, n: nat, p: int, op: Memory -> Memory, rs: seq<Request>, half: seq<Request>)
    requires k == 0 && m == 6 && n == 12 && half == Half(rs, CommandAt(k, p, op), CommandAt(k + 1, p, op))
    requires LeadsTo(rs, StateAt(k, p, op)) && Valid(StateAt(k, p, op)) && op(map[]) == map[]
    ensures LeadsTo(Half(half, CommandAt(m, p, op), CommandAt(m + 1, p, op)), StateAt(n, p, op))
  {
    HalfLeads(k, p, op, rs);
    HalfLeads(m, p, op, half);
  }

  lemma ProgramLeads(k: nat, m: nat, n: nat, p: int, op: Memory -> Memory, none: seq<Request>, s: State, rs: seq<Request>, half: seq<Request>)
    requires k == 0 && m == 6 && n == 12 && half == Half(rs, CommandAt(k, p, op), CommandAt(k + 1, p, op))
    requires none == [] && s == INITIAL && LeadsTo(none, s) && rs == [Do(NewQueue), Do(NewBuffer)] && op(map[]) == map[]
    ensures LeadsTo(Half(half, CommandAt(m, p, op), CommandAt(m + 1, p, op)), StateAt(n, p, op))
  {
    assert StateAt(k, p, op) == s.(queues := [[]], bufs := [Buffer(1, 0, EMPTY)]);
    Opens(none, s, rs, StateAt(k, p, op));
    BothHalves(k, m, n, p, op, rs, half);
  }

  lemma OneLive(p: int)
    ensures Lists(ListAfter(1, p), [0])
  {
    assert Lists(EMPTY, []) && ListAfter(0, p) == EMPTY;
    AppendLists(EMPTY, [], 0, p);
    assert [] + [0] == [0] && ListAfter(1, p) == Append(ListAfter(0, p), 0, p);
  }

  lemma TwoLive(p: int)
    ensures Lists(ListAfter(2, p), [0, 1])
    ensures 0 in ListAfter(2, p).address && 1 in ListAfter(2, p).address
    ensures ListAfter(2, p).address[0] == p && ListAfter(2, p).address[1] == p
  {
    OneLive(p);
    AppendLists(ListAfter(1, p), [0], 1, p);
    assert [0] + [1] == [0, 1] && ListAfter(2, p) == Append(ListAfter(1, p), 1, p);
    assert ListAfter(1, p) == Append(EMPTY, 0, p);
  }

  lemma FirstGoneTwice(p: int)
    ensures ListAfter(4, p) == Delete(Delete(ListAfter(2, p), 0), 0)
    ensures Ring(ListAfter(4, p), [1]) && ListAfter(4, p).address == ListAfter(2, p).address
  {
    TwoLive(p);
    assert ListAfter(3, p) == Delete(ListAfter(2, p), 0) && ListAfter(4, p) == Delete(ListAfter(3, p), 0);
    DeleteHeadTwice(ListAfter(2, p), [0, 1]);
    assert [0, 1][1..] == [1];
  }

  /** Both unmaps are what clEnqueueUnmapMemObject queues for the address: its scan stops at mapping 0. */
  lemma BothFindTheFirst(k: nat, p: int, op: Memory -> Memory)
    requires k == 6 || k == 7
    ensures var l := StateAt(k, p, op).bufs[0].mappings; l.MapList? && Scan(l, l.head, p, 2) == Hit(0)
  {
    TwoLive(p);
  }

  /**
   Afterwards mapping 1, still mapped, is linked to itself: the list has no end, a scan for any other
   address goes on for ever, and the map count is 0.
   */
  lemma ListBecomesRing(p: int, op: Memory -> Memory) returns (s: State)
    requires op(map[]) == map[]
    ensures LeadsTo(Program(p, op), s) && s.queues == [[]] && s.ready == [] && |s.bufs| == 1
    ensures var B := s.bufs[0];
      && B.mapCount == 0 && B.mappings.MapList? && B.mappings.head == Some(1)
      && 1 in B.mappings.next && B.mappings.next[1] == Some(1) && !WellFormed(B.mappings)
    ensures forall address: int, steps: nat :: address != p ==>
      Scan(s.bufs[0].mappings, Some(1), address, steps) == Looking
    ensures |s.nodes| == |s.status| && !Mappings.MappingsOk(s)
  {
    s := StateAt(12, p, op);
    NothingLeads();
    ProgramLeads(0, 6, 12, p, op, [], INITIAL, [Do(NewQueue), Do(NewBuffer)], MapHalf(p, op));
    LastStage(p, op);
    RingLeft(p);
    RingIsWrong(s);
  }

  lemma RingIsWrong(s: State)
    requires |s.nodes| == |s.status| && |s.bufs| == 1 && !WellFormed(s.bufs[0].mappings)
    ensures !Mappings.MappingsOk(s)
  {
    assert !Mappings.CountsAgree(s, 0);
  }

  lemma LastStage(p: int, op: Memory -> Memory)
    ensures var s := StateAt(12, p, op);
      s.queues == [[]] && s.ready == [] && s.bufs == [Buffer(3, 0, ListAfter(4, p))] && |s.nodes| == |s.status|
  {
  }

  lemma RingLeft(p: int)
    ensures var l := ListAfter(4, p);
      && l.MapList? && l.head == Some(1) && 1 in l.next && l.next[1] == Some(1) && !WellFormed(l)
      && forall address: int, steps: nat :: address != p ==> Scan(l, Some(1), address, steps) == Looking
  {
    FirstGoneTwice(p);
    var l := ListAfter(4, p);
    forall ids ensures !Lists(l, ids) { RingIsNoList(l, [1], ids); }
    forall address: int, steps: nat | address != p ensures Scan(l, Some(1), address, steps) == Looking {
      OtherAddress(p, address);
      RingScan(l, [1], 0, address, steps);
    }
  }

  lemma OtherAddress(p: int, address: int)
    requires address != p
    ensures ListAfter(4, p).MapList? && First(ListAfter(4, p), [1], address).None?
  {
    TwoLive(p);
    FirstGoneTwice(p);
  }
}
