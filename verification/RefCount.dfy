/**
 Reference counts of buffers over whole runs: who holds each reference, and that a buffer used
 by a command that has not completed is never freed.
 */
module RefCount {
  import opened Common
  import opened Runtime
  import opened Finish

  /**
   Who accounts for references besides pending commands: `user` are those the user owns (one from
   creation, more from retains), `stuck` those that the code takes and never gives back.
   */
  datatype Ledger = Ledger(user: seq<int>, stuck: seq<int>)

  function Occurrences(ids: seq<BufferId>, b: BufferId): nat {
    if ids == [] then 0 else (if ids[0] == b then 1 else 0) + Occurrences(ids[1..], b)
  }

  function Credit(counts: seq<int>, ids: seq<BufferId>, d: int): seq<int> {
    seq(|counts|, b requires 0 <= b < |counts| => counts[b] + d * Occurrences(ids, b))
  }

  /** A queued map keeps its reference for ever; a native kernel that meets a null object leaks the earlier ones. */
  function Account(l: Ledger, a: Action): Ledger {
    match a
    case NewBuffer => Ledger(l.user + [1], l.stuck + [0])
    case Retain(held) => l.(user := Credit(l.user, held, 1))
    case Release(held) => l.(user := Credit(l.user, held, -1))
    case Enqueue(_, _, kind, _) => if kind.Map? then l.(stuck := Credit(l.stuck, [kind.buffer], 1)) else l
    case NativeFailed(_, retained) => l.(stuck := Credit(l.stuck, retained, 1))
    case _ => l
  }

  /** A user gives back only references it owns. */
  ghost predicate Owned(l: Ledger, a: Action) {
    a.Release? ==> forall b :: 0 <= b < |l.user| ==> Occurrences(a.held, b) <= l.user[b]
  }

  /** The occurrences of a buffer in the first n commands that have not completed. */
  function Held(nodes: seq<Node>, status: seq<Status>, n: nat, b: BufferId): nat
    requires n <= |nodes| == |status|
  {
    if n == 0 then 0
    else Held(nodes, status, n - 1, b) + if status[n - 1] == Complete then 0 else Occurrences(Uses(nodes[n - 1].kind), b)
  }

  /** Conservation: each count is the user's references, the pending commands' uses and the stuck ones. */
  ghost predicate Balanced(s: State, l: Ledger)
    requires |s.nodes| == |s.status|
  {
    && |l.user| == |l.stuck| == |s.bufs|
    && (forall b :: 0 <= b < |s.bufs| ==>
          && l.user[b] >= 0 && l.stuck[b] >= 0
          && s.bufs[b].refs == l.user[b] + Held(s.nodes, s.status, |s.nodes|, b) + l.stuck[b])
  }

  lemma {:induction false} AddRefsCounts(bufs: seq<Buffer>, ids: seq<BufferId>, d: int, b: BufferId)
    requires Below(ids, |bufs|) && b < |bufs|
    ensures AddRefs(bufs, ids, d)[b] == bufs[b].(refs := bufs[b].refs + d * Occurrences(ids, b))
    decreases |ids|
  {
    if ids != [] {
      var first := bufs[ids[0] := bufs[ids[0]].(refs := bufs[ids[0]].refs + d)];
      AddRefsCounts(first, ids[1..], d, b);
      assert d * (1 + Occurrences(ids[1..], b)) == d + d * Occurrences(ids[1..], b);
    }
  }

  lemma {:induction false} HeldSame(nodes: seq<Node>, status: seq<Status>, nodes': seq<Node>, status': seq<Status>, n: nat, b: BufferId)
    requires n <= |nodes| == |status| && n <= |nodes'| == |status'|
    requires forall x :: 0 <= x < n ==> nodes[x].kind == nodes'[x].kind && (status[x] == Complete <==> status'[x] == Complete)
    ensures Held(nodes, status, n, b) == Held(nodes', status', n, b)
  {
    if n > 0 { HeldSame(nodes, status, nodes', status', n - 1, b); }
  }

  lemma {:induction false} HeldCompletes(nodes: seq<Node>, status: seq<Status>, n: nat, e: EventId, b: BufferId)
    requires e < n <= |nodes| == |status| && status[e] != Complete
    ensures Held(nodes, status[e := Complete], n, b) == Held(nodes, status, n, b) - Occurrences(Uses(nodes[e].kind), b)
  {
    if n == e + 1 {
      HeldSame(nodes, status, nodes, status[e := Complete], e, b);
    } else {
      HeldCompletes(nodes, status, n - 1, e, b);
    }
  }

  lemma {:induction false} HeldCovers(nodes: seq<Node>, status: seq<Status>, n: nat, e: EventId, b: BufferId)
    requires e < n <= |nodes| == |status| && status[e] != Complete
    ensures Held(nodes, status, n, b) >= Occurrences(Uses(nodes[e].kind), b)
  {
    if n > e + 1 { HeldCovers(nodes, status, n - 1, e, b); }
  }

  lemma {:induction false} MemberOccurs(ids: seq<BufferId>, b: BufferId)
    ensures b in ids <==> Occurrences(ids, b) > 0
  {
    if ids != [] { MemberOccurs(ids[1..], b); }
  }

  // ---------- what each kind of command retains ----------

  lemma {:induction false} OccurrencesCount(ids: seq<BufferId>, b: BufferId)
    ensures Occurrences(ids, b) == multiset(ids)[b]
  {
    if ids != [] {
      OccurrencesCount(ids[1..], b);
      assert ids == [ids[0]] + ids[1..];
    }
  }

  lemma {:induction false} PresentCount(args: seq<Option<BufferId>>, b: BufferId)
    ensures Occurrences(Present(args), b) == multiset(args)[Some(b)]
  {
    if args != [] {
      PresentCount(args[1..], b);
      assert args == [args[0]] + args[1..];
      if args[0].Some? {
        var rest := Present(args[1..]);
        assert Present(args) == [args[0].value] + rest && ([args[0].value] + rest)[1..] == rest;
      } else {
        assert Present(args) == Present(args[1..]);
      }
    }
  }

  /** How often a command of each kind takes a reference to b. */
  lemma UsesCount(kind: Kind, b: BufferId)
    ensures kind.Read? || kind.Write? ==> Occurrences(Uses(kind), b) == if kind.buffer == b then 1 else 0
    ensures kind.Copy? ==> Occurrences(Uses(kind), b) == (if kind.src == b then 1 else 0) + if kind.dst == b then 1 else 0
    ensures kind.NDRange? ==> Occurrences(Uses(kind), b) == multiset(kind.args)[Some(b)]
    ensures kind.Native? ==> Occurrences(Uses(kind), b) == multiset(kind.mems)[b]
    ensures kind.Map? || kind.Unmap? || kind.Marker? ==> Occurrences(Uses(kind), b) == 0
  {
    match kind
    case NDRange(args) => PresentCount(args, b);
    case Native(mems) => OccurrencesCount(mems, b);
    case Copy(x, y) =>
      assert Uses(kind) == [x, y] && [x, y][1..] == [y] && [y][1..] == [];
      assert Occurrences([y], b) == if y == b then 1 else 0;
    case _ =>
  }

  /** The change in the reference count of b. */
  function Gained(s: State, t: State, b: BufferId): int
    requires b < |s.bufs| && b < |t.bufs|
  {
    t.bufs[b].refs - s.bufs[b].refs
  }

  /** Queueing takes one reference for each time the command names the buffer; an unmap and a marker take none. */
  lemma QueueingRetains(s: State, a: Action, b: BufferId)
    requires Loose(s) && a.Enqueue? && Enabled(s, a) && b < |s.bufs|
    ensures b < |Next(s, a).bufs|
    ensures var kind, n := a.kind, Gained(s, Next(s, a), b);
      && (kind.Read? || kind.Write? || kind.Map? ==> n == if kind.buffer == b then 1 else 0)
      && (kind.Copy? ==> n == (if kind.src == b then 1 else 0) + if kind.dst == b then 1 else 0)
      && (kind.NDRange? ==> n == multiset(kind.args)[Some(b)])
      && (kind.Native? ==> n == multiset(kind.mems)[b])
      && (kind.Unmap? || kind.Marker? ==> n == 0)
  {
    UsesCount(a.kind, b);
    EnqueueRefs(s.bufs, |s.nodes|, a.kind, b);
  }

  /** Running it gives as many back, but for the reference of a map. */
  lemma RunningReleases(s: State, b: BufferId)
    requires Loose(s) && s.ready != [] && b < |s.bufs|
    ensures b < |Executing(s).bufs|
    ensures var kind, n := s.nodes[s.ready[0]].kind, -Gained(s, Executing(s), b);
      && (kind.Read? || kind.Write? ==> n == if kind.buffer == b then 1 else 0)
      && (kind.Copy? ==> n == (if kind.src == b then 1 else 0) + if kind.dst == b then 1 else 0)
      && (kind.NDRange? ==> n == multiset(kind.args)[Some(b)])
      && (kind.Native? ==> n == multiset(kind.mems)[b])
      && (kind.Map? || kind.Unmap? || kind.Marker? ==> n == 0)
  {
    UsesCount(s.nodes[s.ready[0]].kind, b);
    ExecRefs(s.bufs, s.nodes[s.ready[0]].kind, b);
  }

  /** What a native kernel retains before a null object are the objects in front of it. */
  lemma {:induction false} BeforeNullIs(mems: seq<Option<BufferId>>, k: nat)
    requires k < |mems| && mems[k].None? && forall i :: 0 <= i < k ==> mems[i].Some?
    ensures |BeforeNull(mems)| == k && forall i :: 0 <= i < k ==> BeforeNull(mems)[i] == mems[i].value
  {
    if k > 0 { BeforeNullIs(mems[1..], k - 1); }
  }

  // ---------- one action ----------

  lemma EnqueueRefs(bufs: seq<Buffer>, e: EventId, kind: Kind, b: BufferId)
    requires UsesIn(kind, |bufs|) && b < |bufs|
    ensures BuffersAtEnqueue(bufs, e, kind)[b].refs ==
              bufs[b].refs + Occurrences(Uses(kind), b) + if kind.Map? && kind.buffer == b then 1 else 0
  {
    if !kind.Map? { AddRefsCounts(bufs, Uses(kind), 1, b); }
  }

  lemma ExecRefs(bufs: seq<Buffer>, kind: Kind, b: BufferId)
    requires UsesIn(kind, |bufs|) && b < |bufs|
    ensures BuffersAtExec(bufs, kind)[b].refs == bufs[b].refs - Occurrences(Uses(kind), b)
  {
    if !kind.Map? && !kind.Unmap? { AddRefsCounts(bufs, Uses(kind), -1, b); }
  }

  lemma EnqueueHolds(s: State, q: QueueId, waits: seq<EventId>, kind: Kind, op: Memory -> Memory, b: BufferId)
    requires NodesKnown(s) && Enabled(s, Enqueue(q, waits, kind, op)) && b < |s.bufs|
    ensures var t := Enqueuing(s, q, waits, kind, op);
      && t.bufs[b].refs == s.bufs[b].refs + Occurrences(Uses(kind), b) + (if kind.Map? && kind.buffer == b then 1 else 0)
      && Held(t.nodes, t.status, |t.nodes|, b) == Held(s.nodes, s.status, |s.nodes|, b) + Occurrences(Uses(kind), b)
  {
    var t := Enqueuing(s, q, waits, kind, op);
    EnqueueRefs(s.bufs, |s.nodes|, kind, b);
    HeldSame(s.nodes, s.status, t.nodes, t.status, |s.nodes|, b);
  }

  lemma EnqueueBalances(s: State, l: Ledger, q: QueueId, waits: seq<EventId>, kind: Kind, op: Memory -> Memory)
    requires NodesKnown(s) && Enabled(s, Enqueue(q, waits, kind, op)) && Balanced(s, l)
    ensures Balanced(Enqueuing(s, q, waits, kind, op), Account(l, Enqueue(q, waits, kind, op)))
  {
    forall b: BufferId | b < |s.bufs| { EnqueueHolds(s, q, waits, kind, op, b); }
    if kind.Map? {
      assert forall b :: Occurrences([kind.buffer], b) == (if kind.buffer == b then 1 else 0) + Occurrences([], b);
    }
  }

  lemma ExecBalances(s: State, l: Ledger)
    requires NodesKnown(s) && ReadyOk(s) && s.ready != [] && Balanced(s, l)
    ensures Balanced(Executing(s), l)
  {
    var e := s.ready[0];
    forall b | 0 <= b < |s.bufs|
      ensures Executing(s).bufs[b].refs == s.bufs[b].refs - Occurrences(Uses(s.nodes[e].kind), b)
      ensures Held(s.nodes, s.status[e := Complete], |s.nodes|, b)
              == Held(s.nodes, s.status, |s.nodes|, b) - Occurrences(Uses(s.nodes[e].kind), b)
    {
      ExecRefs(s.bufs, s.nodes[e].kind, b);
      HeldCompletes(s.nodes, s.status, |s.nodes|, e, b);
    }
  }

  lemma CreditBalances(s: State, l: Ledger, a: Action)
    requires Loose(s) && Enabled(s, a) && Owned(l, a) && Balanced(s, l) && (a.Retain? || a.Release?)
    ensures |Next(s, a).nodes| == |Next(s, a).status| && Balanced(Next(s, a), Account(l, a))
  {
    forall b | 0 <= b < |s.bufs|
      ensures Next(s, a).bufs[b].refs == s.bufs[b].refs + (if a.Release? then -1 else 1) * Occurrences(a.held, b)
    {
      AddRefsCounts(s.bufs, a.held, if a.Release? then -1 else 1, b);
    }
  }

  lemma FailureBalances(s: State, l: Ledger, q: QueueId, retained: seq<BufferId>)
    requires Loose(s) && Enabled(s, NativeFailed(q, retained)) && Balanced(s, l)
    ensures var t := Next(s, NativeFailed(q, retained));
      |t.nodes| == |t.status| && Balanced(t, Account(l, NativeFailed(q, retained)))
  {
    var t := Next(s, NativeFailed(q, retained));
    forall b | 0 <= b < |s.bufs|
      ensures t.bufs[b].refs == s.bufs[b].refs + Occurrences(retained, b)
      ensures Held(t.nodes, t.status, |t.nodes|, b) == Held(s.nodes, s.status, |s.nodes|, b)
    {
      FailureCounts(s, t, q, retained, b);
    }
  }

  lemma FailureCounts(s: State, t: State, q: QueueId, retained: seq<BufferId>, b: BufferId)
    requires Loose(s) && Enabled(s, NativeFailed(q, retained)) && t == Next(s, NativeFailed(q, retained)) && b < |s.bufs|
    ensures |t.bufs| == |s.bufs| && |t.nodes| == |t.status|
    ensures t.bufs[b].refs == s.bufs[b].refs + Occurrences(retained, b)
    ensures Held(t.nodes, t.status, |t.nodes|, b) == Held(s.nodes, s.status, |s.nodes|, b)
  {
    AddRefsCounts(s.bufs, retained, 1, b);
    HeldSame(s.nodes, s.status, t.nodes, t.status, |s.nodes|, b);
  }

  /** Neither the commands' kinds nor which of them are complete change. */
  lemma OtherCommands(s: State, a: Action)
    requires Loose(s) && Enabled(s, a) && (a.NewQueue? || a.NewBuffer? || a.Touch? || a.Submit? || a.Recycle?)
    ensures var t := Next(s, a);
      && |t.nodes| == |s.nodes| == |t.status| == |s.status|
      && forall x :: 0 <= x < |s.nodes| ==> s.nodes[x].kind == t.nodes[x].kind && (s.status[x] == Complete <==> t.status[x] == Complete)
  {
    if a.Submit? { assert Queue(s, a.q); }
  }

  lemma OtherBalances(s: State, l: Ledger, a: Action)
    requires Loose(s) && Enabled(s, a) && Balanced(s, l)
    requires a.NewQueue? || a.NewBuffer? || a.Touch? || a.Submit? || a.Recycle?
    ensures |Next(s, a).nodes| == |Next(s, a).status| && Balanced(Next(s, a), Account(l, a))
  {
    var t := Next(s, a);
    OtherCommands(s, a);
    forall b: BufferId | b < |t.bufs| { HeldSame(s.nodes, s.status, t.nodes, t.status, |s.nodes|, b); }
    if a.NewBuffer? { NeverUsed(s, |s.nodes|); }
  }

  lemma {:induction false} NeverUsed(s: State, n: nat)
    requires NodesKnown(s) && n <= |s.nodes|
    ensures Held(s.nodes, s.status, n, |s.bufs|) == 0
  {
    if n > 0 {
      NeverUsed(s, n - 1);
      MemberOccurs(Uses(s.nodes[n - 1].kind), |s.bufs|);
    }
  }

  lemma NextBalances(s: State, l: Ledger, a: Action)
    requires Loose(s) && Enabled(s, a) && Owned(l, a) && Balanced(s, l)
    ensures |Next(s, a).nodes| == |Next(s, a).status| && Balanced(Next(s, a), Account(l, a))
  {
    match a
    case Enqueue(q, waits, kind, op) => EnqueueBalances(s, l, q, waits, kind, op);
    case Exec => ExecBalances(s, l);
    case Retain(_) => CreditBalances(s, l, a);
    case Release(_) => CreditBalances(s, l, a);
    case NativeFailed(q, retained) => FailureBalances(s, l, q, retained);
    case _ => OtherBalances(s, l, a);
  }

  // ---------- lawful runs ----------

  /** The buffers a caller names in a retain, a release or a native kernel that fails. */
  function Named(a: Action): seq<BufferId> {
    match a
    case Retain(held) => held
    case Release(held) => held
    case NativeFailed(_, retained) => retained
    case _ => []
  }

  /** A command reads, writes, maps or unmaps the buffer, or has it as an argument. */
  ghost predicate Mentions(kind: Kind, b: BufferId) {
    match kind
    case Read(x) => x == b
    case Write(x) => x == b
    case Copy(s, d) => s == b || d == b
    case NDRange(args) => Some(b) in args
    case Native(mems) => b in mems
    case Map(x, _) => x == b
    case Unmap(x, _) => x == b
    case Marker => false
  }

  ghost predicate Alive(s: State, b: BufferId) {
    b < |s.bufs| && s.bufs[b].refs > 0
  }

  /** Users release only what they own, use only buffers that exist, and unmap only what was mapped. */
  ghost predicate Lawful(s: State, l: Ledger, a: Action) {
    && Owned(l, a)
    && (forall b: BufferId :: b in Named(a) ==> Alive(s, b))
    && (a.Enqueue? ==> forall b: BufferId :: Mentions(a.kind, b) ==> Alive(s, b))
    && (a.Enqueue? && a.kind.Unmap? ==> IsMapOf(s, a.kind.mapping, a.kind.buffer))
  }

  ghost predicate IsMapOf(s: State, m: EventId, b: BufferId) {
    m < |s.nodes| && s.nodes[m].kind.Map? && s.nodes[m].kind.buffer == b
  }

  /** A buffer with a map command has a reference nobody gives back, and unmap commands are for maps of their buffer. */
  ghost predicate MapsHeld(s: State, l: Ledger) {
    && (forall e: EventId :: e < |s.nodes| && s.nodes[e].kind.Map? ==>
          s.nodes[e].kind.buffer < |l.stuck| && l.stuck[s.nodes[e].kind.buffer] >= 1)
    && (forall e: EventId :: e < |s.nodes| && s.nodes[e].kind.Unmap? ==> IsMapOf(s, s.nodes[e].kind.mapping, s.nodes[e].kind.buffer))
  }

  lemma StuckGrows(l: Ledger, a: Action, b: BufferId)
    requires b < |l.stuck|
    ensures b < |Account(l, a).stuck| && Account(l, a).stuck[b] >= l.stuck[b]
  {
  }

  lemma NextMapsHeld(s: State, l: Ledger, a: Action)
    requires Loose(s) && Enabled(s, a) && Lawful(s, l, a) && Balanced(s, l) && MapsHeld(s, l)
    ensures MapsHeld(Next(s, a), Account(l, a))
  {
    var t, k := Next(s, a), Account(l, a);
    forall e: EventId | e < |t.nodes| && t.nodes[e].kind.Map?
      ensures t.nodes[e].kind.buffer < |k.stuck| && k.stuck[t.nodes[e].kind.buffer] >= 1
    {
      if e < |s.nodes| {
        StuckGrows(l, a, s.nodes[e].kind.buffer);
      } else {
        MemberOccurs([t.nodes[e].kind.buffer], t.nodes[e].kind.buffer);
      }
    }
    forall e: EventId | e < |t.nodes| && t.nodes[e].kind.Unmap?
      ensures IsMapOf(t, t.nodes[e].kind.mapping, t.nodes[e].kind.buffer)
    {
      if e < |s.nodes| { assert IsMapOf(s, s.nodes[e].kind.mapping, s.nodes[e].kind.buffer); }
    }
  }

  ghost predicate LawfulRun(s: State, l: Ledger, acts: seq<Action>)
    requires Loose(s) && CanRun(s, acts)
    decreases |acts|
  {
    acts == []
    || (Lawful(s, l, acts[0]) && (NextKeepsLoose(s, acts[0]); LawfulRun(Next(s, acts[0]), Account(l, acts[0]), acts[1..])))
  }

  ghost function FinalLedger(l: Ledger, acts: seq<Action>): Ledger
    decreases |acts|
  {
    if acts == [] then l else FinalLedger(Account(l, acts[0]), acts[1..])
  }

  /** Reference conservation over every lawful run. */
  lemma {:induction false} RunBalances(s: State, l: Ledger, acts: seq<Action>)
    requires Loose(s) && CanRun(s, acts) && LawfulRun(s, l, acts) && Balanced(s, l)
    ensures Balanced(Run(s, acts), FinalLedger(l, acts))
    ensures MapsHeld(s, l) ==> MapsHeld(Run(s, acts), FinalLedger(l, acts))
    decreases |acts|
  {
    if acts != [] {
      NextBalances(s, l, acts[0]);
      if MapsHeld(s, l) { NextMapsHeld(s, l, acts[0]); }
      NextKeepsLoose(s, acts[0]);
      RunBalances(Next(s, acts[0]), Account(l, acts[0]), acts[1..]);
    }
  }

  // ---------- nothing in use is freed ----------

  /** A buffer that a command which has not completed uses, maps or unmaps has a positive count. */
  lemma UsedIsAlive(s: State, l: Ledger, e: EventId, b: BufferId)
    requires Loose(s) && Balanced(s, l) && MapsHeld(s, l)
    requires e < |s.nodes| && s.status[e] != Complete && Mentions(s.nodes[e].kind, b)
    ensures Alive(s, b)
  {
    var kind := s.nodes[e].kind;
    if kind.Map? || kind.Unmap? {
      if kind.Unmap? { assert IsMapOf(s, kind.mapping, b); }
      assert l.stuck[b] >= 1;
    } else {
      HeldCovers(s.nodes, s.status, |s.nodes|, e, b);
      UsesCount(kind, b);
      MemberOccurs(Uses(kind), b);
      var i :| 0 <= i < |Uses(kind)| && Uses(kind)[i] == b;
    }
  }

  /** A freed buffer stays freed. */
  lemma DeadStaysDead(s: State, l: Ledger, a: Action, b: BufferId)
    requires Loose(s) && Enabled(s, a) && Lawful(s, l, a) && Balanced(s, l) && b < |s.bufs| && !Alive(s, b)
    ensures b < |Next(s, a).bufs| && !Alive(Next(s, a), b)
  {
    MemberOccurs(Named(a), b);
    match a
    case Retain(held) => AddRefsCounts(s.bufs, held, 1, b);
    case Release(held) => AddRefsCounts(s.bufs, held, -1, b);
    case NativeFailed(_, retained) => AddRefsCounts(s.bufs, retained, 1, b);
    case Enqueue(_, _, kind, _) =>
      UsesCount(kind, b);
      EnqueueRefs(s.bufs, |s.nodes|, kind, b);
    case Exec =>
      ExecRefs(s.bufs, s.nodes[s.ready[0]].kind, b);
      HeldCovers(s.nodes, s.status, |s.nodes|, s.ready[0], b);
    case _ =>
  }

  lemma {:induction false} DeadStaysDeadRun(s: State, l: Ledger, acts: seq<Action>, b: BufferId)
    requires Loose(s) && CanRun(s, acts) && LawfulRun(s, l, acts) && Balanced(s, l) && b < |s.bufs| && !Alive(s, b)
    ensures b < |Run(s, acts).bufs| && !Alive(Run(s, acts), b)
    decreases |acts|
  {
    if acts != [] {
      DeadStaysDead(s, l, acts[0], b);
      NextBalances(s, l, acts[0]);
      NextKeepsLoose(s, acts[0]);
      DeadStaysDeadRun(Next(s, acts[0]), Account(l, acts[0]), acts[1..], b);
    }
  }

  lemma {:induction false} LawfulRest(s: State, l: Ledger, before: seq<Action>, after: seq<Action>)
    requires Loose(s) && CanRun(s, before + after) && LawfulRun(s, l, before + after)
    ensures CanRun(s, before) && LawfulRun(s, l, before)
    ensures CanRun(Run(s, before), after) && LawfulRun(Run(s, before), FinalLedger(l, before), after)
    ensures Run(s, before + after) == Run(Run(s, before), after)
    decreases |before|
  {
    if before == [] {
      assert before + after == after;
    } else {
      assert (before + after)[1..] == before[1..] + after;
      NextKeepsLoose(s, before[0]);
      LawfulRest(Next(s, before[0]), Account(l, before[0]), before[1..], after);
    }
  }

  lemma UsedAtEnd(s: State, l: Ledger, acts: seq<Action>, e: EventId, b: BufferId)
    requires Loose(s) && Balanced(s, l) && MapsHeld(s, l) && CanRun(s, acts) && LawfulRun(s, l, acts)
    requires e < |Run(s, acts).nodes| && Run(s, acts).status[e] != Complete && Mentions(Run(s, acts).nodes[e].kind, b)
    ensures Alive(Run(s, acts), b)
  {
    RunBalances(s, l, acts);
    UsedIsAlive(Run(s, acts), FinalLedger(l, acts), e, b);
  }

  /** Where a run that goes on lawfully stands, given where it came from. */
  lemma AliveBefore(s: State, l: Ledger, before: seq<Action>, after: seq<Action>, b: BufferId)
    requires Loose(s) && Balanced(s, l) && CanRun(s, before + after) && LawfulRun(s, l, before + after)
    requires Alive(Run(s, before + after), b)
    ensures CanRun(s, before) && (b < |Run(s, before).bufs| ==> Alive(Run(s, before), b))
  {
    LawfulRest(s, l, before, after);
    RunBalances(s, l, before);
    var t := Run(s, before);
    if b < |t.bufs| && !Alive(t, b) { DeadStaysDeadRun(t, FinalLedger(l, before), after, b); }
  }

  /**
   A buffer that a pending command uses, maps or unmaps was never freed, at no point of the run
   since it was created.
   */
  lemma NeverFreedWhileUsed(s: State, l: Ledger, before: seq<Action>, after: seq<Action>, e: EventId, b: BufferId)
    requires Loose(s) && Balanced(s, l) && MapsHeld(s, l)
    requires CanRun(s, before + after) && LawfulRun(s, l, before + after)
    requires var t := Run(s, before + after);
      e < |t.nodes| && t.status[e] != Complete && Mentions(t.nodes[e].kind, b)
    ensures Alive(Run(s, before + after), b)
    ensures CanRun(s, before) && (b < |Run(s, before).bufs| ==> Alive(Run(s, before), b))
  {
    UsedAtEnd(s, l, before + after, e, b);
    AliveBefore(s, l, before, after, b);
  }

  /** Every run may start from the empty runtime and an empty ledger. */
  lemma StartsBalanced()
    ensures Loose(INITIAL) && Balanced(INITIAL, Ledger([], [])) && MapsHeld(INITIAL, Ledger([], []))
  {
  }

  // ---------- what stays behind ----------

  lemma {:induction false} StuckStays(l: Ledger, acts: seq<Action>, b: BufferId)
    requires b < |l.stuck|
    ensures b < |FinalLedger(l, acts).stuck| && FinalLedger(l, acts).stuck[b] >= l.stuck[b]
    decreases |acts|
  {
    if acts != [] {
      StuckGrows(l, acts[0], b);
      StuckStays(Account(l, acts[0]), acts[1..], b);
    }
  }

  /** A buffer that was mapped once is never freed, even when it was unmapped and all users have released it. */
  lemma MappedIsKeptForEver(s: State, l: Ledger, a: Action, acts: seq<Action>)
    requires Loose(s) && Enabled(s, a) && Lawful(s, l, a) && Balanced(s, l) && a.Enqueue? && a.kind.Map?
    requires Loose(Next(s, a)) && CanRun(Next(s, a), acts) && LawfulRun(Next(s, a), Account(l, a), acts)
    ensures Alive(Run(Next(s, a), acts), a.kind.buffer)
  {
    var b := a.kind.buffer;
    NextBalances(s, l, a);
    MemberOccurs([b], b);
    RunBalances(Next(s, a), Account(l, a), acts);
    StuckStays(Account(l, a), acts, b);
  }

  /** A failed native kernel leaves the buffers as they were exactly when its first object is the null one. */
  lemma NativeFailureLeaks(s: State, q: QueueId, mems: seq<Option<BufferId>>)
    requires Loose(s) && None in mems && Enabled(s, NativeFailed(q, BeforeNull(mems)))
    ensures Next(s, NativeFailed(q, BeforeNull(mems))).bufs == s.bufs <==> mems[0].None?
  {
    var ids := BeforeNull(mems);
    if mems[0].Some? {
      AddRefsCounts(s.bufs, ids, 1, ids[0]);
      MemberOccurs(ids, ids[0]);
    }
  }
}
