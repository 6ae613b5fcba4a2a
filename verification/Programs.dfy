/**
 What a caller can ask for between two states at rest, event reuse included: single actions, a
 command that gets the event of a finished one, and clFinish.  A blocking command is a command and a
 finish; a rect command is a retain, a finish, an operation on memory and a release.
 */
module Programs {
  import opened Runtime
  import opened Waiting
  import opened Finish

  /** `act` is the command queued with the event of the finished command e. */
  datatype Request = Do(act: Action) | Reuse(act: Action, e: EventId) | FinishQueue(q: QueueId)

  ghost predicate Able(s: State, r: Request)
    requires Loose(s)
  {
    match r
    case Do(a) => Enabled(s, a) && (Aside(a) || a.Enqueue?)
    case Reuse(a, e) => Enabled(s, a) && a.Enqueue? && e < |s.nodes| && s.status[e] == Complete
    case FinishQueue(q) => q < |s.queues|
  }

  /** No finish is under way, and the next one ends. */
  ghost predicate AtRest(s: State) {
    Schedulable(s) && s.ready == []
  }

  ghost function After(s: State, r: Request): (t: State)
    requires AtRest(s) && Able(s, r)
    ensures Loose(t) && t.ready == [] && (r.Reuse? || Schedulable(t))
  {
    match r
    case Do(a) => DoKeepsSchedulable(s, a); Next(s, a)
    case Reuse(a, e) =>
      NextKeepsLoose(s, a);
      NextKeepsLoose(Next(s, a), Recycle(e));
      Next(Next(s, a), Recycle(e))
    case FinishQueue(q) => Finished(s, q)
  }

  // ---------- programs ----------

  /** Every request can be made, and every finish among them ends. */
  ghost predicate CanIssue(s: State, rs: seq<Request>)
    requires Loose(s) && s.ready == []
    decreases |rs|
  {
    rs == [] || (AtRest(s) && Able(s, rs[0]) && CanIssue(After(s, rs[0]), rs[1..]))
  }

  ghost function Issued(s: State, rs: seq<Request>): (t: State)
    requires Loose(s) && s.ready == [] && CanIssue(s, rs)
    ensures Loose(t) && t.ready == []
    decreases |rs|
  {
    if rs == [] then s else Issued(After(s, rs[0]), rs[1..])
  }

  lemma {:induction false} IssueThen(s: State, rs: seq<Request>, t: State, r: Request)
    requires Loose(s) && s.ready == [] && CanIssue(s, rs) && Issued(s, rs) == t && AtRest(t) && Able(t, r)
    ensures CanIssue(s, rs + [r]) && Issued(s, rs + [r]) == After(t, r)
    decreases |rs|
  {
    var all := rs + [r];
    if rs == [] {
      assert all[1..] == [];
      assert CanIssue(After(s, r), []);
    } else {
      assert all[1..] == rs[1..] + [r];
      IssueThen(After(s, rs[0]), rs[1..], t, r);
    }
  }

  /** A program, from the empty runtime, that leads to a state. */
  ghost predicate LeadsTo(rs: seq<Request>, t: State) {
    Loose(INITIAL) && CanIssue(INITIAL, rs) && Issued(INITIAL, rs) == t
  }

  lemma NothingLeads()
    ensures LeadsTo([], INITIAL)
  {
  }

  lemma LeadsOn(rs: seq<Request>, s: State, r: Request, t: State)
    requires LeadsTo(rs, s) && AtRest(s) && Able(s, r) && After(s, r) == t
    ensures LeadsTo(rs + [r], t)
  {
    IssueThen(INITIAL, rs, s, r);
  }

  lemma QueueAdded(rs: seq<Request>, s: State)
    requires LeadsTo(rs, s) && Valid(s)
    ensures LeadsTo(rs + [Do(NewQueue)], s.(queues := s.queues + [[]])) && Valid(s.(queues := s.queues + [[]]))
  {
    NextKeepsValid(s, NewQueue);
    LeadsOn(rs, s, Do(NewQueue), Next(s, NewQueue));
  }
}
