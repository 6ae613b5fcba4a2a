/**
 The list of a buffer's mappings, link by link: what DL_APPEND and DL_DELETE of utlist.h do to the
 records' next and prev fields.  A record stays where it is after it has left the list, with the
 links it had, because nothing frees it.
 */
module MappingList {
  import opened Common

  /** Records are named by the map command that made them; Crashed is what a null dereference leads to. */
  datatype MapList =
    | MapList(head: Option<nat>, next: map<nat, Option<nat>>, prev: map<nat, nat>, address: map<nat, int>)
    | Crashed

  const EMPTY := MapList(None, map[], map[], map[])

  /** DL_APPEND of a fresh record. */
  function Append(l: MapList, id: nat, address: int): MapList {
    match l
    case Crashed => Crashed
    case MapList(head, next, prev, addresses) =>
      if head.None? then
        MapList(Some(id), next[id := None], prev[id := id], addresses[id := address])
      else if head.value !in prev then Crashed
      else
        var tail := prev[head.value];
        MapList(head, next[tail := Some(id)][id := None], prev[id := tail][head.value := id], addresses[id := address])
  }

  /** DL_DELETE, whether or not the record is still in the list. */
  function Delete(l: MapList, del: nat): MapList {
    if l.Crashed? || del !in l.prev || del !in l.next then Crashed
    else
      var before, after := l.prev[del], l.next[del];
      if before == del then l.(head := None)
      else if l.head == Some(del) then
        if after.None? then Crashed
        else l.(prev := l.prev[after.value := before], head := after)
      else if after.Some? then l.(next := l.next[before := after], prev := l.prev[after.value := before])
      else if l.head.None? then Crashed
      else l.(next := l.next[before := after], prev := l.prev[l.head.value := before])
  }

  // ---------- well-formed lists ----------

  ghost predicate Distinct(ids: seq<nat>) {
    forall i, j :: 0 <= i < j < |ids| ==> ids[i] != ids[j]
  }

  function At(ids: seq<nat>, k: nat): Option<nat> {
    if k < |ids| then Some(ids[k]) else None
  }

  function Before(ids: seq<nat>, k: nat): nat
    requires k < |ids|
  {
    if k == 0 then ids[|ids| - 1] else ids[k - 1]
  }

  /** Record ids[k] is linked as the k-th of the list. */
  ghost predicate Linked(l: MapList, ids: seq<nat>, k: nat)
    requires l.MapList? && k < |ids|
  {
    && ids[k] in l.next && ids[k] in l.prev && ids[k] in l.address
    && l.next[ids[k]] == At(ids, k + 1) && l.prev[ids[k]] == Before(ids, k)
  }

  /** A null-terminated list of exactly these records, each prev pointing back, the head's to the tail. */
  ghost predicate Lists(l: MapList, ids: seq<nat>) {
    l.MapList? && l.head == At(ids, 0) && Distinct(ids) && forall k: nat :: k < |ids| ==> Linked(l, ids, k)
  }

  ghost predicate WellFormed(l: MapList) {
    exists ids :: Lists(l, ids)
  }

  ghost function Content(l: MapList): (ids: seq<nat>)
    requires WellFormed(l)
    ensures Lists(l, ids)
  {
    var ids :| Lists(l, ids);
    ids
  }

  /** A list has only one content. */
  lemma ListsOnce(l: MapList, a: seq<nat>, b: seq<nat>)
    requires Lists(l, a) && Lists(l, b)
    ensures a == b
  {
    SamePrefix(l, a, b, |a|);
    SamePrefix(l, b, a, |b|);
  }

  lemma {:induction false} SamePrefix(l: MapList, a: seq<nat>, b: seq<nat>, n: nat)
    requires Lists(l, a) && Lists(l, b) && n <= |a|
    ensures n <= |b| && a[..n] == b[..n]
  {
    if n > 0 {
      SamePrefix(l, a, b, n - 1);
      if n > 1 {
        assert a[..n - 1][n - 2] == b[..n - 1][n - 2];
        assert Linked(l, a, n - 2) && Linked(l, b, n - 2);
      }
    }
  }

  lemma ContentIs(l: MapList, ids: seq<nat>)
    requires Lists(l, ids)
    ensures WellFormed(l) && Content(l) == ids
  {
    ListsOnce(l, ids, Content(l));
  }

  lemma AppendLists(l: MapList, ids: seq<nat>, id: nat, address: int)
    requires Lists(l, ids) && id !in ids
    ensures Lists(Append(l, id, address), ids + [id])
  {
    var m, r := Append(l, id, address), ids + [id];
    if ids != [] {
      var last := |ids| - 1;
      assert Linked(l, ids, 0) && Linked(l, ids, last);
      forall k: nat | k < |r| ensures Linked(m, r, k) {
        if k < |ids| { assert Linked(l, ids, k); }
      }
    }
  }

  function Without(ids: seq<nat>, k: nat): seq<nat>
    requires k < |ids|
  {
    ids[..k] + ids[k + 1..]
  }

  /** Deleting a present record takes exactly that one out. */
  lemma DeleteLists(l: MapList, ids: seq<nat>, k: nat)
    requires Lists(l, ids) && k < |ids|
    ensures Lists(Delete(l, ids[k]), Without(ids, k))
  {
    var m, r, n := Delete(l, ids[k]), Without(ids, k), |ids|;
    assert Linked(l, ids, k) && Linked(l, ids, 0) && Linked(l, ids, n - 1);
    if n > 1 {
      if k > 0 { assert Linked(l, ids, k - 1); }
      if k + 1 < n { assert Linked(l, ids, k + 1); }
      forall j: nat | j < |r| ensures Linked(m, r, j) {
        var i := if j < k then j else j + 1;
        assert r[j] == ids[i] && Linked(l, ids, i);
        DeletedLink(ids, k, j);
      }
    }
  }

  /** The neighbours of a record in the shorter list. */
  lemma DeletedLink(ids: seq<nat>, k: nat, j: nat)
    requires k < |ids| && j < |Without(ids, k)|
    ensures var i := if j < k then j else j + 1;
      && At(Without(ids, k), j + 1) == (if i + 1 == k then At(ids, k + 1) else At(ids, i + 1))
      && Before(Without(ids, k), j) == (if i == k + 1 || (i == 0 && k == |ids| - 1) then Before(ids, k)
                                        else Before(ids, i))
  {
  }

  // ---------- scanning ----------

  datatype Scanned = Hit(id: nat) | Miss | Looking

  /** DL_FOREACH with the test for an address, stopped after `steps` records. */
  function Scan(l: MapList, at: Option<nat>, address: int, steps: nat): Scanned
    requires l.MapList?
    decreases steps
  {
    if at.None? then Miss
    else if at.value in l.address && l.address[at.value] == address then Hit(at.value)
    else if steps == 0 || at.value !in l.next then Looking
    else Scan(l, l.next[at.value], address, steps - 1)
  }

  /** The first of these records with the address. */
  function First(l: MapList, ids: seq<nat>, address: int): (r: Option<nat>)
    requires l.MapList?
    ensures r.None? <==> forall k :: 0 <= k < |ids| ==> ids[k] !in l.address || l.address[ids[k]] != address
    ensures r.Some? ==> r.value in ids && r.value in l.address && l.address[r.value] == address
  {
    if ids == [] then None
    else if ids[0] in l.address && l.address[ids[0]] == address then Some(ids[0])
    else
      assert forall k :: 0 < k < |ids| ==> ids[k] == ids[1..][k - 1];
      First(l, ids[1..], address)
  }

  function Outcome(r: Option<nat>): Scanned {
    if r.Some? then Hit(r.value) else Miss
  }

  lemma FirstFrom(l: MapList, ids: seq<nat>, k: nat, address: int)
    requires l.MapList? && k < |ids|
    ensures First(l, ids[k..], address)
            == if ids[k] in l.address && l.address[ids[k]] == address then Some(ids[k]) else First(l, ids[k + 1..], address)
  {
    assert ids[k..][0] == ids[k] && ids[k..][1..] == ids[k + 1..];
  }

  lemma ScanStep(l: MapList, ids: seq<nat>, k: nat, address: int)
    requires Lists(l, ids) && k < |ids|
    ensures ids[k] in l.address
    ensures Scan(l, At(ids, k), address, |ids| - k)
            == if l.address[ids[k]] == address then Hit(ids[k]) else Scan(l, At(ids, k + 1), address, |ids| - (k + 1))
  {
    assert Linked(l, ids, k);
  }

  /** Scanning a well-formed list ends, at the first record with the address if there is one. */
  lemma {:induction false} ScanFinds(l: MapList, ids: seq<nat>, k: nat, address: int)
    requires Lists(l, ids) && k <= |ids|
    ensures Scan(l, At(ids, k), address, |ids| - k) == Outcome(First(l, ids[k..], address))
    decreases |ids| - k
  {
    if k < |ids| {
      ScanStep(l, ids, k, address);
      FirstFrom(l, ids, k, address);
      if l.address[ids[k]] != address {
        ScanFinds(l, ids, k + 1, address);
      }
    }
  }

  /** Two scans that came to an end came to the same. */
  lemma {:induction false} ScanIsDecided(l: MapList, at: Option<nat>, address: int, m: nat, n: nat)
    requires l.MapList? && !Scan(l, at, address, m).Looking? && !Scan(l, at, address, n).Looking?
    ensures Scan(l, at, address, m) == Scan(l, at, address, n)
    decreases m
  {
    if at.Some? && m > 0 && n > 0 && at.value in l.next && !(at.value in l.address && l.address[at.value] == address) {
      ScanIsDecided(l, l.next[at.value], address, m - 1, n - 1);
    }
  }

  /** On a well-formed list a scan that came to an end came to the first record with the address. */
  lemma DecidedIsFirst(l: MapList, address: int, n: nat)
    requires WellFormed(l) && !Scan(l, l.head, address, n).Looking?
    ensures Scan(l, l.head, address, n) == Outcome(First(l, Content(l), address))
  {
    var ids := Content(l);
    ScanFinds(l, ids, 0, address);
    assert ids[0..] == ids;
    ScanIsDecided(l, l.head, address, n, |ids|);
  }

  // ---------- deleting a record a second time ----------

  /** The records follow each other in a circle, from the head on. */
  ghost predicate Ring(l: MapList, ids: seq<nat>) {
    && l.MapList? && ids != [] && l.head == Some(ids[0])
    && forall k: nat :: k < |ids| ==> ids[k] in l.next && l.next[ids[k]] == Some(ids[if k + 1 < |ids| then k + 1 else 0])
  }

  /** A scan of a ring for an address that none of its records has never ends. */
  lemma {:induction false} RingScan(l: MapList, ids: seq<nat>, k: nat, address: int, steps: nat)
    requires Ring(l, ids) && k < |ids| && First(l, ids, address).None?
    ensures Scan(l, Some(ids[k]), address, steps) == Looking
    decreases steps
  {
    if steps > 0 { RingScan(l, ids, if k + 1 < |ids| then k + 1 else 0, address, steps - 1); }
  }

  lemma RingGoesOn(l: MapList, ring: seq<nat>, id: nat)
    requires Ring(l, ring) && id in ring
    ensures id in l.next && l.next[id].Some? && l.next[id].value in ring
  {
    var j :| 0 <= j < |ring| && ring[j] == id;
    var after := ring[if j + 1 < |ring| then j + 1 else 0];
    assert l.next[ring[j]] == Some(after) && after in ring;
  }

  lemma ListEnds(l: MapList, ids: seq<nat>)
    requires Lists(l, ids) && ids != []
    ensures ids[|ids| - 1] in l.next && l.next[ids[|ids| - 1]].None?
  {
    assert Linked(l, ids, |ids| - 1);
  }

  /** What starts at the head of a ring stays in it. */
  lemma {:induction false} RingPrefix(l: MapList, ring: seq<nat>, ids: seq<nat>, k: nat)
    requires Ring(l, ring) && Lists(l, ids) && k < |ids|
    ensures ids[k] in ring
  {
    if k > 0 {
      RingPrefix(l, ring, ids, k - 1);
      assert Linked(l, ids, k - 1);
      RingGoesOn(l, ring, ids[k - 1]);
    }
  }

  lemma RingIsNoList(l: MapList, ring: seq<nat>, ids: seq<nat>)
    requires Ring(l, ring)
    ensures !Lists(l, ids)
  {
    if Lists(l, ids) {
      RingPrefix(l, ring, ids, |ids| - 1);
      ListEnds(l, ids);
      RingGoesOn(l, ring, ids[|ids| - 1]);
    }
  }

  lemma DeleteHeadTwice(l: MapList, ids: seq<nat>)
    requires Lists(l, ids) && |ids| > 1
    ensures Ring(Delete(Delete(l, ids[0]), ids[0]), ids[1..])
  {
    var once := Delete(l, ids[0]);
    var twice, rest, last := Delete(once, ids[0]), ids[1..], |ids| - 1;
    assert Linked(l, ids, 0) && Linked(l, ids, 1) && Linked(l, ids, last);
    assert once.next == l.next && once.prev[ids[0]] == ids[last] && once.head == Some(ids[1]);
    assert twice.next == l.next[ids[last] := Some(ids[1])];
    forall j: nat | j < |rest|
      ensures rest[j] in twice.next && twice.next[rest[j]] == Some(rest[if j + 1 < |rest| then j + 1 else 0])
    {
      assert Linked(l, ids, j + 1);
    }
  }

  lemma DeleteOtherTwice(l: MapList, ids: seq<nat>, k: nat)
    requires Lists(l, ids) && k < |ids| && (k > 0 || |ids| == 1)
    ensures Delete(Delete(l, ids[k]), ids[k]) == Delete(l, ids[k])
  {
    assert Linked(l, ids, k) && Linked(l, ids, 0) && Linked(l, ids, |ids| - 1);
    if k > 0 { assert Linked(l, ids, k - 1); }
    if k + 1 < |ids| { assert Linked(l, ids, k + 1); }
  }

  /** Deleting a record that has just left the list closes the rest into a ring if it was the head of several, and changes nothing else. */
  lemma DeleteTwice(l: MapList, ids: seq<nat>, k: nat)
    requires Lists(l, ids) && k < |ids|
    ensures var m := Delete(Delete(l, ids[k]), ids[k]);
      if k == 0 && |ids| > 1 then Ring(m, ids[1..]) else m == Delete(l, ids[k])
  {
    if k == 0 && |ids| > 1 { DeleteHeadTwice(l, ids); } else { DeleteOtherTwice(l, ids, k); }
  }

  /** So a second deletion leaves the list as the first did iff the record was not the head of several. */
  lemma DeleteTwiceIff(l: MapList, ids: seq<nat>, k: nat)
    requires Lists(l, ids) && k < |ids|
    ensures WellFormed(Delete(Delete(l, ids[k]), ids[k])) <==> k > 0 || |ids| == 1
  {
    DeleteTwice(l, ids, k);
    DeleteLists(l, ids, k);
    var m := Delete(Delete(l, ids[k]), ids[k]);
    if k == 0 && |ids| > 1 {
      forall other ensures !Lists(m, other) { RingIsNoList(m, ids[1..], other); }
    } else {
      assert Lists(m, Without(ids, k));
    }
  }
}
