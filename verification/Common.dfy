/** Small shared datatypes. */
module Common {
  datatype Option<+T> = None | Some(value: T)

  /** The cells of `a` from `at` on are replaced by `block`: what a memcpy into `a` does. */
  function Blit<T>(a: seq<T>, at: nat, block: seq<T>): (r: seq<T>)
    requires at + |block| <= |a|
    ensures |r| == |a|
    ensures forall k :: 0 <= k < |a| ==> r[k] == if at <= k < at + |block| then block[k - at] else a[k]
  {
    a[..at] + block + a[at + |block|..]
  }

  lemma BlitInside<T>(a: seq<T>, at: nat, block: seq<T>)
    requires at + |block| <= |a|
    ensures Blit(a, at, block)[at..at + |block|] == block
  {
  }

  lemma BlitOutside<T>(a: seq<T>, at: nat, block: seq<T>, lo: nat, hi: nat)
    requires at + |block| <= |a| && lo <= hi <= |a| && (hi <= at || at + |block| <= lo)
    ensures Blit(a, at, block)[lo..hi] == a[lo..hi]
  {
  }

  lemma {:induction false} SubsetSize<T>(a: set<T>, b: set<T>)
    requires a <= b
    ensures |a| <= |b|
  {
    if x :| x in a {
      SubsetSize(a - {x}, b - {x});
    }
  }
}
