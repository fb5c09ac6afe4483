/**
 * `Array.prototype.filter` on the workspace lists: what the kept list holds, that it
 * keeps the original order, and what removing one entry by its id leaves.
 */
module Lists {

  /** `xs.filter(keep)`. */
  function Filter<T>(xs: seq<T>, keep: T -> bool): (r: seq<T>)
    ensures |r| <= |xs|
    ensures forall i :: 0 <= i < |r| ==> r[i] in xs && keep(r[i])
    ensures forall i :: 0 <= i < |xs| && keep(xs[i]) ==> xs[i] in r
    ensures (forall i :: 0 <= i < |xs| ==> keep(xs[i])) ==> r == xs
  {
    KeptSpec(xs, keep);
    Kept(xs, keep)
  }

  /** The entries of xs that pass keep, front to back. */
  function Kept<T>(xs: seq<T>, keep: T -> bool): seq<T>
  {
    if xs == [] then []
    else (if keep(xs[0]) then [xs[0]] else []) + Kept(xs[1..], keep)
  }

  /** What Filter promises, proved on the recursion. */
  lemma {:induction false} KeptSpec<T>(xs: seq<T>, keep: T -> bool)
    ensures var r := Kept(xs, keep);
            |r| <= |xs|
            && (forall i :: 0 <= i < |r| ==> r[i] in xs && keep(r[i]))
            && (forall i :: 0 <= i < |xs| && keep(xs[i]) ==> xs[i] in r)
            && ((forall i :: 0 <= i < |xs| ==> keep(xs[i])) ==> r == xs)
  {
    if xs != [] {
      KeptSpec(xs[1..], keep);
      var head := if keep(xs[0]) then [xs[0]] else [];
      var rest := Kept(xs[1..], keep);
      var r := head + rest;
      forall i | 0 <= i < |r| ensures r[i] in xs && keep(r[i]) {
        if i >= |head| {
          assert r[i] == rest[i - |head|];
          assert rest[i - |head|] in xs[1..];
        }
      }
      forall i | 0 <= i < |xs| && keep(xs[i]) ensures xs[i] in r {
        if i > 0 {
          assert xs[i] == xs[1..][i - 1];
        }
      }
      if forall i :: 0 <= i < |xs| ==> keep(xs[i]) {
        assert forall i :: 0 <= i < |xs[1..]| ==> keep(xs[1..][i]) by {
          forall i | 0 <= i < |xs[1..]| ensures keep(xs[1..][i]) {
            assert xs[1..][i] == xs[i + 1];
          }
        }
        assert [xs[0]] + xs[1..] == xs;
      }
    }
  }

  /**
   * Filter keeps the passing entries in their original order: the k-th kept entry is
   * the entry at pos[k], the positions strictly increase, and every passing position
   * is among them.
   */
  lemma FilterPositions<T>(xs: seq<T>, keep: T -> bool) returns (pos: seq<nat>)
    ensures |pos| == |Filter(xs, keep)|
    ensures forall j :: 0 <= j < |pos| ==> pos[j] < |xs| && Filter(xs, keep)[j] == xs[pos[j]]
    ensures forall j, j' :: 0 <= j < j' < |pos| ==> pos[j] < pos[j']
    ensures forall i :: 0 <= i < |xs| && keep(xs[i]) ==> i in pos
  {
    KeptSpec(xs, keep);
    pos := KeptPositions(xs, keep);
  }

  /** The positions Kept picks, found on the recursion. */
  lemma {:induction false} KeptPositions<T>(xs: seq<T>, keep: T -> bool) returns (pos: seq<nat>)
    ensures Picks(xs, keep, Kept(xs, keep), pos)
  {
    if xs == [] {
      pos := [];
    } else {
      var rest := KeptPositions(xs[1..], keep);
      pos := ConsPositions(xs, keep, Kept(xs[1..], keep), rest);
    }
  }

  /** r is the entries of xs at the strictly increasing positions pos, which include every passing one. */
  ghost predicate Picks<T>(xs: seq<T>, keep: T -> bool, r: seq<T>, pos: seq<nat>)
  {
    |pos| == |r|
    && (forall j :: 0 <= j < |pos| ==> pos[j] < |xs| && r[j] == xs[pos[j]])
    && (forall j, j' :: 0 <= j < j' < |pos| ==> pos[j] < pos[j'])
    && (forall i :: 0 <= i < |xs| && keep(xs[i]) ==> i in pos)
  }

  /** One step of the recursion: the tail's positions shift by one, with 0 in front when the head passes. */
  lemma ConsPositions<T>(xs: seq<T>, keep: T -> bool, rt: seq<T>, rest: seq<nat>) returns (pos: seq<nat>)
    requires xs != [] && Picks(xs[1..], keep, rt, rest)
    ensures Picks(xs, keep, (if keep(xs[0]) then [xs[0]] else []) + rt, pos)
  {
    var tail := xs[1..];
    var shifted := seq(|rest|, j requires 0 <= j < |rest| => rest[j] + 1);
    var r := (if keep(xs[0]) then [xs[0]] else []) + rt;
    var d := if keep(xs[0]) then 1 else 0;
    pos := (if keep(xs[0]) then [0] else []) + shifted;
    forall j | d <= j < |pos| ensures pos[j] < |xs| && r[j] == xs[pos[j]] {
      assert r[j] == rt[j - d] == tail[rest[j - d]];
    }
    forall i | 0 < i < |xs| && keep(xs[i]) ensures i in pos {
      assert tail[i - 1] == xs[i];
      var j :| 0 <= j < |rest| && rest[j] == i - 1;
      assert pos[j + d] == i;
    }
  }

  /** Filtering works piece by piece, so the kept entries stay in their original order. */
  lemma FilterAppend<T>(a: seq<T>, b: seq<T>, keep: T -> bool)
    ensures Filter(a + b, keep) == Filter(a, keep) + Filter(b, keep)
  {
    KeptAppend(a, b, keep);
  }

  /** Kept splits over concatenation. */
  lemma {:induction false} KeptAppend<T>(a: seq<T>, b: seq<T>, keep: T -> bool)
    ensures Kept(a + b, keep) == Kept(a, keep) + Kept(b, keep)
  {
    if a == [] {
      assert a + b == b;
    } else {
      var head := if keep(a[0]) then [a[0]] else [];
      assert (a + b)[0] == a[0];
      assert (a + b)[1..] == a[1..] + b;
      KeptAppend(a[1..], b, keep);
      assert Kept(a + b, keep) == head + (Kept(a[1..], keep) + Kept(b, keep));
    }
  }

  /** When exactly the entry at k fails the test, filtering deletes it and nothing else. */
  lemma {:induction false} FilterRemovesOne<T>(xs: seq<T>, keep: T -> bool, k: nat)
    requires k < |xs| && !keep(xs[k])
    requires forall i :: 0 <= i < |xs| && i != k ==> keep(xs[i])
    ensures Filter(xs, keep) == xs[..k] + xs[k + 1..]
  {
    KeptRemovesOne(xs, keep, k);
  }

  /** Kept skips the one failing entry and keeps the rest. */
  lemma {:induction false} KeptRemovesOne<T>(xs: seq<T>, keep: T -> bool, k: nat)
    requires k < |xs| && !keep(xs[k])
    requires forall i :: 0 <= i < |xs| && i != k ==> keep(xs[i])
    ensures Kept(xs, keep) == xs[..k] + xs[k + 1..]
  {
    var tail := xs[1..];
    if k == 0 {
      KeptAll(xs, keep, 1, |xs|);
      assert xs[1..|xs|] == tail;
      assert Kept(xs, keep) == Kept(tail, keep);
      assert xs[..0] + xs[1..] == tail;
    } else {
      forall i | 0 <= i < |tail| && i != k - 1 ensures keep(tail[i]) {
        assert tail[i] == xs[i + 1];
      }
      KeptRemovesOne(tail, keep, k - 1);
      assert Kept(xs, keep) == [xs[0]] + (tail[..k - 1] + tail[k..]);
      assert [xs[0]] + tail[..k - 1] == xs[..k];
      assert tail[k..] == xs[k + 1..];
    }
  }

  /** A stretch of entries that all pass is kept whole. */
  lemma {:induction false} KeptAll<T>(xs: seq<T>, keep: T -> bool, lo: nat, hi: nat)
    requires lo <= hi <= |xs|
    requires forall i :: lo <= i < hi ==> keep(xs[i])
    ensures Kept(xs[lo..hi], keep) == xs[lo..hi]
    decreases hi - lo
  {
    if lo < hi {
      KeptAll(xs, keep, lo + 1, hi);
      assert xs[lo..hi][1..] == xs[lo + 1..hi];
      assert [xs[lo]] + xs[lo + 1..hi] == xs[lo..hi];
    }
  }

  /** When no entry passes, nothing is kept. */
  lemma FilterNone<T>(xs: seq<T>, keep: T -> bool)
    requires forall i :: 0 <= i < |xs| ==> !keep(xs[i])
    ensures Filter(xs, keep) == []
  {
    KeptNone(xs, keep);
  }

  lemma {:induction false} KeptNone<T>(xs: seq<T>, keep: T -> bool)
    requires forall i :: 0 <= i < |xs| ==> !keep(xs[i])
    ensures Kept(xs, keep) == []
  {
    if xs != [] {
      assert forall i :: 0 <= i < |xs[1..]| ==> xs[1..][i] == xs[i + 1];
      KeptNone(xs[1..], keep);
    }
  }
}
