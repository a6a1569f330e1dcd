/** Sequences without repeats, how many elements they have, and sequences cut to a length. */
module Sequences {

  ghost predicate NoRepeat<T>(s: seq<T>) {
    forall i, j :: 0 <= i < j < |s| ==> s[i] != s[j]
  }

  ghost function Elements<T>(s: seq<T>): set<T> {
    set x | x in s
  }

  lemma ElementsAppend<T>(s: seq<T>, x: T)
    ensures Elements(s + [x]) == Elements(s) + {x}
  {
  }

  lemma {:induction false} Fewer<T>(a: set<T>, b: set<T>)
    requires a <= b
    ensures |a| <= |b|
    ensures |a| == |b| ==> a == b
  {
    if x :| x in a {
      Fewer(a - {x}, b - {x});
    }
  }

  lemma {:induction false} CountElements<T>(s: seq<T>)
    requires NoRepeat(s)
    ensures |Elements(s)| == |s|
  {
    if s == [] {
      assert Elements(s) == {};
    } else {
      var k := |s| - 1;
      CountElements(s[..k]);
      ElementsAppend(s[..k], s[k]);
      assert s == s[..k] + [s[k]];
      assert s[k] !in s[..k];
    }
  }

  /** The first `n` elements, or all if there are fewer; what `snprintf` keeps of a text. */
  function AtMost<T>(s: seq<T>, n: nat): (t: seq<T>)
    ensures t <= s && |t| <= n
  {
    if |s| <= n then s else s[..n]
  }

  /** `at` lists, in order, exactly the places of `all` whose elements are kept. */
  ghost predicate Picks<T(!new)>(all: seq<T>, keep: T -> bool, at: seq<nat>) {
    && (forall j :: 0 <= j < |at| ==> at[j] < |all| && keep(all[at[j]]))
    && (forall i, j :: 0 <= i < j < |at| ==> at[i] < at[j])
    && (forall i :: 0 <= i < |all| && keep(all[i]) ==> i in at)
  }

  lemma PicksAppend<T(!new)>(all: seq<T>, keep: T -> bool, at: seq<nat>, x: T)
    requires Picks(all, keep, at)
    ensures Picks(all + [x], keep, if keep(x) then at + [|all|] else at)
  {
    var all', at' := all + [x], if keep(x) then at + [|all|] else at;
    forall i | 0 <= i < |all'| && keep(all'[i]) ensures i in at' {
      if i < |all| {
        assert all'[i] == all[i];
        assert i in at;
      } else {
        assert at'[|at|] == i;
      }
    }
  }

  lemma {:induction false} AtLeast(at: seq<nat>, j: nat)
    requires j < |at| && forall i, k :: 0 <= i < k < |at| ==> at[i] < at[k]
    ensures at[j] >= j
  {
    if j > 0 {
      AtLeast(at, j - 1);
    }
  }

  lemma {:induction false} PicksPlace<T(!new)>(all: seq<T>, keep: T -> bool, at: seq<nat>, i: nat)
    requires Picks(all, keep, at) && i < |all| && forall k :: 0 <= k < |all| ==> keep(all[k])
    ensures i < |at| && at[i] == i
  {
    assert i in at;
    var m :| 0 <= m < |at| && at[m] == i;
    AtLeast(at, m);
    if i > 0 {
      PicksPlace(all, keep, at, i - 1);
    }
  }

  /** If all elements are kept, every place is listed. */
  lemma PicksAll<T(!new)>(all: seq<T>, keep: T -> bool, at: seq<nat>)
    requires Picks(all, keep, at) && forall i :: 0 <= i < |all| ==> keep(all[i])
    ensures |at| == |all| && forall i :: 0 <= i < |all| ==> at[i] == i
  {
    forall i | 0 <= i < |all| ensures i < |at| && at[i] == i {
      PicksPlace(all, keep, at, i);
    }
    if all != [] {
      PicksPlace(all, keep, at, |all| - 1);
    }
    if at != [] {
      AtLeast(at, |at| - 1);
    }
  }
}
