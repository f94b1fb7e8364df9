/** Counting facts about finite sets of indices. */
module Finite {

  /** The numbers from `lo` up to but not including `hi`. */
  ghost function Range(lo: nat, hi: nat): (r: set<nat>)
    ensures forall q :: q in r <==> lo <= q < hi
    ensures lo <= hi ==> |r| == hi - lo
    decreases hi
  {
    if lo >= hi then {} else Range(lo, hi - 1) + {hi - 1}
  }

  ghost function Members<T>(s: seq<T>): set<T> {
    set x | x in s
  }

  lemma {:induction false} SubsetSize<T>(a: set<T>, b: set<T>)
    requires a <= b
    ensures |a| <= |b|
  {
    if a != {} {
      var x :| x in a;
      SubsetSize(a - {x}, b - {x});
    }
  }

  ghost predicate Distinct<T>(s: seq<T>) {
    forall i, j :: 0 <= i < j < |s| ==> s[i] != s[j]
  }

  lemma {:induction false} DistinctSize<T>(s: seq<T>)
    requires Distinct(s)
    ensures |Members(s)| == |s|
  {
    if s != [] {
      DistinctSize(s[1..]);
      assert Members(s) == Members(s[1..]) + {s[0]};
      assert s[0] !in Members(s[1..]);
    }
  }

  /** A list longer than the set it is drawn from repeats an element. */
  lemma Pigeonhole<T>(s: seq<T>, pool: set<T>) returns (i: nat, j: nat)
    requires |s| > |pool| && forall k :: 0 <= k < |s| ==> s[k] in pool
    ensures i < j < |s| && s[i] == s[j]
  {
    if Distinct(s) {
      DistinctSize(s);
      SubsetSize(Members(s), pool);
      assert false;
    }
    i, j :| 0 <= i < j < |s| && s[i] == s[j];
  }

  /** If every target is the image of some source, there are at least as many sources. */
  lemma {:induction false} ImageBound(targets: set<nat>, sources: set<nat>, f: seq<nat>)
    requires forall t :: t in targets ==> exists s :: s in sources && s < |f| && f[s] == t
    ensures |targets| <= |sources|
  {
    if targets != {} {
      var t :| t in targets;
      var s :| s in sources && s < |f| && f[s] == t;
      forall t' | t' in targets - {t} ensures exists s' :: s' in sources - {s} && s' < |f| && f[s'] == t' {
        var s' :| s' in sources && s' < |f| && f[s'] == t';
        assert s' in sources - {s};
      }
      ImageBound(targets - {t}, sources - {s}, f);
    }
  }
}
