/** Sequence operations shared by the page scripts. */
module Collections {
  predicate NoDups<T(==)>(s: seq<T>) {
    forall i, j :: 0 <= i < j < |s| ==> s[i] != s[j]
  }

  /**
   * `list.splice(0, list.length - max)` after a push: the oldest entries are
   * dropped so that at most `max` remain, the newest ones, in order.
   */
  function KeepNewest<T>(s: seq<T>, max: nat): (r: seq<T>)
    ensures |r| <= max && |r| <= |s|
    ensures |s| <= max ==> r == s
    ensures |s| > max ==> |r| == max
    ensures r == s[|s| - |r|..]
  {
    if |s| > max then s[|s| - max..] else s
  }

  /** A prefix grown by one element. */
  lemma TakeSnoc<T>(s: seq<T>, k: nat)
    requires k < |s|
    ensures s[..k + 1] == s[..k] + [s[k]]
  {
  }

  /**
   * The order a JavaScript `Set` keeps when the elements of `s` are added one
   * after another: the first occurrence of each value, in order.
   */
  function Dedupe<T(==)>(s: seq<T>): (r: seq<T>)
    ensures NoDups(r)
    ensures forall i :: 0 <= i < |s| ==> s[i] in r
    ensures forall i :: 0 <= i < |r| ==> r[i] in s
    ensures |r| <= |s|
    decreases |s|
  {
    if s == [] then []
    else
      var r := Dedupe(s[..|s| - 1]);
      if s[|s| - 1] in r then r else r + [s[|s| - 1]]
  }

  /** Adding one more value to the set: either already present or appended. */
  lemma DedupeSnoc<T>(s: seq<T>, x: T)
    ensures Dedupe(s + [x]) == if x in Dedupe(s) then Dedupe(s) else Dedupe(s) + [x]
  {
    assert (s + [x])[..|s + [x]| - 1] == s;
  }

  /** A sequence without repeated values is its own insertion order. */
  lemma {:induction false} DedupeOfDistinct<T>(s: seq<T>)
    requires NoDups(s)
    ensures Dedupe(s) == s
    decreases |s|
  {
    if s != [] {
      var p := s[..|s| - 1];
      assert NoDups(p);
      DedupeOfDistinct(p);
      assert s[|s| - 1] !in p;
      assert p + [s[|s| - 1]] == s;
    }
  }
}
