/**
 * The word picker of js/background-fx.js (copied in script.js):
 * `resetWordShuffle` and `pickWord` in "shuffle" mode. The first
 * `max(1, ceil(0.7 n))` picks of a cycle are drawn without replacement from
 * `wordRemainingIndices`; later picks are drawn from the whole pool.
 */
module WordShuffle {
  import opened Options
  import opened JsNumbers
  import opened Collections

  /** A point on the page, in CSS pixels. */
  datatype Position = Position(x: real, y: real)

  const ShuffleThreshold: real := 0.7

  /** `Math.max(1, Math.ceil(n * threshold))`: how many picks of a cycle avoid repeats. */
  function ShuffleCutoff(n: nat): (c: int)
    requires n >= 1
    ensures 1 <= c <= n
    ensures c as real >= n as real * ShuffleThreshold
    ensures c < n ==> (c as real) < n as real * ShuffleThreshold + 1.0
  {
    var k := Ceil(n as real * ShuffleThreshold);
    if k < 1 then 1 else k
  }

  /** `Array.from({ length: n }, (_, i) => i)`. */
  function Iota(n: nat): (r: seq<nat>)
    ensures |r| == n && forall i :: 0 <= i < n ==> r[i] == i
    ensures NoDups(r)
  {
    seq(n, i requires 0 <= i < n => i)
  }

  /** `Math.floor(Math.random() * len)` with `random` in [0, 1). */
  function RandomIndex(random: real, len: nat): (i: nat)
    requires 0.0 <= random < 1.0 && len > 0
    ensures i < len
  {
    var p := random * len as real;
    assert p < len as real by { PositiveProduct(1.0 - random, len as real); }
    Floor(p)
  }

  lemma PositiveProduct(a: real, b: real)
    requires a > 0.0 && b > 0.0
    ensures a * b > 0.0
  {
  }

  /** `list.splice(list.indexOf(x), 1)` when `x` is present; the list itself otherwise. */
  function RemoveFirst(s: seq<nat>, x: nat): (r: seq<nat>)
    ensures x !in s ==> r == s
    ensures x in s ==> |r| == |s| - 1
    ensures forall i :: 0 <= i < |r| ==> r[i] in s
    ensures forall i :: 0 <= i < |s| && s[i] != x ==> s[i] in r
    decreases |s|
  {
    if s == [] then []
    else if s[0] == x then s[1..]
    else [s[0]] + RemoveFirst(s[1..], x)
  }

  /** Removing an element of a list without repeats leaves it out and repeats nothing. */
  lemma {:induction false} RemoveFirstNoDups(s: seq<nat>, x: nat)
    requires NoDups(s)
    ensures NoDups(RemoveFirst(s, x)) && x !in RemoveFirst(s, x)
    decreases |s|
  {
    if s != [] && s[0] != x {
      assert NoDups(s[1..]) by {
        forall i, j | 0 <= i < j < |s[1..]| ensures s[1..][i] != s[1..][j] {
          assert s[1..][i] == s[i + 1] && s[1..][j] == s[j + 1];
        }
      }
      RemoveFirstNoDups(s[1..], x);
      var t := RemoveFirst(s[1..], x);
      assert s[0] !in s[1..] by {
        forall k | 0 <= k < |s[1..]| ensures s[1..][k] != s[0] {
          assert s[1..][k] == s[k + 1];
        }
      }
      forall k | 0 <= k < |t| ensures t[k] != s[0] {
        assert t[k] in s[1..];
      }
      var r := [s[0]] + t;
      forall i, j | 0 <= i < j < |r| ensures r[i] != r[j] {
        if i > 0 {
          assert r[i] == t[i - 1] && r[j] == t[j - 1];
        }
      }
    } else if s != [] {
      forall k | 0 <= k < |s[1..]| ensures s[1..][k] != x {
        assert s[1..][k] == s[k + 1];
      }
      forall i, j | 0 <= i < j < |s[1..]| ensures s[1..][i] != s[1..][j] {
        assert s[1..][i] == s[i + 1] && s[1..][j] == s[j + 1];
      }
    }
  }

  /** Cutting out position `pos` of a list without repeats leaves that element out and repeats nothing. */
  lemma CutNoDups(s: seq<nat>, pos: nat)
    requires NoDups(s) && pos < |s|
    ensures var r := s[..pos] + s[pos + 1..];
      NoDups(r) && s[pos] !in r && |r| == |s| - 1
      && (forall i :: 0 <= i < |r| ==> r[i] in s)
      && (forall i :: 0 <= i < |s| && i != pos ==> s[i] in r)
  {
    var r := s[..pos] + s[pos + 1..];
    assert forall i :: 0 <= i < |r| ==> r[i] == if i < pos then s[i] else s[i + 1];
    forall i | 0 <= i < |s| && i != pos ensures s[i] in r {
      if i < pos { assert r[i] == s[i]; } else { assert r[i - 1] == s[i]; }
    }
  }

  /**
   * `lastWordX`/`lastWordY`: where the last word was drawn. The picker and
   * the game around it both forget it; it is kept apart from the picker's
   * indices, which it never affects.
   */
  class WordSpot {
    var at: Option<Position>

    constructor()
      ensures at.None?
    {
      at := None;
    }
  }

  class WordPicker {
    var pool: seq<string>
    var remaining: seq<nat>
    var cutoff: nat
    var used: nat
    /** The last word position, which an empty refill forgets. */
    const spot: WordSpot
    /** The indices the current cycle has drawn without replacement, in order. */
    ghost var drawn: seq<nat>

    /**
     * Every index still available is one of the pool and listed once; the
     * words drawn in this cycle are distinct, are no longer available, and
     * number `used`, never more than the cutoff.
     */
    ghost predicate Valid()
      reads this
    {
      (|pool| == 0 ==> remaining == [] && cutoff == 0 && used == 0 && drawn == [])
      && (|pool| > 0 ==>
        cutoff == ShuffleCutoff(|pool|)
        && NoDups(remaining) && NoDups(drawn)
        && (forall i :: 0 <= i < |remaining| ==> remaining[i] < |pool|)
        && (forall i :: 0 <= i < |drawn| ==> drawn[i] < |pool| && drawn[i] !in remaining)
        && |drawn| == used && used <= cutoff)
    }

    constructor()
      ensures Valid() && pool == [] && remaining == [] && fresh(spot) && spot.at.None?
    {
      pool := [];
      remaining := [];
      cutoff := 0;
      used := 0;
      spot := new WordSpot();
      drawn := [];
    }

    /** `resetWordShuffle`: every index available again and the count restarted. */
    method ResetWordShuffle()
      modifies this, spot
      ensures pool == old(pool) && Valid() && used == 0 && drawn == []
      ensures |pool| == 0 ==> remaining == [] && cutoff == 0 && spot.at.None?
      ensures |pool| > 0 ==> remaining == Iota(|pool|) && cutoff == ShuffleCutoff(|pool|) && spot.at == old(spot.at)
    {
      drawn := [];
      if |pool| == 0 {
        remaining := [];
        cutoff := 0;
        used := 0;
        spot.at := None;
        return;
      }
      remaining := Iota(|pool|);
      cutoff := ShuffleCutoff(|pool|);
      used := 0;
    }

    /**
     * The end of `loadWordPool`: the loaded words become the pool (none reads
     * as no pool), the shuffle restarts and the last word position is forgotten.
     */
    method LoadPool(words: seq<string>)
      modifies this, spot
      ensures pool == words && Valid() && used == 0 && spot.at.None?
      ensures |words| > 0 ==> remaining == Iota(|words|)
    {
      pool := words;
      ResetWordShuffle();
      spot.at := None;
    }

    /**
     * `pickWord` with `Math.random()` returning `random`. A pool-less picker
     * gives nothing; otherwise a cycle that ran out of indices starts over,
     * then a pick below the cutoff takes an index out of the remaining ones
     * and any later pick takes a random word of the pool.
     */
    method PickWord(random: real) returns (word: Option<string>)
      requires Valid() && 0.0 <= random < 1.0
      modifies this, spot
      ensures Valid() && pool == old(pool)
      ensures |pool| > 0 ==> word.Some? && word.value in pool
      ensures |pool| == 0 ==> word.None? && remaining == old(remaining) && used == old(used)
      ensures |pool| > 0 ==>
        var refill := |old(remaining)| == 0;
        var avail := if refill then Iota(|pool|) else old(remaining);
        var count := if refill then 0 else old(used);
        var cycle := if refill then [] else old(drawn);
        if count < cutoff then
          var pos := RandomIndex(random, |avail|);
          word == Some(pool[avail[pos]]) && remaining == avail[..pos] + avail[pos + 1..]
          && used == count + 1 && drawn == cycle + [avail[pos]]
        else
          var idx := RandomIndex(random, |pool|);
          word == Some(pool[idx]) && remaining == RemoveFirst(avail, idx)
          && used == count && drawn == cycle
      ensures spot.at == old(spot.at)
    {
      if |pool| == 0 {
        return None;
      }
      if |remaining| == 0 {
        ResetWordShuffle();
      }
      if used < cutoff && |remaining| > 0 {
        var pos := RandomIndex(random, |remaining|);
        var idx := remaining[pos];
        assert forall i :: 0 <= i < |drawn| ==> drawn[i] != idx;
        CutNoDups(remaining, pos);
        remaining := remaining[..pos] + remaining[pos + 1..];
        used := used + 1;
        drawn := drawn + [idx];
        word := Some(pool[idx]);
        return;
      }
      var idx := RandomIndex(random, |pool|);
      RemoveFirstNoDups(remaining, idx);
      remaining := RemoveFirst(remaining, idx);
      word := Some(pool[idx]);
    }
  }

  /**
   * Over a cycle, every pick below the cutoff is a different word position,
   * and the cutoff is at least 70 % of the pool: a pool of ten words shows
   * seven different words before any can repeat.
   */
  lemma CycleCoversSeventyPercent(n: nat)
    requires n >= 1
    ensures ShuffleCutoff(n) as real >= 0.7 * n as real
    ensures n == 10 ==> ShuffleCutoff(n) == 7
    ensures n == 1 ==> ShuffleCutoff(n) == 1
  {
    if n == 10 {
      assert Ceil(7.0) == 7;
    }
  }
}
