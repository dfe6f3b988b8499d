/**
 * The fading pointer trail of js/background-fx.js and script.js: `pushPoint`
 * appends a dot and drops the oldest ones beyond `maxPoints`; every frame of
 * `render` takes one unit of life from each dot it still draws and then
 * removes the dead dots at the front. The two copies differ only in their settings.
 */
module TrailBuffer {
  import opened Options
  import opened Collections

  /** One dot of the trail; `word` is the word drawn instead of a dot, if any. */
  datatype TrailPoint = TrailPoint(
    x: real, y: real,
    life: int, maxLife: nat,
    size: real,
    accent: bool,
    word: Option<string>)

  /**
   * `p.life / p.maxLife <= 0`: `render` skips such a dot (`continue`) and
   * leaves its life alone. With a zero `maxLife` the quotient is NaN or
   * infinite, and only a negative life counts as faded.
   */
  predicate Faded(p: TrailPoint)
  {
    if p.maxLife > 0 then p.life <= 0 else p.life < 0
  }

  /** The life step of one dot: `p.life -= 1`, reached only by a dot that is not faded. */
  function AgedPoint(p: TrailPoint): (q: TrailPoint)
    ensures q.x == p.x && q.y == p.y && q.maxLife == p.maxLife && q.size == p.size
    ensures q.accent == p.accent && q.word == p.word
    ensures Faded(p) ==> q.life == p.life
    ensures !Faded(p) ==> q.life == p.life - 1
  {
    if Faded(p) then p else p.(life := p.life - 1)
  }

  /** Each dot one frame older. */
  function Aged(s: seq<TrailPoint>): (r: seq<TrailPoint>)
    ensures |r| == |s|
    ensures forall i :: 0 <= i < |s| ==> r[i] == AgedPoint(s[i])
  {
    seq(|s|, i requires 0 <= i < |s| => AgedPoint(s[i]))
  }

  /** `while (trail.length > 0 && trail[0].life <= 0) trail.shift()`. */
  function DropDead(s: seq<TrailPoint>): (r: seq<TrailPoint>)
    ensures |r| <= |s| && r == s[|s| - |r|..]
    ensures r == [] || r[0].life > 0
    ensures forall i :: 0 <= i < |s| - |r| ==> s[i].life <= 0
    decreases |s|
  {
    if s != [] && s[0].life <= 0 then DropDead(s[1..]) else s
  }

  /**
   * Every dot has a positive full life, the accent life for an accent dot,
   * and a life between 0 and that full life.
   */
  predicate LivesOk(s: seq<TrailPoint>, baseLife: nat, accentLife: nat)
  {
    forall i :: 0 <= i < |s| ==>
      0 < s[i].maxLife && 0 <= s[i].life <= s[i].maxLife
      && (s[i].maxLife == if s[i].accent then accentLife else baseLife)
  }

  /**
   * A frame keeps the life bounds: a living dot loses one unit, and a dead
   * one stays at 0, so no life ever drops below 0.
   */
  lemma AgedLivesOk(s: seq<TrailPoint>, baseLife: nat, accentLife: nat)
    requires LivesOk(s, baseLife, accentLife)
    ensures LivesOk(Aged(s), baseLife, accentLife)
    ensures forall i :: 0 <= i < |s| ==> Aged(s)[i].life == if s[i].life > 0 then s[i].life - 1 else 0
  {
  }

  lemma SuffixLivesOk(s: seq<TrailPoint>, k: nat, baseLife: nat, accentLife: nat)
    requires LivesOk(s, baseLife, accentLife) && k <= |s|
    ensures LivesOk(s[k..], baseLife, accentLife)
  {
    assert forall i :: 0 <= i < |s| - k ==> s[k..][i] == s[k + i];
  }

  class Trail {
    var points: seq<TrailPoint>
    const maxPoints: nat
    const baseLife: nat
    const accentLife: nat

    /**
     * Both full lives are positive, every dot's life lies within its full
     * life, and the buffer holds at most `maxPoints` dots.
     */
    predicate Valid()
      reads this
    {
      0 < baseLife && 0 < accentLife
      && |points| <= maxPoints && LivesOk(points, baseLife, accentLife)
    }

    constructor(maxPoints: nat, baseLife: nat, accentLife: nat)
      requires 0 < baseLife && 0 < accentLife
      ensures Valid()
      ensures points == [] && this.maxPoints == maxPoints
      ensures this.baseLife == baseLife && this.accentLife == accentLife
    {
      points := [];
      this.maxPoints := maxPoints;
      this.baseLife := baseLife;
      this.accentLife := accentLife;
    }

    /** The dot `pushPoint` appends: full life, the accent life for an accent dot. */
    function NewPoint(x: real, y: real, accent: bool, size: real, word: Option<string>): (p: TrailPoint)
      reads this
      ensures p.life == p.maxLife
      ensures p.maxLife == if accent then accentLife else baseLife
      ensures p.x == x && p.y == y && p.size == size && p.accent == accent && p.word == word
    {
      var life := if accent then accentLife else baseLife;
      TrailPoint(x, y, life, life, size, accent, word)
    }

    /** `trail.length = 0`. */
    method Clear()
      requires Valid()
      modifies this
      ensures Valid() && points == []
    {
      points := [];
    }

    /** `pushPoint`: the new dot last, the oldest dots dropped beyond `maxPoints`. */
    method PushPoint(x: real, y: real, accent: bool, size: real, word: Option<string>)
      requires Valid()
      modifies this
      ensures Valid()
      ensures points == KeepNewest(old(points) + [NewPoint(x, y, accent, size, word)], maxPoints)
    {
      points := points + [NewPoint(x, y, accent, size, word)];
      if |points| > maxPoints {
        points := points[|points| - maxPoints..];
      }
    }

    /**
     * The trail step of `render`: one unit of life less for every dot that
     * is not faded, then the dead dots at the front removed.
     */
    method Age()
      requires Valid()
      modifies this
      ensures Valid()
      ensures points == DropDead(Aged(old(points)))
    {
      ghost var start := points;
      var i := 0;
      while i < |points|
        invariant 0 <= i <= |points| == |start|
        invariant forall k :: 0 <= k < i ==> points[k] == Aged(start)[k]
        invariant forall k :: i <= k < |points| ==> points[k] == start[k]
      {
        if !Faded(points[i]) {
          points := points[i := points[i].(life := points[i].life - 1)];
        }
        i := i + 1;
      }
      assert points == Aged(start);
      AgedLivesOk(start, baseLife, accentLife);
      while |points| > 0 && points[0].life <= 0
        invariant DropDead(points) == DropDead(Aged(start))
        invariant |points| <= maxPoints && LivesOk(points, baseLife, accentLife)
        decreases |points|
      {
        SuffixLivesOk(points, 1, baseLife, accentLife);
        points := points[1..];
      }
    }
  }

  /**
   * A frame removes only dots from the front, and only dead ones: what is
   * left is the newest part of the aged trail, led by a living dot.
   */
  lemma {:induction false} AgeKeepsNewest(s: seq<TrailPoint>)
    ensures var r := DropDead(Aged(s));
      |r| <= |s| && (r == [] || r[0].life > 0)
      && forall i :: 0 <= i < |r| ==> r[i] == AgedPoint(s[|s| - |r| + i])
  {
    var a := Aged(s);
    var r := DropDead(a);
    var d := |a| - |r|;
    assert r == a[d..];
    forall i | 0 <= i < |r| ensures r[i] == AgedPoint(s[d + i]) {
      assert r[i] == a[d..][i] == a[d + i];
    }
  }
}
