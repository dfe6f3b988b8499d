/**
 * The pointer trail of script.js, the older page script: the same trail and
 * word picker as js/background-fx.js with a shorter buffer and a longer
 * plain-dot life, and with the dot size and the word chosen inside
 * `pushPoint` from the mask sample.
 */
module ScriptPage {
  import opened Options
  import opened Collections
  import opened TrailBuffer
  import opened WordShuffle

  const BaseDotSize: real := 1.85
  const BaseLife: nat := 64
  const AccentLife: nat := 126
  const AccentMaxExtraSize: real := 6.5
  const MaxPoints: nat := 120

  /** The dot size: the base size, grown by up to 6.5 px with the accent strength. */
  function DotSize(accent: bool, strength: real): (size: real)
    ensures !accent ==> size == BaseDotSize
    ensures accent && 0.0 <= strength <= 1.0 ==> BaseDotSize <= size <= BaseDotSize + AccentMaxExtraSize
  {
    if accent then BaseDotSize + AccentMaxExtraSize * strength else BaseDotSize
  }

  /** A larger accent strength never gives a smaller dot. */
  lemma DotSizeMonotone(s1: real, s2: real)
    requires s1 <= s2
    ensures DotSize(true, s1) <= DotSize(true, s2)
  {
    assert AccentMaxExtraSize * s2 - AccentMaxExtraSize * s1 == AccentMaxExtraSize * (s2 - s1);
  }

  /** A word the page draws: any word but the empty one, which JavaScript reads as false. */
  predicate Truthy(word: Option<string>)
  {
    word.Some? && word.value != ""
  }

  class TrailPage {
    const trail: Trail
    const words: WordPicker
    var wordsActive: bool

    ghost predicate Valid()
      reads this, trail, words
    {
      trail.Valid() && trail.maxPoints == MaxPoints && trail.baseLife == BaseLife && trail.accentLife == AccentLife
      && words.Valid()
    }

    constructor()
      ensures Valid() && fresh(trail) && fresh(words) && trail.points == [] && !wordsActive
    {
      trail := new Trail(MaxPoints, BaseLife, AccentLife);
      words := new WordPicker();
      wordsActive := false;
    }

    /**
     * The word half of `pushPoint`: an accent dot picks a word while words
     * are active (`random` standing for `Math.random()`), and a drawn word
     * moves the last word position.
     */
    method AccentWord(x: real, y: real, hit: bool, random: real) returns (word: Option<string>)
      requires Valid() && 0.0 <= random < 1.0
      modifies words, words.spot
      ensures Valid() && words.pool == old(words.pool)
      ensures !(hit && wordsActive) ==>
        word.None? && words.remaining == old(words.remaining) && words.used == old(words.used)
      ensures hit && wordsActive && |words.pool| == 0 ==> word.None?
      ensures hit && wordsActive && |words.pool| > 0 ==> word.Some? && word.value in words.pool
      ensures Truthy(word) ==> words.spot.at == Some(Position(x, y))
      ensures !Truthy(word) ==> words.spot.at == old(words.spot.at)
    {
      word := None;
      if hit && wordsActive {
        word := words.PickWord(random);
      }
      if Truthy(word) {
        words.spot.at := Some(Position(x, y));
      }
    }

    /** `pushPoint(x, y, accentInfo)`: the dot, with its word, joins the trail of at most 120. */
    method PushPoint(x: real, y: real, hit: bool, strength: real, random: real) returns (word: Option<string>)
      requires Valid() && 0.0 <= random < 1.0
      modifies trail, words, words.spot
      ensures Valid() && words.pool == old(words.pool)
      ensures hit && wordsActive && |words.pool| > 0 ==> word.Some? && word.value in words.pool
      ensures !(hit && wordsActive) ==> word.None?
      ensures trail.points == KeepNewest(old(trail.points) + [trail.NewPoint(x, y, hit, DotSize(hit, strength), word)], MaxPoints)
      ensures |trail.points| <= MaxPoints
    {
      word := AccentWord(x, y, hit, random);
      trail.PushPoint(x, y, hit, DotSize(hit, strength), word);
    }

    /** The trail step of `render` with the settings of this page. */
    method Age()
      requires Valid()
      modifies trail
      ensures Valid() && trail.points == DropDead(Aged(old(trail.points)))
    {
      trail.Age();
    }
  }
}
