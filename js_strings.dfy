/**
 * The string built-ins the page scripts rely on: `trim`, `split`, the
 * `/\s+/` class, `padStart`, `String(n)` for integers and `Number(s)` on
 * decimal text.
 */
module JsStrings {
  import opened Options

  /** The characters that `String.prototype.trim` and the regular-expression class `\s` treat as white space. */
  predicate IsSpace(c: char) {
    c == '\t' || c == '\n' || c == '\U{000B}' || c == '\U{000C}' || c == '\r' || c == ' '
    || c == '\U{00A0}' || c == '\U{1680}' || ('\U{2000}' <= c <= '\U{200A}')
    || c == '\U{2028}' || c == '\U{2029}' || c == '\U{202F}' || c == '\U{205F}'
    || c == '\U{3000}' || c == '\U{FEFF}'
  }

  predicate IsTrimmed(s: string) {
    s == [] || (!IsSpace(s[0]) && !IsSpace(s[|s| - 1]))
  }

  function TrimStart(s: string): (r: string)
    ensures |r| <= |s| && r == s[|s| - |r|..]
    ensures r == [] || !IsSpace(r[0])
    ensures forall i :: 0 <= i < |s| - |r| ==> IsSpace(s[i])
    decreases |s|
  {
    if s != [] && IsSpace(s[0]) then TrimStart(s[1..]) else s
  }

  function TrimEnd(s: string): (r: string)
    ensures |r| <= |s| && r == s[..|r|]
    ensures r == [] || !IsSpace(r[|r| - 1])
    ensures forall i :: |r| <= i < |s| ==> IsSpace(s[i])
    decreases |s|
  {
    if s != [] && IsSpace(s[|s| - 1]) then TrimEnd(s[..|s| - 1]) else s
  }

  /** `s.trim()`: white space removed at both ends, nothing else touched. */
  function Trim(s: string): (r: string)
    ensures IsTrimmed(r)
    ensures IsTrimmed(s) ==> r == s
    ensures |r| <= |s|
    ensures r == [] <==> forall i :: 0 <= i < |s| ==> IsSpace(s[i])
  {
    var t := TrimStart(s);
    var r := TrimEnd(t);
    assert r != [] ==> r[0] == t[0];
    assert r == [] ==> t == [];
    r
  }

  /** Trimming keeps every character that is not white space, and adds none. */
  lemma TrimKeeps(s: string)
    ensures forall c :: c in Trim(s) ==> c in s
    ensures forall i :: 0 <= i < |s| && !IsSpace(s[i]) ==> s[i] in Trim(s)
  {
    var t := TrimStart(s);
    var r := TrimEnd(t);
    assert r == Trim(s);
    assert forall c :: c in r ==> c in t;
    forall i | 0 <= i < |s| && !IsSpace(s[i]) ensures s[i] in r {
      var k := i - (|s| - |t|);
      assert s[i] == t[k];
      assert k < |r|;
      assert r[k] == t[k];
    }
  }

  lemma TrimIdempotent(s: string)
    ensures Trim(Trim(s)) == Trim(s)
  {
  }

  /**
   * `s.split(sep)` where the separator is a single character out of `seps`:
   * one piece more than there are separators, none containing a separator.
   */
  function Split(s: string, seps: set<char>): (r: seq<string>)
    ensures |r| >= 1
    ensures forall k, i :: 0 <= k < |r| && 0 <= i < |r[k]| ==> r[k][i] !in seps
    decreases |s|
  {
    if s == [] then [[]]
    else
      var rest := Split(s[1..], seps);
      if s[0] in seps then [[]] + rest
      else [[s[0]] + rest[0]] + rest[1..]
  }

  /** `pieces.join(sep)`. */
  function Join(pieces: seq<string>, sep: string): string
    decreases |pieces|
  {
    if pieces == [] then []
    else if |pieces| == 1 then pieces[0]
    else pieces[0] + sep + Join(pieces[1..], sep)
  }

  /** Splitting on one character and joining on it again gives the text back. */
  lemma {:induction false} SplitJoin(s: string, c: char)
    ensures Join(Split(s, {c}), [c]) == s
    decreases |s|
  {
    if s != [] {
      SplitJoin(s[1..], c);
      var rest := Split(s[1..], {c});
      if s[0] == c {
        assert Join([[]] + rest, [c]) == [] + [c] + Join(rest, [c]);
      } else {
        var r := [[s[0]] + rest[0]] + rest[1..];
        if |rest| == 1 {
          assert Join(r, [c]) == [s[0]] + rest[0];
        } else {
          assert rest == [rest[0]] + rest[1..];
          assert Join(rest, [c]) == rest[0] + [c] + Join(rest[1..], [c]);
          assert Join(r, [c]) == [s[0]] + rest[0] + [c] + Join(rest[1..], [c]);
        }
      }
    }
  }

  /** Text without a separator is a single piece. */
  lemma {:induction false} SplitNoSeparator(s: string, seps: set<char>)
    requires forall i :: 0 <= i < |s| ==> s[i] !in seps
    ensures Split(s, seps) == [s]
    decreases |s|
  {
    if s != [] {
      SplitNoSeparator(s[1..], seps);
      assert [s[0]] + s[1..] == s;
    }
  }

  /** A separator after a separator-free prefix ends the first piece there. */
  lemma {:induction false} SplitAfterPrefix(a: string, c: char, b: string, seps: set<char>)
    requires c in seps
    requires forall i :: 0 <= i < |a| ==> a[i] !in seps
    ensures Split(a + [c] + b, seps) == [a] + Split(b, seps)
    decreases |a|
  {
    if a == [] {
      assert a + [c] + b == [c] + b;
      assert ([c] + b)[1..] == b;
    } else {
      var s := a + [c] + b;
      assert s[0] == a[0];
      assert s[1..] == a[1..] + [c] + b;
      SplitAfterPrefix(a[1..], c, b, seps);
      assert [a[0]] + a[1..] == a;
    }
  }

  /** `pieces.map(p => p.trim()).filter(Boolean)`. */
  function TrimmedTokens(pieces: seq<string>): (r: seq<string>)
    ensures forall k :: 0 <= k < |r| ==> r[k] != [] && IsTrimmed(r[k])
    ensures |r| <= |pieces|
    decreases |pieces|
  {
    if pieces == [] then []
    else
      var t := Trim(pieces[0]);
      (if t == [] then [] else [t]) + TrimmedTokens(pieces[1..])
  }

  lemma TokensHead(pieces: seq<string>, t: string)
    requires pieces != []
    ensures t in TrimmedTokens(pieces)
      <==> (t != [] && t == Trim(pieces[0])) || t in TrimmedTokens(pieces[1..])
  {
    var h := Trim(pieces[0]);
    assert TrimmedTokens(pieces) == (if h == [] then [] else [h]) + TrimmedTokens(pieces[1..]);
  }

  lemma PiecesHead(pieces: seq<string>, t: string)
    requires pieces != []
    ensures (exists j :: 0 <= j < |pieces| && Trim(pieces[j]) == t)
      <==> (Trim(pieces[0]) == t || exists j :: 0 <= j < |pieces[1..]| && Trim(pieces[1..][j]) == t)
  {
    var rest := pieces[1..];
    if exists j :: 0 <= j < |pieces| && Trim(pieces[j]) == t {
      var j :| 0 <= j < |pieces| && Trim(pieces[j]) == t;
      if j > 0 { assert rest[j - 1] == pieces[j]; }
    }
    if exists j :: 0 <= j < |rest| && Trim(rest[j]) == t {
      var j :| 0 <= j < |rest| && Trim(rest[j]) == t;
      assert pieces[j + 1] == rest[j];
    }
  }

  /** The tokens are exactly the non-empty trimmed pieces. */
  lemma {:induction false} TrimmedTokensMember(pieces: seq<string>, t: string)
    ensures t in TrimmedTokens(pieces) <==> t != [] && exists j :: 0 <= j < |pieces| && Trim(pieces[j]) == t
    decreases |pieces|
  {
    if pieces != [] {
      TrimmedTokensMember(pieces[1..], t);
      TokensHead(pieces, t);
      PiecesHead(pieces, t);
    }
  }

  /** A character no piece contains is in no token either. */
  lemma {:induction false} TrimmedTokensAvoid(pieces: seq<string>, c: char)
    requires forall j, i :: 0 <= j < |pieces| && 0 <= i < |pieces[j]| ==> pieces[j][i] != c
    ensures forall k :: 0 <= k < |TrimmedTokens(pieces)| ==> c !in TrimmedTokens(pieces)[k]
    decreases |pieces|
  {
    if pieces != [] {
      TrimmedTokensAvoid(pieces[1..], c);
      assert c !in pieces[0];
    }
  }

  predicate IsDigit(c: char) { '0' <= c <= '9' }

  predicate AllDigits(s: string) { forall i :: 0 <= i < |s| ==> IsDigit(s[i]) }

  function DigitValue(c: char): (d: nat)
    requires IsDigit(c)
    ensures d < 10
  {
    c as int - '0' as int
  }

  function DigitChar(d: nat): (c: char)
    requires d < 10
    ensures IsDigit(c) && DigitValue(c) == d
  {
    "0123456789"[d]
  }

  /** The value of a run of decimal digits, most significant first. */
  function DigitsValue(s: string): nat
    requires AllDigits(s)
    decreases |s|
  {
    if s == [] then 0 else DigitsValue(s[..|s| - 1]) * 10 + DigitValue(s[|s| - 1])
  }

  /** `String(n)` for a non-negative integer: its decimal digits without leading zeros. */
  function NatToString(n: nat): (r: string)
    ensures r != [] && AllDigits(r)
    ensures DigitsValue(r) == n
    ensures r[0] == '0' ==> n == 0
    decreases n
  {
    if n < 10 then [DigitChar(n)]
    else
      var p := NatToString(n / 10);
      var r := p + [DigitChar(n % 10)];
      assert r[..|r| - 1] == p;
      r
  }

  /**
   * `Number(s)` on text that is empty, white space or decimal digits
   * (surrounded by white space). Every other text reads as NaN, written `None`.
   */
  function NumberFromString(s: string): Option<nat>
  {
    var t := Trim(s);
    if t == [] then Some(0)
    else if AllDigits(t) then Some(DigitsValue(t))
    else None
  }

  /** White space alone reads as zero; a character that is neither white space nor a digit gives NaN. */
  lemma NumberFromOtherText(s: string)
    ensures (forall i :: 0 <= i < |s| ==> IsSpace(s[i])) ==> NumberFromString(s) == Some(0)
    ensures (exists i :: 0 <= i < |s| && !IsSpace(s[i]) && !IsDigit(s[i])) ==> NumberFromString(s) == None
  {
    if exists i :: 0 <= i < |s| && !IsSpace(s[i]) && !IsDigit(s[i]) {
      var i :| 0 <= i < |s| && !IsSpace(s[i]) && !IsDigit(s[i]);
      TrimKeeps(s);
      assert s[i] in Trim(s);
    }
  }

  lemma NumberFromNatString(n: nat)
    ensures NumberFromString(NatToString(n)) == Some(n)
  {
    var s := NatToString(n);
    assert !IsSpace(s[0]) && !IsSpace(s[|s| - 1]);
  }

  /** `s.padStart(width, fill)`. */
  function PadStart(s: string, width: nat, fill: char): (r: string)
    ensures |r| == if |s| >= width then |s| else width
    ensures r[|r| - |s|..] == s
    ensures forall i :: 0 <= i < |r| - |s| ==> r[i] == fill
  {
    if |s| >= width then s else seq(width - |s|, _ => fill) + s
  }

  /** No white space but single spaces: every white space is `' '` and none follows another. */
  ghost predicate SingleSpaced(s: string)
  {
    (forall i :: 0 <= i < |s| && IsSpace(s[i]) ==> s[i] == ' ')
    && forall i, j :: 0 <= i < j < |s| && j == i + 1 && IsSpace(s[i]) ==> !IsSpace(s[j])
  }

  /** The text with every white space removed: what a reader sees of it, in order. */
  function NonSpace(s: string): (r: string)
    ensures |r| <= |s|
    decreases |s|
  {
    if s == [] then [] else (if IsSpace(s[0]) then [] else [s[0]]) + NonSpace(s[1..])
  }

  lemma NonSpaceCons(c: char, rest: string)
    ensures NonSpace([c] + rest) == (if IsSpace(c) then [] else [c]) + NonSpace(rest)
  {
    assert ([c] + rest)[0] == c && ([c] + rest)[1..] == rest;
  }

  lemma {:induction false} NonSpaceConcat(a: string, b: string)
    ensures NonSpace(a + b) == NonSpace(a) + NonSpace(b)
    decreases |a|
  {
    if a == [] {
      assert a + b == b;
    } else {
      var t := a[1..];
      var h := if IsSpace(a[0]) then [] else [a[0]];
      assert (a + b)[0] == a[0] && (a + b)[1..] == t + b;
      assert NonSpace(a + b) == h + NonSpace(t + b);
      assert NonSpace(a) == h + NonSpace(t);
      NonSpaceConcat(t, b);
      assert h + (NonSpace(t) + NonSpace(b)) == (h + NonSpace(t)) + NonSpace(b);
    }
  }

  lemma {:induction false} NonSpaceOfSpaces(s: string)
    requires forall i :: 0 <= i < |s| ==> IsSpace(s[i])
    ensures NonSpace(s) == []
    decreases |s|
  {
    if s != [] {
      NonSpaceOfSpaces(s[1..]);
    }
  }

  lemma {:induction false} NonSpaceTrimStart(s: string)
    ensures NonSpace(TrimStart(s)) == NonSpace(s)
    decreases |s|
  {
    if s != [] && IsSpace(s[0]) {
      NonSpaceTrimStart(s[1..]);
    }
  }

  lemma {:induction false} NonSpaceTrimEnd(s: string)
    ensures NonSpace(TrimEnd(s)) == NonSpace(s)
    decreases |s|
  {
    if s != [] && IsSpace(s[|s| - 1]) {
      var init := s[..|s| - 1];
      NonSpaceTrimEnd(init);
      assert s == init + [s[|s| - 1]];
      NonSpaceConcat(init, [s[|s| - 1]]);
      NonSpaceOfSpaces([s[|s| - 1]]);
    }
  }

  /** Trimming removes white space only: the text without its white space is unchanged. */
  lemma NonSpaceTrim(s: string)
    ensures NonSpace(Trim(s)) == NonSpace(s)
  {
    NonSpaceTrimStart(s);
    NonSpaceTrimEnd(TrimStart(s));
  }

  /** Single-spaced text stays single-spaced without its first character. */
  lemma SingleSpacedTail(s: string)
    requires SingleSpaced(s) && s != []
    ensures SingleSpaced(s[1..])
  {
    var t := s[1..];
    forall i, j | 0 <= i < j < |t| && j == i + 1 && IsSpace(t[i]) ensures !IsSpace(t[j]) {
      assert t[i] == s[i + 1] && t[j] == s[j + 1];
    }
  }

  /**
   * `s.replace(/\s+/g, " ")`: each run of white space becomes one space, so
   * the result holds no white space but single spaces between other text.
   * `CollapseSpacesKeeps` shows that everything else is kept in order, and
   * `CollapseSingleSpaced` that single-spaced text is unchanged.
   */
  function CollapseSpaces(s: string): (r: string)
    ensures SingleSpaced(r)
    ensures |r| <= |s|
    ensures s != [] <==> r != []
    ensures s != [] ==> (IsSpace(s[0]) <==> IsSpace(r[0]))
    ensures s != [] ==> (IsSpace(s[|s| - 1]) <==> IsSpace(r[|r| - 1]))
    decreases |s|
  {
    if s == [] then []
    else if IsSpace(s[0]) then
      var t := TrimStart(s);
      assert t != s;
      var rest := CollapseSpaces(t);
      assert t != [] ==> s[|s| - 1] == t[|t| - 1];
      ConsSingleSpaced(' ', rest);
      [' '] + rest
    else
      var rest := CollapseSpaces(s[1..]);
      assert s[1..] != [] ==> s[|s| - 1] == s[1..][|s| - 2];
      ConsSingleSpaced(s[0], rest);
      [s[0]] + rest
  }

  /** One step of `CollapseSpaces` at a leading run of white space. */
  lemma CollapseSpaceStep(s: string)
    requires s != [] && IsSpace(s[0])
    ensures |TrimStart(s)| < |s|
    ensures CollapseSpaces(s) == [' '] + CollapseSpaces(TrimStart(s))
  {
  }

  /** One step of `CollapseSpaces` at a leading character that is not white space. */
  lemma CollapseCharStep(s: string)
    requires s != [] && !IsSpace(s[0])
    ensures CollapseSpaces(s) == [s[0]] + CollapseSpaces(s[1..])
  {
  }

  lemma KeepsAtSpace(s: string)
    requires s != [] && IsSpace(s[0])
    requires NonSpace(CollapseSpaces(TrimStart(s))) == NonSpace(TrimStart(s))
    ensures NonSpace(CollapseSpaces(s)) == NonSpace(s)
  {
    CollapseSpaceStep(s);
    NonSpaceTrimStart(s);
    NonSpaceCons(' ', CollapseSpaces(TrimStart(s)));
  }

  lemma KeepsAtChar(s: string)
    requires s != [] && !IsSpace(s[0])
    requires NonSpace(CollapseSpaces(s[1..])) == NonSpace(s[1..])
    ensures NonSpace(CollapseSpaces(s)) == NonSpace(s)
  {
    CollapseCharStep(s);
    NonSpaceCons(s[0], CollapseSpaces(s[1..]));
    assert s == [s[0]] + s[1..];
    NonSpaceCons(s[0], s[1..]);
  }

  /** Collapsing touches white space only: the text without its white space is unchanged. */
  lemma {:induction false} CollapseSpacesKeeps(s: string)
    ensures NonSpace(CollapseSpaces(s)) == NonSpace(s)
    decreases |s|
  {
    if s != [] && IsSpace(s[0]) {
      CollapseSpaceStep(s);
      CollapseSpacesKeeps(TrimStart(s));
      KeepsAtSpace(s);
    } else if s != [] {
      CollapseSpacesKeeps(s[1..]);
      KeepsAtChar(s);
    }
  }

  /** Text that is already single-spaced is left as it is. */
  lemma {:induction false} CollapseSingleSpaced(s: string)
    requires SingleSpaced(s)
    ensures CollapseSpaces(s) == s
    decreases |s|
  {
    if s != [] {
      var tail := s[1..];
      assert s == [s[0]] + tail;
      SingleSpacedTail(s);
      CollapseSingleSpaced(tail);
      if IsSpace(s[0]) {
        assert tail != [] ==> !IsSpace(tail[0]);
        assert TrimStart(s) == TrimStart(tail) == tail;
        CollapseSpaceStep(s);
      } else {
        CollapseCharStep(s);
      }
    }
  }

  /** A character before single-spaced text keeps it single-spaced unless it makes a second space. */
  lemma ConsSingleSpaced(c: char, rest: string)
    requires SingleSpaced(rest)
    requires IsSpace(c) ==> c == ' ' && (rest == [] || !IsSpace(rest[0]))
    ensures SingleSpaced([c] + rest)
  {
    var r := [c] + rest;
    forall i, j | 0 <= i < j < |r| && j == i + 1 && IsSpace(r[i]) ensures !IsSpace(r[j]) {
      assert r[j] == rest[j - 1];
      if i > 0 {
        assert r[i] == rest[i - 1];
      }
    }
  }
}
