/**
 * `trimPreviewText` of articles/article-page.js: the text of a marker's
 * context as shown in its hover preview, with white space collapsed and cut
 * to a length with an ellipsis.
 */
module PreviewText {
  import opened JsStrings

  /** A slice of single-spaced text is single-spaced. */
  lemma SingleSpacedSlice(s: string, a: nat, b: nat)
    requires SingleSpaced(s) && a <= b <= |s|
    ensures SingleSpaced(s[a..b])
  {
    var t := s[a..b];
    forall i, j | 0 <= i < j < |t| && j == i + 1 && IsSpace(t[i]) ensures !IsSpace(t[j]) {
      assert t[i] == s[a + i] && t[j] == s[a + j];
    }
  }

  /** `t` occurs in `s` as a run of consecutive characters. */
  predicate Infix(t: string, s: string)
  {
    exists a :: 0 <= a <= |s| && t <= s[a..]
  }

  /** `Trim` is `TrimEnd` after `TrimStart`, each cutting at its end of the text. */
  lemma TrimParts(s: string)
    ensures TrimStart(s) == s[|s| - |TrimStart(s)|..]
    ensures Trim(s) == TrimEnd(TrimStart(s)) && Trim(s) == TrimStart(s)[..|Trim(s)|]
  {
  }

  /** Trimming keeps text single-spaced. */
  lemma TrimSingleSpaced(s: string)
    requires SingleSpaced(s)
    ensures SingleSpaced(Trim(s))
  {
    TrimStartSingleSpaced(s);
    TrimEndSingleSpaced(TrimStart(s));
  }

  lemma {:induction false} TrimStartSingleSpaced(s: string)
    requires SingleSpaced(s)
    ensures SingleSpaced(TrimStart(s))
    decreases |s|
  {
    if s != [] && IsSpace(s[0]) {
      SingleSpacedShift(s, s[1..], 1);
      TrimStartSingleSpaced(s[1..]);
    }
  }

  lemma {:induction false} TrimEndSingleSpaced(s: string)
    requires SingleSpaced(s)
    ensures SingleSpaced(TrimEnd(s))
    decreases |s|
  {
    if s != [] && IsSpace(s[|s| - 1]) {
      SingleSpacedShift(s, s[..|s| - 1], 0);
      TrimEndSingleSpaced(s[..|s| - 1]);
    }
  }

  /** A run of single-spaced text, `t` read from offset `a`, is single-spaced. */
  lemma SingleSpacedShift(s: string, t: string, a: nat)
    requires SingleSpaced(s) && a + |t| <= |s|
    requires forall i :: 0 <= i < |t| ==> t[i] == s[a + i]
    ensures SingleSpaced(t)
  {
    forall i, j | 0 <= i < j < |t| && j == i + 1 && IsSpace(t[i]) ensures !IsSpace(t[j]) {
      assert t[i] == s[a + i] && t[j] == s[a + j];
    }
  }

  /** The ellipsis keeps single-spaced text single-spaced. */
  lemma EllipsisSingleSpaced(t: string)
    requires SingleSpaced(t)
    ensures SingleSpaced(t + "...")
  {
    var r := t + "...";
    forall i, j | 0 <= i < j < |r| && j == i + 1 && IsSpace(r[i]) ensures !IsSpace(r[j]) {
      if j < |t| {
        assert r[i] == t[i] && r[j] == t[j];
      } else {
        assert r[j] == '.';
      }
    }
  }

  /**
   * `value.replace(/\s+/g, " ").trim()`: single-spaced and trimmed, with
   * every other character of the value kept in order.
   */
  function Normalized(value: string): (n: string)
    ensures SingleSpaced(n) && IsTrimmed(n)
    ensures NonSpace(n) == NonSpace(value)
  {
    TrimSingleSpaced(CollapseSpaces(value));
    CollapseSpacesKeeps(value);
    NonSpaceTrim(CollapseSpaces(value));
    Trim(CollapseSpaces(value))
  }

  /**
   * `trimPreviewText(value, maxLength)`: the normalised text when it fits;
   * otherwise its first `maxLength - 1` characters (none when that is
   * negative), trimmed, followed by `"..."`.
   */
  function TrimPreviewText(value: string, maxLength: int): string
  {
    var normalized := Normalized(value);
    if normalized == [] then []
    else if |normalized| <= maxLength then normalized
    else Cut(normalized, maxLength)
  }

  /** The first `maxLength - 1` characters (none when that is negative), trimmed, and `"..."`. */
  function Cut(n: string, maxLength: int): string
    requires |n| > maxLength
  {
    var cut := if maxLength - 1 > 0 then maxLength - 1 else 0;
    Trim(n[..cut]) + "..."
  }

  /** Text that fits is shown whole, once normalised. */
  lemma PreviewFits(value: string, maxLength: int)
    requires |Normalized(value)| <= maxLength
    ensures TrimPreviewText(value, maxLength) == Normalized(value)
  {
  }

  /**
   * Text that does not fit is cut: what comes before the `"..."` is a
   * trimmed prefix of the normalised text of fewer than `maxLength`
   * characters, so the preview is at most `maxLength + 2` long (3 when
   * `maxLength` is below 1).
   */
  lemma PreviewCut(value: string, maxLength: int)
    requires |Normalized(value)| > maxLength && Normalized(value) != []
    ensures TrimPreviewText(value, maxLength) == Cut(Normalized(value), maxLength)
    ensures CutShape(Normalized(value), maxLength, TrimPreviewText(value, maxLength))
  {
    CutIsShape(Normalized(value), maxLength);
  }

  ghost predicate CutShape(n: string, maxLength: int, r: string)
  {
    |r| >= 3 && r[|r| - 3..] == "..."
    && IsTrimmed(r[..|r| - 3])
    && |r| - 3 <= (if maxLength > 1 then maxLength - 1 else 0)
    && Infix(r[..|r| - 3], n)
  }

  lemma CutIsShape(n: string, maxLength: int)
    requires |n| > maxLength
    ensures CutShape(n, maxLength, Cut(n, maxLength))
  {
    var cut := if maxLength - 1 > 0 then maxLength - 1 else 0;
    var r := Cut(n, maxLength);
    assert r[..|r| - 3] == Trim(n[..cut]);
    TrimOfPrefixInfix(n, cut);
  }

  /** The trimmed first `cut` characters occur in the text. */
  lemma TrimOfPrefixInfix(n: string, cut: nat)
    requires cut <= |n|
    ensures Infix(Trim(n[..cut]), n)
  {
    var p := n[..cut];
    TrimParts(p);
    var a := |p| - |TrimStart(p)|;
    assert Trim(p) <= TrimStart(p);
    assert TrimStart(p) <= n[a..] by {
      forall i | 0 <= i < |TrimStart(p)| ensures TrimStart(p)[i] == n[a..][i] {
        assert TrimStart(p)[i] == p[a + i];
      }
    }
    assert Trim(p) <= n[a..];
  }

  /** A preview never shows white space other than single spaces. */
  lemma PreviewSingleSpaced(value: string, maxLength: int)
    ensures SingleSpaced(TrimPreviewText(value, maxLength))
  {
    var n := Normalized(value);
    if n != [] && |n| > maxLength {
      var cut := if maxLength - 1 > 0 then maxLength - 1 else 0;
      assert TrimPreviewText(value, maxLength) == Trim(n[..cut]) + "...";
      SingleSpacedSlice(n, 0, cut);
      assert n[0..cut] == n[..cut];
      TrimSingleSpaced(n[..cut]);
      EllipsisSingleSpaced(Trim(n[..cut]));
    }
  }

  /** The preview is empty exactly when the text is white space only. */
  lemma PreviewEmpty(value: string, maxLength: int)
    ensures TrimPreviewText(value, maxLength) == [] <==> Normalized(value) == []
  {
    var n := Normalized(value);
    if n == [] {
      assert TrimPreviewText(value, maxLength) == [];
    } else if |n| <= maxLength {
      assert TrimPreviewText(value, maxLength) == n;
    } else {
      assert TrimPreviewText(value, maxLength) == Cut(n, maxLength);
      assert |Cut(n, maxLength)| >= 3;
    }
  }
}
