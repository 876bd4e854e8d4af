/**
 * String operations the table view relies on: `IndexOf` with an ordinal,
 * case-insensitive comparison, and the order in which names are sorted.
 * Case folding is restricted to ASCII letters, and names are ordered by
 * character code.
 */
module Text {

  /** The upper-case form of an ASCII letter; every other character is its own folded form. */
  function ToUpperAscii(c: char): (u: char)
    ensures 'a' <= c <= 'z' ==> 'A' <= u <= 'Z' && u as int == c as int - 32
    ensures !('a' <= c <= 'z') ==> u == c
  {
    if 'a' <= c <= 'z' then (c as int - 32) as char else c
  }

  /**
   * Two characters fold to the same character exactly when they are equal or
   * are the lower- and upper-case forms of one ASCII letter.
   */
  lemma FoldedEqual(a: char, b: char)
    ensures ToUpperAscii(a) == ToUpperAscii(b) <==>
      || a == b
      || ('a' <= a <= 'z' && b as int == a as int - 32)
      || ('a' <= b <= 'z' && a as int == b as int - 32)
  {
  }

  /** A string with every character case-folded. */
  function FoldCase(s: string): (r: string)
    ensures |r| == |s|
    ensures forall i :: 0 <= i < |s| ==> r[i] == ToUpperAscii(s[i])
  {
    seq(|s|, i requires 0 <= i < |s| => ToUpperAscii(s[i]))
  }

  /** `pattern` occurs in `s` at offset `k` when characters are compared after case folding. */
  predicate MatchesAt(s: string, pattern: string, k: int) {
    0 <= k && k + |pattern| <= |s| &&
    forall j :: 0 <= j < |pattern| ==> ToUpperAscii(s[k + j]) == ToUpperAscii(pattern[j])
  }

  /** Two strings fold to the same string exactly when they have the same length and agree character by character up to ASCII case. */
  lemma FoldCaseEqual(s: string, t: string)
    ensures FoldCase(s) == FoldCase(t) <==>
      |s| == |t| && forall i :: 0 <= i < |s| ==> ToUpperAscii(s[i]) == ToUpperAscii(t[i])
  {
  }

  /** The folded slice of `s` at `k` equals the folded `pattern`. */
  predicate FoldedMatchAt(s: string, pattern: string, k: int) {
    0 <= k && k + |pattern| <= |s| && FoldCase(s[k..k + |pattern|]) == FoldCase(pattern)
  }

  /** A match at `k` is exactly an equality of the folded slice and the folded pattern. */
  lemma MatchesAtFolded(s: string, pattern: string, k: int)
    requires 0 <= k && k + |pattern| <= |s|
    ensures MatchesAt(s, pattern, k) <==> FoldCase(s[k..k + |pattern|]) == FoldCase(pattern)
  {
    var slice := s[k..k + |pattern|];
    if FoldCase(slice) == FoldCase(pattern) {
      forall j | 0 <= j < |pattern|
        ensures ToUpperAscii(s[k + j]) == ToUpperAscii(pattern[j])
      {
        assert FoldCase(slice)[j] == FoldCase(pattern)[j];
      }
    }
  }

  /** The first offset at or after `from` where `pattern` occurs ignoring case, or -1. */
  function IndexOfFrom(s: string, pattern: string, from: nat): (r: int)
    decreases |s| - from
    ensures r == -1 || (from <= r && MatchesAt(s, pattern, r))
    ensures r == -1 ==> forall k :: from <= k ==> !MatchesAt(s, pattern, k)
    ensures r >= 0 ==> forall k :: from <= k < r ==> !MatchesAt(s, pattern, k)
  {
    if from + |pattern| > |s| then -1
    else if MatchesAt(s, pattern, from) then from
    else IndexOfFrom(s, pattern, from + 1)
  }

  /** C# `s.IndexOf(pattern, StringComparison.OrdinalIgnoreCase)`: the first match, or -1 when there is none. */
  function IndexOfIgnoreCase(s: string, pattern: string): (r: int)
    ensures r == -1 || MatchesAt(s, pattern, r)
    ensures r == -1 <==> forall k :: !MatchesAt(s, pattern, k)
    ensures r >= 0 ==> forall k :: 0 <= k < r ==> !MatchesAt(s, pattern, k)
    ensures pattern == [] ==> r == 0
  {
    IndexOfFrom(s, pattern, 0)
  }

  /** Names in ordinal (character-code) lexicographic order: `a` sorts no later than `b`. */
  predicate NameLe(a: string, b: string) {
    |a| == 0 || (|b| > 0 && (a[0] < b[0] || (a[0] == b[0] && NameLe(a[1..], b[1..]))))
  }

  lemma {:induction false} NameLeReflexive(a: string)
    ensures NameLe(a, a)
  {
    if |a| > 0 {
      NameLeReflexive(a[1..]);
    }
  }

  lemma {:induction false} NameLeTotal(a: string, b: string)
    ensures NameLe(a, b) || NameLe(b, a)
  {
    if |a| > 0 && |b| > 0 && a[0] == b[0] {
      NameLeTotal(a[1..], b[1..]);
    }
  }

  lemma {:induction false} NameLeTransitive(a: string, b: string, c: string)
    requires NameLe(a, b) && NameLe(b, c)
    ensures NameLe(a, c)
  {
    if |a| > 0 && a[0] == b[0] && b[0] == c[0] {
      NameLeTransitive(a[1..], b[1..], c[1..]);
    }
  }

  lemma {:induction false} NameLeAntisymmetric(a: string, b: string)
    requires NameLe(a, b) && NameLe(b, a)
    ensures a == b
  {
    if |a| > 0 {
      NameLeAntisymmetric(a[1..], b[1..]);
      assert a == [a[0]] + a[1..] && b == [b[0]] + b[1..];
    }
  }
}
