/**
 * The Kotlin text predicates the trail search relies on: `isBlank`,
 * `equals(other, ignoreCase = true)` and `contains(other, ignoreCase = true)`.
 *
 * Character classes follow Kotlin's `Char.isWhitespace`. Case mapping is
 * restricted to ASCII letters; the comparison itself has the shape of
 * Kotlin's `Char.equals(other, ignoreCase = true)`.
 */
module Text {
  import opened Optional

  /** Kotlin `Char.isWhitespace`: Java whitespace (tab, line feed, vertical tab,
      form feed, carriage return, the four information separators) together
      with every Unicode space, line and paragraph separator. */
  predicate IsWhitespace(c: char) {
    || c == '\t' || c == '\n' || c == '\U{B}' || c == '\U{C}' || c == '\r'
    || ('\U{1C}' <= c <= '\U{1F}')
    || c == ' ' || c == '\U{A0}' || c == '\U{1680}'
    || ('\U{2000}' <= c <= '\U{200A}')
    || c == '\U{2028}' || c == '\U{2029}' || c == '\U{202F}' || c == '\U{205F}' || c == '\U{3000}'
  }

  /** Kotlin `CharSequence.isBlank`: empty, or whitespace only. */
  predicate IsBlank(s: string) {
    forall i | 0 <= i < |s| :: IsWhitespace(s[i])
  }

  function UpperCase(c: char): char {
    if 'a' <= c <= 'z' then (c as int - 32) as char else c
  }

  function LowerCase(c: char): char {
    if 'A' <= c <= 'Z' then (c as int + 32) as char else c
  }

  /** Kotlin `Char.equals(other, ignoreCase = true)`. */
  predicate CharEqualsIgnoreCase(a: char, b: char) {
    || a == b
    || UpperCase(a) == UpperCase(b)
    || LowerCase(UpperCase(a)) == LowerCase(UpperCase(b))
  }

  /** Case-insensitive character comparison is exactly equality of the
      lower-case forms. */
  lemma CharEqualsIgnoreCaseIsLowerEquality(a: char, b: char)
    ensures CharEqualsIgnoreCase(a, b) <==> LowerCase(a) == LowerCase(b)
  {
  }

  /** Kotlin `String.equals(other, ignoreCase = true)`: same length and
      pairwise case-insensitive equal characters. */
  predicate EqualsIgnoreCase(a: string, b: string) {
    |a| == |b| && forall i | 0 <= i < |a| :: CharEqualsIgnoreCase(a[i], b[i])
  }

  /** `s` with every character lower-cased. */
  function Lower(s: string): (r: string)
    ensures |r| == |s| && forall i :: 0 <= i < |s| ==> r[i] == LowerCase(s[i])
  {
    if s == [] then [] else [LowerCase(s[0])] + Lower(s[1..])
  }

  /** Two strings are equal ignoring case exactly when their lower-cased
      forms are equal. */
  lemma EqualsIgnoreCaseIsLowerEquality(a: string, b: string)
    ensures EqualsIgnoreCase(a, b) <==> Lower(a) == Lower(b)
  {
    if |a| == |b| {
      forall i | 0 <= i < |a| ensures CharEqualsIgnoreCase(a[i], b[i]) <==> Lower(a)[i] == Lower(b)[i] {
        CharEqualsIgnoreCaseIsLowerEquality(a[i], b[i]);
      }
      if Lower(a) != Lower(b) {
        var i :| 0 <= i < |a| && Lower(a)[i] != Lower(b)[i];
      }
    }
  }

  /** Kotlin `regionMatches` with `ignoreCase = true`, comparing all of `q`
      against `s` from offset `k`; false when `q` does not fit there. */
  predicate RegionMatches(s: string, q: string, k: nat) {
    && k + |q| <= |s|
    && forall i | 0 <= i < |q| :: CharEqualsIgnoreCase(s[k + i], q[i])
  }

  /** Specification: `q` occurs in `s` at some offset, ignoring case. */
  ghost predicate Occurs(s: string, q: string) {
    exists k: nat :: RegionMatches(s, q, k)
  }

  /** Kotlin `indexOf(other, startIndex, ignoreCase = true)`: scans the
      offsets `from`, `from + 1`, ..., `|s|` and returns the first one at
      which `q` matches. */
  function IndexOfIgnoreCase(s: string, q: string, from: nat): (r: Option<nat>)
    ensures r.Some? ==> from <= r.value && RegionMatches(s, q, r.value)
    ensures r.Some? ==> forall j: nat :: from <= j < r.value ==> !RegionMatches(s, q, j)
    ensures r.None? ==> forall j: nat :: from <= j ==> !RegionMatches(s, q, j)
    decreases |s| + 1 - from
  {
    if from > |s| then None
    else if RegionMatches(s, q, from) then Some(from)
    else IndexOfIgnoreCase(s, q, from + 1)
  }

  /** Kotlin `contains(other, ignoreCase = true)`, which is `indexOf >= 0`. */
  predicate ContainsIgnoreCase(s: string, q: string)
    ensures ContainsIgnoreCase(s, q) <==> Occurs(s, q)
  {
    IndexOfIgnoreCase(s, q, 0).Some?
  }

}
