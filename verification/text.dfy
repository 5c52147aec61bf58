/**
 * The JavaScript string primitives the pages use: `toLowerCase` (ASCII
 * letters only), the `\s` character class, `trim`, `replace(/\s+/g, "")`,
 * `includes`, a `$`-anchored suffix test, and the character-by-character
 * order that `Array.prototype.sort` applies to strings (compared by code
 * point here).
 */
module Text {
  import Lists

  /** ASCII case folding of one character; every other character is kept. */
  function LowerChar(c: char): char {
    if 'A' <= c <= 'Z' then (c as int + 32) as char else c
  }

  /** `toLowerCase`, restricted to ASCII letters. */
  function Lower(s: string): (r: string)
    ensures |r| == |s|
    ensures forall i :: 0 <= i < |s| ==> r[i] == LowerChar(s[i])
  {
    if s == "" then ""
    else
      var r := [LowerChar(s[0])] + Lower(s[1..]);
      assert forall i :: 0 < i < |s| ==> r[i] == Lower(s[1..])[i - 1] && s[1..][i - 1] == s[i];
      r
  }

  /** A string without upper-case ASCII letters is its own lower case. */
  lemma LowerKeepsLowerCase(s: string)
    requires forall i :: 0 <= i < |s| ==> !('A' <= s[i] <= 'Z')
    ensures Lower(s) == s
  {
    assert forall i :: 0 <= i < |s| ==> Lower(s)[i] == s[i];
  }

  /**
   * The characters that the regular-expression class `\s` and `trim` treat
   * as white space: the ECMAScript WhiteSpace and LineTerminator sets.
   */
  predicate IsWhitespace(c: char) {
    || '\U{0009}' <= c <= '\U{000D}'
    || c == ' '
    || c == '\U{00A0}'
    || c == '\U{1680}'
    || '\U{2000}' <= c <= '\U{200A}'
    || c == '\U{2028}' || c == '\U{2029}'
    || c == '\U{202F}' || c == '\U{205F}'
    || c == '\U{3000}' || c == '\U{FEFF}'
  }

  predicate AllWhitespace(s: string) {
    forall i :: 0 <= i < |s| ==> IsWhitespace(s[i])
  }

  /** `s.replace(/\s+/g, "")`: every white-space character removed, the rest kept in order. */
  function StripWhitespace(s: string): (r: string)
    ensures forall i :: 0 <= i < |r| ==> !IsWhitespace(r[i])
    ensures Lists.IsSubsequence(r, s)
    ensures AllWhitespace(s) ==> r == ""
    ensures (forall i :: 0 <= i < |s| ==> !IsWhitespace(s[i])) ==> r == s
  {
    if s == "" then ""
    else
      var rest := StripWhitespace(s[1..]);
      assert forall i :: 0 <= i < |s| - 1 ==> s[1..][i] == s[i + 1];
      if IsWhitespace(s[0]) then rest
      else
        assert s == [s[0]] + s[1..];
        [s[0]] + rest
  }

  /**
   * What the strip keeps, counted: every character that is not white space
   * keeps all its occurrences, and white space vanishes.
   */
  lemma {:induction false} StripWhitespaceCount(s: string)
    ensures forall c :: multiset(StripWhitespace(s))[c] == if IsWhitespace(c) then 0 else multiset(s)[c]
  {
    if s != "" {
      assert s == [s[0]] + s[1..];
      StripWhitespaceCount(s[1..]);
    }
  }

  /** No white space at either end. */
  predicate IsTrimmed(s: string) {
    s == "" || (!IsWhitespace(s[0]) && !IsWhitespace(s[|s| - 1]))
  }

  /** The index of the first character at or after `i` that is not white space, or `|s|`. */
  function SkipLeading(s: string, i: nat): (j: nat)
    requires i <= |s|
    ensures i <= j <= |s|
    ensures forall k :: i <= k < j ==> IsWhitespace(s[k])
    ensures j == |s| || !IsWhitespace(s[j])
    decreases |s| - i
  {
    if i < |s| && IsWhitespace(s[i]) then SkipLeading(s, i + 1) else i
  }

  /**
   * Scanning back from `j` but not below `lo`: the end of the last character
   * before `j` that is not white space, or `lo`.
   */
  function SkipTrailing(s: string, lo: nat, j: nat): (i: nat)
    requires lo <= j <= |s|
    ensures lo <= i <= j
    ensures forall k :: i <= k < j ==> IsWhitespace(s[k])
    ensures i == lo || !IsWhitespace(s[i - 1])
  {
    if lo < j && IsWhitespace(s[j - 1]) then SkipTrailing(s, lo, j - 1) else j
  }

  /**
   * `r` is the piece of `s` that starts at index `i`, and every character of
   * `s` before or after that piece is white space.
   */
  predicate TrimmedSliceAt(s: string, r: string, i: nat) {
    && i + |r| <= |s|
    && (forall k :: 0 <= k < i ==> IsWhitespace(s[k]))
    && (forall k :: 0 <= k < |r| ==> r[k] == s[i + k])
    && (forall k :: i + |r| <= k < |s| ==> IsWhitespace(s[k]))
  }

  /**
   * `trim`: the longest piece of `s` that neither starts nor ends with white
   * space, found by dropping white space at both ends.
   */
  function Trim(s: string): (r: string)
    ensures IsTrimmed(r)
    ensures exists i: nat :: TrimmedSliceAt(s, r, i)
    ensures r == "" <==> AllWhitespace(s)
  {
    var i := SkipLeading(s, 0);
    var j := SkipTrailing(s, i, |s|);
    assert TrimmedSliceAt(s, s[i..j], i);
    s[i..j]
  }

  /** `needle` occurs in `hay` starting at index `i`. */
  predicate OccursAt(hay: string, needle: string, i: nat) {
    i + |needle| <= |hay| && hay[i..i + |needle|] == needle
  }

  /** `hay.includes(needle)`. */
  function Contains(hay: string, needle: string): (b: bool)
    ensures b <==> exists i: nat :: i <= |hay| && OccursAt(hay, needle, i)
    ensures needle == "" ==> b
    decreases |hay|
  {
    if |needle| <= |hay| && hay[..|needle|] == needle then
      assert OccursAt(hay, needle, 0);
      true
    else if hay == "" then
      false
    else
      var b := Contains(hay[1..], needle);
      assert b ==> exists i: nat :: i <= |hay| && OccursAt(hay, needle, i) by {
        if b {
          var j: nat :| j <= |hay[1..]| && OccursAt(hay[1..], needle, j);
          assert hay[1..][j..j + |needle|] == hay[j + 1..j + 1 + |needle|];
          assert OccursAt(hay, needle, j + 1);
        }
      }
      assert (exists i: nat :: i <= |hay| && OccursAt(hay, needle, i)) ==> b by {
        if i: nat :| i <= |hay| && OccursAt(hay, needle, i) {
          assert i != 0;
          assert hay[1..][i - 1..i - 1 + |needle|] == hay[i..i + |needle|];
          assert OccursAt(hay[1..], needle, i - 1);
        }
      }
      b
  }

  /** `s` ends with `suffix`. */
  predicate EndsWith(s: string, suffix: string) {
    |suffix| <= |s| && s[|s| - |suffix|..] == suffix
  }

  /**
   * The order `Array.prototype.sort` uses for strings by default:
   * lexicographic by character code, a proper prefix first.
   */
  predicate Less(a: string, b: string) {
    if a == "" then b != ""
    else if b == "" then false
    else a[0] < b[0] || (a[0] == b[0] && Less(a[1..], b[1..]))
  }

  lemma {:induction false} LessIrreflexive(a: string)
    ensures !Less(a, a)
  {
    if a != "" {
      LessIrreflexive(a[1..]);
    }
  }

  lemma {:induction false} LessTransitive(a: string, b: string, c: string)
    requires Less(a, b) && Less(b, c)
    ensures Less(a, c)
  {
    if a != "" && a[0] == b[0] && b[0] == c[0] {
      LessTransitive(a[1..], b[1..], c[1..]);
    }
  }

  lemma {:induction false} LessTotal(a: string, b: string)
    requires a != b
    ensures Less(a, b) || Less(b, a)
  {
    if a != "" && b != "" && a[0] == b[0] {
      assert a == [a[0]] + a[1..] && b == [b[0]] + b[1..];
      LessTotal(a[1..], b[1..]);
    }
  }
}
