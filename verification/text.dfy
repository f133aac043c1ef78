/** String operations of the JavaScript runtime that the model relies on:
    `includes`, `toLowerCase`, `replace` with a string pattern, and `split`
    on a one-character separator. */
module Text {
  import opened Common

  /** `new RegExp(pattern, 'i').test(text)`: regular-expression matching is
      not re-implemented, so callers receive it as a parameter. */
  type RegexTest = (string, string) -> bool

  /** `needle` occurs in `hay` starting at position `i`. */
  predicate OccursAt(hay: string, needle: string, i: int) {
    0 <= i && i + |needle| <= |hay| && hay[i..i + |needle|] == needle
  }

  /** The first position at or after `from` where `needle` occurs. */
  function IndexOfFrom(hay: string, needle: string, from: nat): (r: Option<nat>)
    ensures r.Some? ==> from <= r.value && OccursAt(hay, needle, r.value)
    ensures r.Some? ==> forall k :: from <= k < r.value ==> !OccursAt(hay, needle, k)
    ensures r.None? ==> forall k :: from <= k ==> !OccursAt(hay, needle, k)
    decreases |hay| - from
  {
    if from + |needle| > |hay| then None
    else if hay[from..from + |needle|] == needle then Some(from)
    else IndexOfFrom(hay, needle, from + 1)
  }

  /** `hay.indexOf(needle)`, with `None` for -1. */
  function IndexOf(hay: string, needle: string): Option<nat> {
    IndexOfFrom(hay, needle, 0)
  }

  /** `hay.includes(needle)`. */
  predicate Contains(hay: string, needle: string) {
    IndexOf(hay, needle).Some?
  }

  /** `includes` holds exactly when the needle occurs somewhere. */
  lemma ContainsIff(hay: string, needle: string)
    ensures Contains(hay, needle) <==> exists i :: OccursAt(hay, needle, i)
  {
  }

  /** Every string includes the empty string. */
  lemma ContainsEmpty(hay: string)
    ensures Contains(hay, "")
  {
    assert OccursAt(hay, "", 0);
  }

  /** A string includes itself. */
  lemma ContainsSelf(s: string)
    ensures Contains(s, s)
  {
    assert OccursAt(s, s, 0);
  }

  /** If an extended needle occurs, so does the shorter one. */
  lemma ContainsPrefixOfNeedle(hay: string, needle: string, more: string)
    requires Contains(hay, needle + more)
    ensures Contains(hay, needle)
  {
    var i := IndexOf(hay, needle + more).value;
    assert hay[i..i + |needle|] == (needle + more)[..|needle|];
    assert OccursAt(hay, needle, i);
  }

  /** `toLowerCase` on one character (ASCII letters only). */
  function LowerChar(c: char): char {
    if 'A' <= c <= 'Z' then (c as int + 32) as char else c
  }

  /** `toLowerCase` on a string, character by character. */
  function Lower(s: string): (r: string)
    ensures |r| == |s|
    ensures forall k :: 0 <= k < |s| ==> r[k] == LowerChar(s[k])
  {
    seq(|s|, k requires 0 <= k < |s| => LowerChar(s[k]))
  }

  /** Lower-casing distributes over concatenation. */
  lemma LowerAppend(a: string, b: string)
    ensures Lower(a + b) == Lower(a) + Lower(b)
  {
  }

  /** `s.replace(pattern, replacement)` with a string pattern: only the first
      occurrence is replaced. */
  function ReplaceFirst(s: string, pattern: string, replacement: string): (r: string)
    ensures IndexOf(s, pattern).None? ==> r == s
    ensures IndexOf(s, pattern).Some? ==>
      var i := IndexOf(s, pattern).value;
      && r == s[..i] + replacement + s[i + |pattern|..]
      && forall k :: 0 <= k < i ==> !OccursAt(s, pattern, k)
  {
    match IndexOf(s, pattern)
    case None => s
    case Some(i) => s[..i] + replacement + s[i + |pattern|..]
  }

  /** Replacing a known first occurrence: what precedes it is kept, the
      pattern is swapped, and the rest follows untouched. */
  lemma ReplaceFirstAt(a: string, pattern: string, b: string, replacement: string)
    requires forall k :: 0 <= k < |a| ==> !OccursAt(a + pattern + b, pattern, k)
    ensures ReplaceFirst(a + pattern + b, pattern, replacement) == a + replacement + b
  {
    var s := a + pattern + b;
    assert s[|a|..|a| + |pattern|] == pattern;
    assert OccursAt(s, pattern, |a|);
    assert IndexOf(s, pattern) == Some(|a|);
    assert s[..|a|] == a;
    assert s[|a| + |pattern|..] == b;
  }

  /** `s.split(sep)` for a one-character separator: the maximal pieces
      between separators, so `k` separators give `k + 1` pieces. */
  function Split(s: string, sep: char): (r: seq<string>)
    ensures |r| >= 1
    ensures forall k :: 0 <= k < |r| ==> sep !in r[k]
    decreases |s|
  {
    match IndexOf(s, [sep])
    case None =>
      assert forall k :: 0 <= k < |s| ==> s[k] != sep by {
        forall k | 0 <= k < |s| ensures s[k] != sep {
          assert !OccursAt(s, [sep], k);
        }
      }
      [s]
    case Some(i) =>
      assert forall k :: 0 <= k < i ==> s[k] != sep by {
        forall k | 0 <= k < i ensures s[k] != sep {
          assert !OccursAt(s, [sep], k);
        }
      }
      [s[..i]] + Split(s[i + 1..], sep)
  }

  /** `pieces.join(sep)`. */
  function Join(pieces: seq<string>, sep: char): string
    requires |pieces| >= 1
  {
    if |pieces| == 1 then pieces[0]
    else pieces[0] + [sep] + Join(pieces[1..], sep)
  }

  /** Joining the pieces of a split gives back the original string. */
  lemma {:induction false} JoinSplit(s: string, sep: char)
    ensures Join(Split(s, sep), sep) == s
    decreases |s|
  {
    match IndexOf(s, [sep])
    case None =>
    case Some(i) =>
      JoinSplit(s[i + 1..], sep);
      assert s[i..i + 1] == [sep];
      assert s == s[..i] + [sep] + s[i + 1..];
  }

  /** Splitting a string without separators gives that single piece. */
  lemma SplitNoSeparator(s: string, sep: char)
    requires sep !in s
    ensures Split(s, sep) == [s]
  {
    forall k | 0 <= k
      ensures OccursAt(s, [sep], k) ==> s[k] == sep
    {
      if k + 1 <= |s| {
        assert s[k..k + 1][0] == s[k];
      }
    }
  }

  /** Splitting `a + sep + b`, where `a` has no separator, yields `a` followed
      by the pieces of `b`. */
  lemma SplitAtFirst(a: string, sep: char, b: string)
    requires sep !in a
    ensures Split(a + [sep] + b, sep) == [a] + Split(b, sep)
  {
    var s := a + [sep] + b;
    assert OccursAt(s, [sep], |a|);
    forall k | 0 <= k < |a|
      ensures OccursAt(s, [sep], k) ==> a[k] == sep
    {
      assert s[k..k + 1][0] == s[k] == a[k];
    }
    assert s[..|a|] == a;
    assert s[|a| + 1..] == b;
  }
}
