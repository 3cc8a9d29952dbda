/** The JavaScript string operations the core relies on: `indexOf`, `split` with a
    string separator, and lower-casing (restricted to ASCII letters). */
module Strings {

  /** True when `needle` occurs in `hay` starting at index `i`. */
  predicate OccursAt(hay: string, needle: string, i: nat) {
    i + |needle| <= |hay| && hay[i..i + |needle|] == needle
  }

  /** `hay.indexOf(needle)`: the first index at which `needle` occurs, or -1. */
  function IndexOf(hay: string, needle: string): (r: int)
    ensures -1 <= r <= |hay|
    ensures r >= 0 ==> OccursAt(hay, needle, r)
    ensures r >= 0 ==> forall j :: 0 <= j < r ==> !OccursAt(hay, needle, j)
    ensures r == -1 ==> forall j :: 0 <= j <= |hay| ==> !OccursAt(hay, needle, j)
  {
    IndexFrom(hay, needle, 0)
  }

  /** The first occurrence at or after `from`, or -1. */
  function IndexFrom(hay: string, needle: string, from: nat): (r: int)
    requires from <= |hay|
    ensures r == -1 || from <= r <= |hay|
    ensures r >= 0 ==> OccursAt(hay, needle, r)
    ensures r >= 0 ==> forall j :: from <= j < r ==> !OccursAt(hay, needle, j)
    ensures r == -1 ==> forall j :: from <= j <= |hay| ==> !OccursAt(hay, needle, j)
    decreases |hay| - from
  {
    if OccursAt(hay, needle, from) then from
    else if from == |hay| then -1
    else IndexFrom(hay, needle, from + 1)
  }

  /** `hay.indexOf(needle) >= 0`. */
  predicate Contains(hay: string, needle: string) {
    IndexOf(hay, needle) >= 0
  }

  /** An occurrence anywhere means the needle is contained. */
  lemma OccursContains(hay: string, needle: string, j: nat)
    requires OccursAt(hay, needle, j)
    ensures Contains(hay, needle)
  {
  }

  /** A text without the needle's first character does not contain the needle. */
  lemma FirstCharAbsent(hay: string, needle: string)
    requires needle != [] && needle[0] !in hay
    ensures !Contains(hay, needle)
  {
    forall j | 0 <= j <= |hay| ensures !OccursAt(hay, needle, j) {
      if j + |needle| <= |hay| {
        assert hay[j..j + |needle|][0] == hay[j] != needle[0];
      }
    }
  }

  /** The empty string occurs in every string, at index 0. */
  lemma EmptyNeedle(hay: string)
    ensures IndexOf(hay, "") == 0
  {
    assert OccursAt(hay, "", 0);
  }

  /** An occurrence inside a prefix is an occurrence in the whole string. */
  lemma OccursInPrefix(s: string, n: string, i: nat, j: nat)
    requires i <= |s| && OccursAt(s[..i], n, j)
    ensures OccursAt(s, n, j)
  {
    assert s[..i][j..j + |n|] == s[j..j + |n|];
  }

  /** A single-character needle occurs exactly when the character is in the string. */
  lemma ContainsChar(s: string, c: char)
    ensures Contains(s, [c]) <==> c in s
  {
    if c in s {
      var j :| 0 <= j < |s| && s[j] == c;
      assert OccursAt(s, [c], j);
    }
    if Contains(s, [c]) {
      var j := IndexOf(s, [c]);
      assert s[j..j + 1] == [c];
      assert s[j] == c;
    }
  }

  /** `parts.join(sep)`. */
  function Join(parts: seq<string>, sep: string): string {
    if parts == [] then ""
    else if |parts| == 1 then parts[0]
    else parts[0] + sep + Join(parts[1..], sep)
  }

  /** `s.split(sep)` for a non-empty string separator: the pieces between the
      leftmost non-overlapping occurrences of `sep`. */
  function Split(s: string, sep: string): (parts: seq<string>)
    requires sep != []
    ensures |parts| >= 1
    ensures Join(parts, sep) == s
    ensures forall k :: 0 <= k < |parts| ==> !Contains(parts[k], sep)
    decreases |s|
  {
    var i := IndexOf(s, sep);
    if i < 0 then [s]
    else
      var head, tail := s[..i], Split(s[i + |sep|..], sep);
      assert !Contains(head, sep) by {
        if Contains(head, sep) {
          OccursInPrefix(s, sep, i, IndexOf(head, sep));
        }
      }
      assert s == head + sep + s[i + |sep|..] by {
        assert s[i..i + |sep|] == sep;
      }
      [head] + tail
  }

  /** The first piece of a split is the text before the first separator; the second,
      when there is one, is the text between the first and second separators. */
  lemma SplitHead(s: string, sep: string)
    requires sep != []
    ensures var i := IndexOf(s, sep);
      && (i < 0 ==> Split(s, sep) == [s])
      && (i >= 0 ==> |Split(s, sep)| >= 2 && Split(s, sep)[0] == s[..i]
                     && Split(s, sep)[1] == Split(s[i + |sep|..], sep)[0])
  {
  }

  /** A character absent from the text is absent from every piece of its split. */
  lemma {:induction false} SplitKeepsAbsent(s: string, sep: string, c: char)
    requires sep != [] && c !in s
    ensures forall k :: 0 <= k < |Split(s, sep)| ==> c !in Split(s, sep)[k]
    decreases |s|
  {
    var i := IndexOf(s, sep);
    if i >= 0 {
      SplitKeepsAbsent(s[i + |sep|..], sep, c);
      var parts := Split(s, sep);
      assert parts[0] == s[..i];
      assert forall k :: 1 <= k < |parts| ==> parts[k] == Split(s[i + |sep|..], sep)[k - 1];
    }
  }

  /** `IndexOf` finds an occurrence with none before it. */
  lemma IndexOfIs(hay: string, needle: string, p: nat)
    requires OccursAt(hay, needle, p)
    requires forall j :: 0 <= j < p ==> !OccursAt(hay, needle, j)
    ensures IndexOf(hay, needle) == p
  {
  }

  /** The number of occurrences of `c` in `s`. */
  function CountChar(s: string, c: char): nat {
    if s == [] then 0 else (if s[0] == c then 1 else 0) + CountChar(s[1..], c)
  }

  lemma {:induction false} CountCharAppend(a: string, b: string, c: char)
    ensures CountChar(a + b, c) == CountChar(a, c) + CountChar(b, c)
    decreases |a|
  {
    if a == [] {
      assert a + b == b;
    } else {
      assert (a + b)[0] == a[0] && (a + b)[1..] == a[1..] + b;
      CountCharAppend(a[1..], b, c);
    }
  }

  lemma {:induction false} CountCharAbsent(s: string, c: char)
    requires c !in s
    ensures CountChar(s, c) == 0
    decreases |s|
  {
    if s != [] {
      CountCharAbsent(s[1..], c);
    }
  }

  /** Splitting on a one-character separator yields one more piece than there are
      occurrences of that character. */
  lemma {:induction false} SplitCharCount(s: string, c: char)
    ensures |Split(s, [c])| == CountChar(s, c) + 1
    decreases |s|
  {
    var i := IndexOf(s, [c]);
    if i < 0 {
      ContainsChar(s, c);
      CountCharAbsent(s, c);
    } else {
      var rest := s[i + 1..];
      SplitCharCount(rest, c);
      assert s[i..i + 1] == [c];
      assert s == s[..i] + [c] + rest;
      CountCharAppend(s[..i] + [c], rest, c);
      CountCharAppend(s[..i], [c], c);
      SplitHead(s, [c]);
      assert !Contains(Split(s, [c])[0], [c]);
      ContainsChar(s[..i], c);
      CountCharAbsent(s[..i], c);
    }
  }

  /** `toLowerCase` on one character, restricted to ASCII letters. */
  function LowerChar(c: char): char {
    if 'A' <= c <= 'Z' then (c as int - 'A' as int + 'a' as int) as char else c
  }

  predicate IsUpper(c: char) {
    'A' <= c <= 'Z'
  }

  /** `toLowerCase` / `toLocaleLowerCase`, restricted to ASCII letters. */
  function Lower(s: string): (r: string)
    ensures |r| == |s|
    ensures forall i :: 0 <= i < |s| ==> r[i] == LowerChar(s[i])
  {
    seq(|s|, i requires 0 <= i < |s| => LowerChar(s[i]))
  }

  /** Lower-cased text has no upper-case letter, and lower-casing it again changes nothing. */
  lemma LowerIdempotent(s: string)
    ensures forall i :: 0 <= i < |s| ==> !IsUpper(Lower(s)[i])
    ensures Lower(Lower(s)) == Lower(s)
  {
  }

  /** Lower-casing both sides keeps every occurrence: a case-insensitive match
      finds whatever a case-sensitive one finds. */
  lemma LowerKeepsOccurrence(hay: string, needle: string, j: nat)
    requires OccursAt(hay, needle, j)
    ensures OccursAt(Lower(hay), Lower(needle), j)
  {
    assert Lower(hay)[j..j + |needle|] == Lower(hay[j..j + |needle|]);
  }

  /** A contained needle is still contained once both sides are lower-cased. */
  lemma LowerKeepsContains(hay: string, needle: string)
    requires Contains(hay, needle)
    ensures Contains(Lower(hay), Lower(needle))
  {
    var j := IndexOf(hay, needle);
    LowerKeepsOccurrence(hay, needle, j);
    OccursContains(Lower(hay), Lower(needle), j);
  }
}
