/** Text helpers with the semantics of the JavaScript string operations the
    tool relies on: `startsWith`, `indexOf`, first-occurrence `replace` with
    a plain string pattern, `split` on a one-character separator, `join`,
    `substring` (with its clamping and swapping of arguments) and
    `toLowerCase`. Strings are `seq<char>`, whose elements are Unicode
    scalar values, so offsets and lengths count code points where
    JavaScript counts UTF-16 code units; the two agree on text without
    characters outside the Basic Multilingual Plane. */
module Strings {
  import opened Options

  // ---------------------------------------------------------------------
  // Occurrences of a pattern
  // ---------------------------------------------------------------------

  predicate StartsWith(s: string, prefix: string) {
    |prefix| <= |s| && s[..|prefix|] == prefix
  }

  predicate EndsWith(s: string, suffix: string) {
    |suffix| <= |s| && s[|s| - |suffix|..] == suffix
  }

  /** `pat` occurs in `s` starting at offset `i`. */
  predicate OccursAt(s: string, pat: string, i: nat) {
    i + |pat| <= |s| && s[i..i + |pat|] == pat
  }

  ghost predicate Contains(s: string, pat: string) {
    exists i: nat :: OccursAt(s, pat, i)
  }

  /** `i` is the offset of the leftmost occurrence of `pat` in `s`. */
  ghost predicate IsFirstOccurrence(s: string, pat: string, i: nat) {
    OccursAt(s, pat, i) && forall j: nat :: j < i ==> !OccursAt(s, pat, j)
  }

  /** Leftmost occurrence of `pat` in `s` at an offset of at least `from`. */
  function IndexOfFrom(s: string, pat: string, from: nat): (r: Option<nat>)
    ensures r.Some? ==> from <= r.value && OccursAt(s, pat, r.value)
    ensures r.Some? ==> forall j: nat :: from <= j < r.value ==> !OccursAt(s, pat, j)
    ensures r.None? ==> forall j: nat :: from <= j ==> !OccursAt(s, pat, j)
    decreases |s| - from
  {
    if from + |pat| > |s| then None
    else if s[from..from + |pat|] == pat then Some(from)
    else IndexOfFrom(s, pat, from + 1)
  }

  /** `s.indexOf(pat)`, with "not found" as `None`. */
  function IndexOf(s: string, pat: string): (r: Option<nat>)
    ensures r.Some? <==> Contains(s, pat)
    ensures r.Some? ==> IsFirstOccurrence(s, pat, r.value)
  {
    IndexOfFrom(s, pat, 0)
  }

  /** `s.indexOf(pat)` as JavaScript returns it: -1 when absent. */
  function JsIndexOf(s: string, pat: string): (r: int)
    ensures r == -1 <==> !Contains(s, pat)
    ensures r >= 0 ==> IsFirstOccurrence(s, pat, r)
  {
    match IndexOf(s, pat)
    case None => -1
    case Some(i) => i
  }

  lemma FirstOccurrenceUnique(s: string, pat: string, i: nat, k: nat)
    requires IsFirstOccurrence(s, pat, i) && IsFirstOccurrence(s, pat, k)
    ensures i == k
  {
  }

  /** `s.replace(pat, rep)` with a string pattern: only the leftmost
      occurrence is replaced, and `s` is returned unchanged when `pat` does
      not occur. The replacement is taken literally (no `$` patterns). */
  function ReplaceFirst(s: string, pat: string, rep: string): (r: string)
    ensures !Contains(s, pat) ==> r == s
    ensures forall i: nat :: IsFirstOccurrence(s, pat, i) ==> r == s[..i] + rep + s[i + |pat|..]
  {
    match IndexOf(s, pat)
    case None => s
    case Some(i) =>
      assert forall k: nat :: IsFirstOccurrence(s, pat, k) ==> k == i by {
        forall k: nat | IsFirstOccurrence(s, pat, k) {
          FirstOccurrenceUnique(s, pat, i, k);
        }
      }
      s[..i] + rep + s[i + |pat|..]
  }

  /** A concatenation starts with its left part and ends with its right
      part. */
  lemma ConcatEnds(a: string, b: string)
    ensures StartsWith(a + b, a) && EndsWith(a + b, b)
    ensures (a + b)[..|a|] == a && (a + b)[|a|..] == b
  {
  }

  // ---------------------------------------------------------------------
  // split / join
  // ---------------------------------------------------------------------

  /** `parts.join(sep)`: the empty list joins to "". */
  function Join(parts: seq<string>, sep: string): string
    decreases |parts|
  {
    if |parts| == 0 then ""
    else if |parts| == 1 then parts[0]
    else parts[0] + sep + Join(parts[1..], sep)
  }

  /** `s.split(c)` for a one-character separator: always at least one part,
      and "" splits into [""]. */
  function Split(s: string, c: char): (parts: seq<string>)
    ensures |parts| >= 1
    decreases |s|
  {
    if |s| == 0 then [""]
    else
      var rest := Split(s[1..], c);
      if s[0] == c then [""] + rest
      else [[s[0]] + rest[0]] + rest[1..]
  }

  /** `pre` is the text of `s` before the first `c`, or all of `s` when `c`
      does not occur. */
  predicate BeforeFirst(s: string, c: char, pre: string) {
    c !in pre && (pre == s || (|pre| < |s| && s[..|pre|] == pre && s[|pre|] == c))
  }

  /** The text before the first `c` is determined by the string. */
  lemma BeforeFirstUnique(s: string, c: char, p: string, q: string)
    requires BeforeFirst(s, c, p) && BeforeFirst(s, c, q)
    ensures p == q
  {
  }

  /** Splitting and joining back with the same separator gives the input. */
  lemma {:induction false} JoinSplit(s: string, c: char)
    ensures Join(Split(s, c), [c]) == s
    decreases |s|
  {
    if |s| > 0 {
      var rest := Split(s[1..], c);
      JoinSplit(s[1..], c);
      if s[0] == c {
        if |rest| == 1 {
          assert Join([""] + rest, [c]) == "" + [c] + rest[0];
        } else {
          assert ([""] + rest)[1..] == rest;
        }
        assert s == [s[0]] + s[1..];
      } else {
        var parts := [[s[0]] + rest[0]] + rest[1..];
        if |rest| == 1 {
          assert Join(parts, [c]) == [s[0]] + rest[0];
        } else {
          assert parts[1..] == rest[1..];
          assert Join(rest, [c]) == rest[0] + [c] + Join(rest[1..], [c]);
        }
        assert s == [s[0]] + s[1..];
      }
    }
  }

  /** Joining separator-free parts and splitting again gives the parts. */
  lemma {:induction false} SplitJoin(parts: seq<string>, c: char)
    requires |parts| >= 1
    requires forall k :: 0 <= k < |parts| ==> c !in parts[k]
    ensures Split(Join(parts, [c]), c) == parts
    decreases |parts|, |parts[0]|
  {
    if |parts[0]| == 0 {
      if |parts| == 1 {
      } else {
        var tail := Join(parts[1..], [c]);
        assert Join(parts, [c]) == [c] + tail;
        SplitJoin(parts[1..], c);
        assert ([c] + tail)[1..] == tail;
        assert parts == [""] + parts[1..];
      }
    } else {
      var p0 := parts[0];
      var shorter := [p0[1..]] + parts[1..];
      assert forall k :: 0 <= k < |shorter| ==> c !in shorter[k] by {
        forall k | 0 <= k < |shorter|
          ensures c !in shorter[k]
        {
          if k > 0 {
            assert shorter[k] == parts[k];
          } else {
            assert c !in p0;
          }
        }
      }
      SplitJoin(shorter, c);
      var j := Join(parts, [c]);
      if |parts| == 1 {
        assert j == p0;
        assert Join(shorter, [c]) == p0[1..];
      } else {
        assert shorter[1..] == parts[1..];
        assert j == p0 + [c] + Join(parts[1..], [c]);
        assert Join(shorter, [c]) == p0[1..] + [c] + Join(parts[1..], [c]);
      }
      assert j[0] == p0[0] && j[0] != c;
      assert j[1..] == Join(shorter, [c]);
      assert [p0[0]] + p0[1..] == p0;
      assert [p0] + parts[1..] == parts;
    }
  }

  /** The first part of a split is the text before the first separator. */
  lemma {:induction false} SplitHead(s: string, c: char)
    ensures BeforeFirst(s, c, Split(s, c)[0])
    decreases |s|
  {
    if |s| > 0 && s[0] != c {
      SplitHead(s[1..], c);
      var rest := Split(s[1..], c);
      var head := [s[0]] + rest[0];
      assert s == [s[0]] + s[1..];
      if rest[0] != s[1..] {
        assert s[..|head|] == [s[0]] + s[1..][..|rest[0]|];
      }
    }
  }

  /** Past the first separator, the remaining parts are the split of the
      text after it. */
  lemma {:induction false} SplitTail(s: string, c: char)
    ensures |Split(s, c)| > 1 <==> c in s
    ensures |Split(s, c)| > 1 ==>
      |Split(s, c)[0]| < |s| && Split(s, c)[1..] == Split(s[|Split(s, c)[0]| + 1..], c)
    decreases |s|
  {
    if |s| > 0 {
      SplitTail(s[1..], c);
      var rest := Split(s[1..], c);
      assert c in s <==> s[0] == c || c in s[1..] by {
        assert s == [s[0]] + s[1..];
      }
      if s[0] != c && |rest| > 1 {
        assert s[|rest[0]| + 2..] == s[1..][|rest[0]| + 1..];
      }
    }
  }

  // ---------------------------------------------------------------------
  // substring / toLowerCase
  // ---------------------------------------------------------------------

  function Clamp(x: int, n: nat): (r: nat)
    ensures r <= n
    ensures 0 <= x <= n ==> r == x
    ensures x < 0 ==> r == 0
    ensures x > n ==> r == n
  {
    if x < 0 then 0 else if x > n then n else x
  }

  /** `s.substring(a, b)`: both ends are clamped to [0, |s|] and swapped
      when the first exceeds the second. */
  function Substring(s: string, a: int, b: int): (r: string)
    ensures 0 <= a <= b <= |s| ==> r == s[a..b]
    ensures a < 0 && 0 <= b <= |s| ==> r == s[..b]
    ensures 0 <= a <= |s| && b >= |s| ==> r == s[a..]
    ensures 0 <= b <= a <= |s| ==> r == s[b..a]
    ensures Clamp(a, |s|) > Clamp(b, |s|) ==> r == s[Clamp(b, |s|)..Clamp(a, |s|)]
  {
    var x := Clamp(a, |s|);
    var y := Clamp(b, |s|);
    if x <= y then s[x..y] else s[y..x]
  }

  /** Lower-casing of one character (ASCII letters only). */
  function LowerChar(ch: char): char {
    if 'A' <= ch <= 'Z' then (ch as int + 32) as char else ch
  }

  /** `s.toLowerCase()` restricted to ASCII letters. */
  function Lower(s: string): (r: string)
    ensures |r| == |s|
    ensures forall i :: 0 <= i < |s| ==> r[i] == LowerChar(s[i])
  {
    seq(|s|, i requires 0 <= i < |s| => LowerChar(s[i]))
  }

  /** The only strings that lower-case to "y" are "y" and "Y". */
  lemma LowerIsY(s: string)
    ensures Lower(s) == "y" <==> s == "y" || s == "Y"
  {
    if Lower(s) == "y" {
      assert |s| == 1 && LowerChar(s[0]) == 'y';
      assert s == [s[0]];
    }
  }
}
