/** The `docs` command: regenerate the addon list of the repository's main
    README between two marker comments. */
module Docs {
  import opened Strings
  import opened Manager

  const StartMarker: string := "[//]: # (ADDONLIST_START)"
  const EndMarker: string := "[//]: # (ADDONLIST_END)"

  /** The offset the source adds to the start marker's position: the
      marker's length, hard-coded. */
  const StartMarkerLength: int := 25

  lemma MarkerFacts()
    ensures |StartMarker| == StartMarkerLength
    ensures |EndMarker| == 23
    ensures '\n' !in StartMarker && '\n' !in EndMarker
  {
  }

  /** The list entry for one addon: a linked heading and its description. */
  function Item(addon: string, description: string): string {
    "### [" + addon + "](" + addon + "/)\n" + description + "\n"
  }

  /** One item per addon, in the order given. */
  function AddonList(addons: seq<string>, configOf: string -> Config): (items: seq<string>)
    ensures |items| == |addons|
    ensures forall i :: 0 <= i < |addons| ==>
      items[i] == Item(addons[i], configOf(addons[i]).description)
  {
    seq(|addons|, i requires 0 <= i < |addons| => Item(addons[i], configOf(addons[i]).description))
  }

  /** The generated block that replaces the old list. */
  function Middle(items: seq<string>): string {
    "\n" + "\n" + Join(items, "\n") + "\n"
  }

  /** The text kept before the list: `substring(0, indexOf(start) + 25)`.
      With the start marker present that is the README up to the end of
      its first occurrence; without it `indexOf` gives -1, so the first 24
      characters are kept. */
  function KeptPrefix(readme: string): (prefix: string)
    ensures forall s: nat :: IsFirstOccurrence(readme, StartMarker, s) ==>
      prefix == readme[..s + StartMarkerLength]
    ensures !Contains(readme, StartMarker) ==>
      prefix == readme[..if |readme| < 24 then |readme| else 24]
  {
    MarkerFacts();
    var i := JsIndexOf(readme, StartMarker);
    assert forall s: nat :: IsFirstOccurrence(readme, StartMarker, s) ==> s == i by {
      forall s: nat | IsFirstOccurrence(readme, StartMarker, s) {
        FirstOccurrenceUnique(readme, StartMarker, s, i);
      }
    }
    Substring(readme, 0, i + StartMarkerLength)
  }

  /** The text kept after the list: `substring(indexOf(end))`, the README
      from the first end marker on, or all of it when the marker is
      missing. */
  function KeptSuffix(readme: string): (suffix: string)
    ensures forall e: nat :: IsFirstOccurrence(readme, EndMarker, e) ==> suffix == readme[e..]
    ensures !Contains(readme, EndMarker) ==> suffix == readme
  {
    var i := JsIndexOf(readme, EndMarker);
    assert forall e: nat :: IsFirstOccurrence(readme, EndMarker, e) ==> e == i by {
      forall e: nat | IsFirstOccurrence(readme, EndMarker, e) {
        FirstOccurrenceUnique(readme, EndMarker, e, i);
      }
    }
    Substring(readme, i, |readme|)
  }

  /** The README with the text between the markers replaced by the new
      list. */
  function Splice(readme: string, items: seq<string>): (r: string)
    ensures StartsWith(r, KeptPrefix(readme))
    ensures EndsWith(r, KeptSuffix(readme))
    ensures |r| == |KeptPrefix(readme)| + |Middle(items)| + |KeptSuffix(readme)|
    ensures r[|KeptPrefix(readme)|..|r| - |KeptSuffix(readme)|] == Middle(items)
  {
    ThreeParts(KeptPrefix(readme), Middle(items), KeptSuffix(readme));
    KeptPrefix(readme) + Middle(items) + KeptSuffix(readme)
  }

  lemma ThreeParts(a: string, b: string, c: string)
    ensures StartsWith(a + b + c, a) && EndsWith(a + b + c, c)
    ensures (a + b + c)[|a|..|a + b + c| - |c|] == b
  {
    assert a + b + c == a + (b + c);
    ConcatEnds(a, b + c);
    ConcatEnds(a + b, c);
    ConcatEnds(b, c);
  }

  /** When both markers are present and the start marker ends before the
      end marker begins, the list replaces exactly the text between them. */
  lemma SpliceBetweenAll(readme: string, items: seq<string>)
    ensures forall s: nat, e: nat ::
      IsFirstOccurrence(readme, StartMarker, s) && IsFirstOccurrence(readme, EndMarker, e)
      && s + StartMarkerLength <= e ==>
      Splice(readme, items) == readme[..s + StartMarkerLength] + Middle(items) + readme[e..]
  {
    forall s: nat, e: nat | IsFirstOccurrence(readme, StartMarker, s) && IsFirstOccurrence(readme, EndMarker, e)
      && s + StartMarkerLength <= e
    {
      SpliceBetween(readme, items, s, e);
    }
  }

  /** `Splice` when both markers are present and well placed. */
  lemma SpliceBetween(readme: string, items: seq<string>, s: nat, e: nat)
    requires IsFirstOccurrence(readme, StartMarker, s)
    requires IsFirstOccurrence(readme, EndMarker, e)
    requires s + StartMarkerLength <= e
    ensures Splice(readme, items) == readme[..s + StartMarkerLength] + Middle(items) + readme[e..]
  {
  }

  /** `docs`: the README after regenerating the list from the addon
      directories of the listing and each addon's description. */
  function GenerateDocs(entries: seq<DirEntry>, configOf: string -> Config, readme: string): (r: string)
    ensures forall s: nat, e: nat ::
      IsFirstOccurrence(readme, StartMarker, s) && IsFirstOccurrence(readme, EndMarker, e)
      && s + StartMarkerLength <= e ==>
      r == readme[..s + StartMarkerLength]
           + Middle(AddonList(GetAddonDirs(entries), configOf))
           + readme[e..]
  {
    SpliceBetweenAll(readme, AddonList(GetAddonDirs(entries), configOf));
    Splice(readme, AddonList(GetAddonDirs(entries), configOf))
  }

  // ---------------------------------------------------------------------
  // Idempotence
  // ---------------------------------------------------------------------

  lemma OccursInLeft(a: string, b: string, p: string, j: nat)
    requires OccursAt(a + b, p, j) && j + |p| <= |a|
    ensures OccursAt(a, p, j)
  {
    assert (a + b)[j..j + |p|] == a[j..j + |p|];
  }

  lemma OccursInRight(a: string, b: string, p: string, j: nat)
    requires OccursAt(a + b, p, j) && j >= |a|
    ensures OccursAt(b, p, j - |a|)
  {
    assert (a + b)[j..j + |p|] == b[j - |a|..j - |a| + |p|];
  }

  /** A pattern free of `c` cannot occur across a position holding `c`. */
  lemma NotAcross(t: string, p: string, c: char, j: nat, k: nat)
    requires c !in p
    requires j <= k < j + |p| && k < |t| && t[k] == c
    ensures !OccursAt(t, p, j)
  {
  }

  /** Joining with a separator the pattern does not contain creates no
      occurrence of the pattern. */
  lemma NoOccurrenceAcross(x: string, y: string, c: char, p: string)
    requires c !in p
    requires !Contains(x, p) && !Contains(y, p)
    ensures !Contains(x + [c] + y, p)
  {
    var t := x + [c] + y;
    assert t == x + ([c] + y);
    forall j: nat | OccursAt(t, p, j)
      ensures false
    {
      if j + |p| <= |x| {
        OccursInLeft(x, [c] + y, p, j);
      } else if j > |x| {
        assert t == (x + [c]) + y;
        OccursInRight(x + [c], y, p, j);
      } else {
        NotAcross(t, p, c, j, |x|);
      }
    }
  }

  lemma {:induction false} JoinFree(items: seq<string>, p: string)
    requires '\n' !in p
    requires forall i :: 0 <= i < |items| ==> !Contains(items[i], p)
    ensures |p| > 0 ==> !Contains(Join(items, "\n"), p)
    decreases |items|
  {
    if |items| > 1 && |p| > 0 {
      JoinFree(items[1..], p);
      NoOccurrenceAcross(items[0], Join(items[1..], "\n"), '\n', p);
    } else if |items| == 0 && |p| > 0 {
      assert !OccursAt("", p, 0);
    }
  }

  lemma MiddleFree(items: seq<string>, p: string)
    requires '\n' !in p && |p| > 0
    requires forall i :: 0 <= i < |items| ==> !Contains(items[i], p)
    ensures !Contains(Middle(items), p)
  {
    var j := Join(items, "\n");
    JoinFree(items, p);
    assert !Contains("", p) by {
      assert forall k: nat :: !OccursAt("", p, k);
    }
    NoOccurrenceAcross(j, "", '\n', p);
    assert j + "\n" == j + ['\n'] + "";
    NoOccurrenceAcross("", j + "\n", '\n', p);
    assert "\n" + (j + "\n") == "" + ['\n'] + (j + "\n");
    NoOccurrenceAcross("", "\n" + (j + "\n"), '\n', p);
    assert Middle(items) == "" + ['\n'] + ("\n" + (j + "\n"));
  }

  /** Text kept up to the end of a pattern's first occurrence keeps that
      first occurrence, whatever follows it. */
  lemma FirstKeptInPrefix(readme: string, p: string, s: nat, rest: string, r: string)
    requires IsFirstOccurrence(readme, p, s)
    requires r == readme[..s + |p|] + rest
    ensures IsFirstOccurrence(r, p, s)
  {
    var pre := readme[..s + |p|];
    assert r[s..s + |p|] == readme[s..s + |p|];
    forall j: nat | j < s
      ensures !OccursAt(r, p, j)
    {
      if OccursAt(r, p, j) {
        OccursInLeft(pre, rest, p, j);
        assert pre[j..j + |p|] == readme[j..j + |p|];
        assert OccursAt(readme, p, j);
      }
    }
  }

  /** No occurrence of a newline-free pattern starts before the end of a
      newline-framed block free of it, when the text before the block is a
      prefix ending before the pattern's first occurrence. */
  lemma NoOccurrenceBeforeBlockEnd(readme: string, p: string, e: nat, k: nat, mid: string, r: string, j: nat)
    requires IsFirstOccurrence(readme, p, e)
    requires k <= e && |p| > 0 && '\n' !in p
    requires |mid| > 0 && mid[0] == '\n' && mid[|mid| - 1] == '\n' && !Contains(mid, p)
    requires r == readme[..k] + mid + readme[e..]
    requires j < k + |mid|
    ensures !OccursAt(r, p, j)
  {
    var pre := readme[..k];
    var suf := readme[e..];
    var q := k + |mid|;
    if j + |p| <= k {
      assert r == pre + (mid + suf);
      assert r[j..j + |p|] == pre[j..j + |p|] == readme[j..j + |p|];
      assert !OccursAt(readme, p, j);
    } else if j < k {
      assert r[k] == mid[0];
      NotAcross(r, p, '\n', j, k);
    } else if j + |p| <= q {
      assert r == (pre + mid) + suf;
      assert r[j..j + |p|] == (pre + mid)[j..j + |p|] == mid[j - k..j - k + |p|];
      assert !OccursAt(mid, p, j - k);
    } else if j + |p| <= |r| {
      assert r[q - 1] == mid[|mid| - 1];
      NotAcross(r, p, '\n', j, q - 1);
    }
  }

  /** A block framed by newlines, free of a newline-free pattern, placed
      between a prefix of the text that ends before the pattern's first
      occurrence and the text from that occurrence on, moves the first
      occurrence to just after the block. */
  lemma FirstAfterBlock(readme: string, p: string, e: nat, k: nat, mid: string, r: string)
    requires IsFirstOccurrence(readme, p, e)
    requires k <= e && |p| > 0 && '\n' !in p
    requires |mid| > 0 && mid[0] == '\n' && mid[|mid| - 1] == '\n' && !Contains(mid, p)
    requires r == readme[..k] + mid + readme[e..]
    ensures IsFirstOccurrence(r, p, k + |mid|)
  {
    var q := k + |mid|;
    ConcatEnds(readme[..k] + mid, readme[e..]);
    assert r[q..] == readme[e..];
    assert r[q..q + |p|] == readme[e..][..|p|] == readme[e..e + |p|];
    forall j: nat | j < q
      ensures !OccursAt(r, p, j)
    {
      NoOccurrenceBeforeBlockEnd(readme, p, e, k, mid, r, j);
    }
  }

  /** Regenerating the list twice gives the same README as once, when both
      markers are present, the start marker ends before the end marker
      begins, and no item contains the end marker. */
  lemma SpliceIdempotent(readme: string, items: seq<string>, s: nat, e: nat)
    requires IsFirstOccurrence(readme, StartMarker, s)
    requires IsFirstOccurrence(readme, EndMarker, e)
    requires s + StartMarkerLength <= e
    requires forall i :: 0 <= i < |items| ==> !Contains(items[i], EndMarker)
    ensures Splice(Splice(readme, items), items) == Splice(readme, items)
  {
    var k := s + StartMarkerLength;
    var mid := Middle(items);
    var r := readme[..k] + mid + readme[e..];
    var q := k + |mid|;
    SpliceBetween(readme, items, s, e);
    SplicedMarkers(readme, items, s, e, r);
    SpliceBetween(r, items, s, q);
  }

  /** After one splice the start marker is where it was and the end marker
      right after the new list, and the text around the list is unchanged. */
  lemma SplicedMarkers(readme: string, items: seq<string>, s: nat, e: nat, r: string)
    requires IsFirstOccurrence(readme, StartMarker, s)
    requires IsFirstOccurrence(readme, EndMarker, e)
    requires s + StartMarkerLength <= e
    requires forall i :: 0 <= i < |items| ==> !Contains(items[i], EndMarker)
    requires r == readme[..s + StartMarkerLength] + Middle(items) + readme[e..]
    ensures IsFirstOccurrence(r, StartMarker, s)
    ensures IsFirstOccurrence(r, EndMarker, s + StartMarkerLength + |Middle(items)|)
    ensures r[..s + StartMarkerLength] + Middle(items) + r[s + StartMarkerLength + |Middle(items)|..] == r
  {
    MarkerFacts();
    var k := s + StartMarkerLength;
    var mid := Middle(items);
    assert r == readme[..k] + (mid + readme[e..]);
    MiddleFree(items, EndMarker);
    FirstKeptInPrefix(readme, StartMarker, s, mid + readme[e..], r);
    FirstAfterBlock(readme, EndMarker, e, k, mid, r);
    ConcatEnds(readme[..k], mid + readme[e..]);
    ConcatEnds(readme[..k] + mid, readme[e..]);
  }

}
