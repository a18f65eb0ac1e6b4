/** The part of semantic versioning the tool uses: validating an addon's
    own `major.minor.patch` version and incrementing it by one minor or
    patch step (`semver.valid` and `semver.inc`). */
module SemVer {
  import opened Options
  import opened Strings

  datatype Version = Version(major: nat, minor: nat, patch: nat)

  /** The two increments the update command asks for. */
  datatype ReleaseType = Minor | Patch

  // ---------------------------------------------------------------------
  // Decimal numerals
  // ---------------------------------------------------------------------

  predicate IsDigit(ch: char) {
    '0' <= ch <= '9'
  }

  function DigitChar(d: nat): (ch: char)
    requires d < 10
    ensures IsDigit(ch)
  {
    (('0' as int) + d) as char
  }

  function DigitValue(ch: char): (d: nat)
    requires IsDigit(ch)
    ensures d < 10
  {
    (ch as int) - ('0' as int)
  }

  /** A numeric identifier as semantic versioning accepts it: decimal
      digits, no leading zero unless the number is 0. */
  predicate IsNumeral(s: string) {
    && |s| > 0
    && (forall i :: 0 <= i < |s| ==> IsDigit(s[i]))
    && (s[0] == '0' ==> |s| == 1)
  }

  /** Value of a string of decimal digits, most significant first. */
  function DigitsValue(s: string): nat
    requires forall i :: 0 <= i < |s| ==> IsDigit(s[i])
    decreases |s|
  {
    if |s| == 0 then 0
    else DigitsValue(s[..|s| - 1]) * 10 + DigitValue(s[|s| - 1])
  }

  /** Canonical decimal form of a number. */
  function NatToString(n: nat): string
    decreases n
  {
    if n < 10 then [DigitChar(n)]
    else NatToString(n / 10) + [DigitChar(n % 10)]
  }

  function ParseNat(s: string): Option<nat> {
    if IsNumeral(s) then Some(DigitsValue(s)) else None
  }

  /** The decimal form of a number is a numeral denoting that number. */
  lemma {:induction false} NatToStringIsNumeral(n: nat)
    ensures IsNumeral(NatToString(n))
    ensures DigitsValue(NatToString(n)) == n
    decreases n
  {
    if n >= 10 {
      NatToStringIsNumeral(n / 10);
      var s := NatToString(n);
      assert s[..|s| - 1] == NatToString(n / 10);
    }
  }

  lemma {:induction false} LeadingDigitBound(s: string)
    requires |s| > 0
    requires forall i :: 0 <= i < |s| ==> IsDigit(s[i])
    ensures DigitsValue(s) >= DigitValue(s[0])
    decreases |s|
  {
    if |s| > 1 {
      LeadingDigitBound(s[..|s| - 1]);
    }
  }

  /** Every numeral is the decimal form of its value. */
  lemma {:induction false} NumeralIsCanonical(s: string)
    requires IsNumeral(s)
    ensures NatToString(DigitsValue(s)) == s
    decreases |s|
  {
    if |s| > 1 {
      var init := s[..|s| - 1];
      assert IsNumeral(init);
      LeadingDigitBound(init);
      NumeralIsCanonical(init);
      assert s == init + [s[|s| - 1]];
    }
  }

  /** Parsing the decimal form gives the number back, and a numeral parses
      to the number whose decimal form it is. */
  lemma ParseNatRoundTrip(n: nat, s: string)
    ensures ParseNat(NatToString(n)) == Some(n)
    ensures ParseNat(s) == Some(n) ==> NatToString(n) == s
  {
    NatToStringIsNumeral(n);
    if ParseNat(s) == Some(n) {
      NumeralIsCanonical(s);
    }
  }

  // ---------------------------------------------------------------------
  // Versions
  // ---------------------------------------------------------------------

  function Format(v: Version): string {
    NatToString(v.major) + "." + NatToString(v.minor) + "." + NatToString(v.patch)
  }

  /** `semver.valid` on a plain `major.minor.patch` string. */
  function Parse(s: string): Option<Version> {
    var parts := Split(s, '.');
    if |parts| != 3 then None
    else match (ParseNat(parts[0]), ParseNat(parts[1]), ParseNat(parts[2]))
      case (Some(a), Some(b), Some(c)) => Some(Version(a, b, c))
      case _ => None
  }

  lemma NoDotInNumeral(n: nat)
    ensures '.' !in NatToString(n)
  {
    NatToStringIsNumeral(n);
  }

  /** Formatting then parsing a version gives it back. */
  lemma ParseFormat(v: Version)
    ensures Parse(Format(v)) == Some(v)
  {
    var a, b, c := NatToString(v.major), NatToString(v.minor), NatToString(v.patch);
    NoDotInNumeral(v.major);
    NoDotInNumeral(v.minor);
    NoDotInNumeral(v.patch);
    assert [a, b, c][1..] == [b, c] && [b, c][1..] == [c];
    assert Join([b, c], ".") == b + "." + c;
    assert Join([a, b, c], ".") == Format(v);
    SplitJoin([a, b, c], '.');
    ParseNatRoundTrip(v.major, a);
    ParseNatRoundTrip(v.minor, b);
    ParseNatRoundTrip(v.patch, c);
  }

  /** A string that parses is exactly the formatting of its version: valid
      versions have one spelling. */
  lemma FormatParse(s: string, v: Version)
    requires Parse(s) == Some(v)
    ensures Format(v) == s
  {
    var parts := Split(s, '.');
    JoinSplit(s, '.');
    ParseNatRoundTrip(v.major, parts[0]);
    ParseNatRoundTrip(v.minor, parts[1]);
    ParseNatRoundTrip(v.patch, parts[2]);
    assert parts[1..][1..] == parts[2..] && |parts[2..]| == 1;
    assert Join(parts[1..], ".") == parts[1] + "." + parts[2];
    assert Join(parts, ".") == parts[0] + "." + (parts[1] + "." + parts[2]);
  }

  /** `semver.inc(v, kind)` on a version without prerelease or build
      metadata. A patch step gives the very next version; a minor step
      gives the first version above `v` that leaves its MAJOR.MINOR line. */
  function Inc(v: Version, kind: ReleaseType): (w: Version)
    ensures Precedes(v, w)
    ensures kind == Patch ==> forall u :: Precedes(v, u) ==> !Precedes(u, w)
    ensures kind == Minor ==> !(w.major == v.major && w.minor == v.minor)
    ensures kind == Minor ==> forall u :: Precedes(v, u) && Precedes(u, w) ==>
      u.major == v.major && u.minor == v.minor
  {
    match kind
    case Minor => Version(v.major, v.minor + 1, 0)
    case Patch => Version(v.major, v.minor, v.patch + 1)
  }

  /** Semantic-versioning precedence on plain versions. */
  predicate Precedes(v: Version, w: Version) {
    || v.major < w.major
    || (v.major == w.major && v.minor < w.minor)
    || (v.major == w.major && v.minor == w.minor && v.patch < w.patch)
  }

  /** The increment laws: a patch step increments the patch number and
      keeps the rest; a minor step increments the minor number and resets
      the patch number; the major number is never touched; either way the
      result has strictly higher precedence. */
  lemma IncLaws(v: Version, kind: ReleaseType)
    ensures Inc(v, kind).major == v.major
    ensures kind == Patch ==> Inc(v, kind).minor == v.minor && Inc(v, kind).patch == v.patch + 1
    ensures kind == Minor ==> Inc(v, kind).minor == v.minor + 1 && Inc(v, kind).patch == 0
    ensures Precedes(v, Inc(v, kind))
  {
  }

  /** Incrementing a version string: `None` when the string is not a valid
      version (the source skips such addons before getting here). */
  function IncString(s: string, kind: ReleaseType): (r: Option<string>)
    ensures r.None? <==> Parse(s).None?
    ensures r.Some? ==> Parse(r.value) == Some(Inc(Parse(s).value, kind))
    ensures r.Some? ==> Precedes(Parse(s).value, Parse(r.value).value)
  {
    match Parse(s)
    case None => None
    case Some(v) =>
      ParseFormat(Inc(v, kind));
      Some(Format(Inc(v, kind)))
  }

  /** The three-part version strings from the update scenarios. */
  lemma BumpExamples()
    ensures IncString("1.2.3", Patch) == Some("1.2.4")
    ensures IncString("1.2.3", Minor) == Some("1.3.0")
  {
    var v := Version(1, 2, 3);
    assert Format(v) == "1.2.3";
    ParseFormat(v);
    assert Format(Version(1, 2, 4)) == "1.2.4";
    assert Format(Version(1, 3, 0)) == "1.3.0";
  }
}
