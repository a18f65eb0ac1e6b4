/** The addon store: which directory entries of the repository root are
    addons, what an addon's files hold, and how a changelog grows. File
    contents are values here; reading and writing them is left to the
    caller. */
module Manager {
  import opened Options
  import opened Strings

  /** Name of the scratch directory that is never an addon. */
  const TmpDir: string := "tmp"

  /** One entry of the root directory listing; `isDirectory` is what
      `lstat` reports (a link to a directory is not a directory). */
  datatype DirEntry = DirEntry(name: string, isDirectory: bool)

  /** The `maintenance` block of `config.json`. An empty string stands for
      a missing or empty field, which the source treats as absent. */
  datatype Maintenance = Maintenance(
    githubRelease: string,
    versionRegex: string,
    releaseRegex: string,
    includePrerelease: bool)

  /** The fields of `config.json` the commands read or write. */
  datatype Config = Config(
    name: string,
    version: string,
    description: string,
    arch: seq<string>,
    maintenance: Option<Maintenance>)

  /** The `build_from_template` block of `build.json`. */
  datatype Template = Template(image: string, version: string)

  /** The fields of `build.json` the update command reads or writes:
      the template pin and per-architecture images, or the application
      release in `args.RELEASE`. */
  datatype BuildJson = BuildJson(
    template: Option<Template>,
    buildFrom: map<string, string>,
    release: Option<string>)

  /** The files of one addon directory; `None` is a file that does not
      exist. */
  datatype AddonFiles = AddonFiles(
    config: Option<Config>,
    build: Option<BuildJson>,
    dockerfile: string,
    changelog: Option<string>)

  // ---------------------------------------------------------------------
  // getAddonDirs
  // ---------------------------------------------------------------------

  predicate IsAddonDir(e: DirEntry) {
    !StartsWith(e.name, ".") && e.name != TmpDir && e.isDirectory
  }

  /** The names of the listing's entries that are addon directories, in
      listing order. */
  function GetAddonDirs(entries: seq<DirEntry>): (dirs: seq<string>)
    ensures |dirs| <= |entries|
    ensures forall n :: n in dirs ==>
      exists i :: 0 <= i < |entries| && entries[i].name == n && IsAddonDir(entries[i])
    ensures forall i :: 0 <= i < |entries| && IsAddonDir(entries[i]) ==> entries[i].name in dirs
    ensures forall n :: n in dirs ==> !StartsWith(n, ".") && n != TmpDir
    decreases |entries|
  {
    if |entries| == 0 then []
    else
      var rest := GetAddonDirs(entries[1..]);
      assert forall i :: 1 <= i < |entries| ==> entries[i] == entries[1..][i - 1];
      if IsAddonDir(entries[0]) then [entries[0].name] + rest else rest
  }

  /** The filter keeps relative order: the addons of a concatenated listing
      are the addons of the first part followed by those of the second. */
  lemma {:induction false} GetAddonDirsAppend(a: seq<DirEntry>, b: seq<DirEntry>)
    ensures GetAddonDirs(a + b) == GetAddonDirs(a) + GetAddonDirs(b)
    decreases |a|
  {
    if |a| > 0 {
      assert (a + b)[1..] == a[1..] + b;
      GetAddonDirsAppend(a[1..], b);
    } else {
      assert a + b == b;
    }
  }

  // ---------------------------------------------------------------------
  // appendChangelog
  // ---------------------------------------------------------------------

  /** The `content` argument: a single line or a list of lines. */
  datatype Content = Line(text: string) | Lines(lines: seq<string>)

  /** A single string is treated as a one-element list. */
  function ContentLines(content: Content): seq<string> {
    match content
    case Line(t) => [t]
    case Lines(ls) => ls
  }

  function Bullet(line: string): string {
    " - " + line + "\n"
  }

  /** One bullet per line, in order. */
  function Bullets(lines: seq<string>): string
    decreases |lines|
  {
    if |lines| == 0 then "" else Bullet(lines[0]) + Bullets(lines[1..])
  }

  /** Bullets distribute over concatenation of the line list, so the text
      holds exactly one bullet per line, in the order given. */
  lemma {:induction false} BulletsAppend(a: seq<string>, b: seq<string>)
    ensures Bullets(a + b) == Bullets(a) + Bullets(b)
    decreases |a|
  {
    if |a| > 0 {
      assert (a + b)[1..] == a[1..] + b;
      BulletsAppend(a[1..], b);
    } else {
      assert a + b == b;
    }
  }

  function Header(version: string): string {
    "## " + version + "\n\n"
  }

  /** One changelog section: its header and its bullets. */
  function Section(version: string, content: Content): string {
    Header(version) + Bullets(ContentLines(content))
  }

  /** The new text of `CHANGELOG.md` after `appendChangelog(addon, version,
      content)`, given the old text (`None` when the file does not exist).
      The new section comes first; a non-empty old text follows after one
      blank line, untouched. */
  function AppendChangelog(previous: Option<string>, version: string, content: Content): (r: string)
    ensures StartsWith(r, "## " + version + "\n\n")
    ensures StartsWith(r, Section(version, content))
    ensures previous.Some? && previous.value != "" ==> r == Section(version, content) + "\n" + previous.value
    ensures previous.Some? && previous.value != "" ==> EndsWith(r, "\n" + previous.value)
    ensures previous.None? || previous.value == "" ==> r == Section(version, content)
  {
    var oldText := previous.GetOr("");
    var changelog := Header(version) + Bullets(ContentLines(content));
    if oldText != "" then changelog + "\n" + oldText else changelog
  }

  /** A one-line changelog entry is the header followed by exactly one
      bullet. */
  lemma SingleLineSection(version: string, line: string)
    ensures Section(version, Line(line)) == "## " + version + "\n\n - " + line + "\n"
  {
    assert Bullets([line]) == Bullet(line) + Bullets([]);
  }

  /** One call of `appendChangelog`. */
  datatype Entry = Entry(version: string, content: Content)

  /** The changelog text after appending `entries` in order to `previous`. */
  function AppendAll(previous: Option<string>, entries: seq<Entry>): string
    decreases |entries|
  {
    if |entries| == 0 then previous.GetOr("")
    else
      var last := entries[|entries| - 1];
      AppendChangelog(Some(AppendAll(previous, entries[..|entries| - 1])), last.version, last.content)
  }

  /** The sections of `entries`, newest (last appended) first. */
  function NewestFirst(entries: seq<Entry>): (r: seq<string>)
    ensures |r| == |entries|
    ensures forall i :: 0 <= i < |r| ==>
      r[i] == Section(entries[|entries| - 1 - i].version, entries[|entries| - 1 - i].content)
    decreases |entries|
  {
    if |entries| == 0 then []
    else
      var last := entries[|entries| - 1];
      [Section(last.version, last.content)] + NewestFirst(entries[..|entries| - 1])
  }

  lemma JoinNonEmpty(parts: seq<string>, sep: string)
    requires |parts| > 0 && parts[0] != ""
    ensures Join(parts, sep) != ""
  {
    if |parts| > 1 {
      assert Join(parts, sep) == parts[0] + sep + Join(parts[1..], sep);
    }
  }

  /** Appending N entries yields N sections, newest first, separated by
      blank lines, followed by the untouched earlier text when there was
      any. */
  lemma {:induction false} AppendAllSections(previous: Option<string>, entries: seq<Entry>)
    ensures AppendAll(previous, entries) ==
      Join(NewestFirst(entries) + (if previous.GetOr("") == "" then [] else [previous.GetOr("")]), "\n")
    decreases |entries|
  {
    var tailPart: seq<string> := if previous.GetOr("") == "" then [] else [previous.GetOr("")];
    if |entries| == 0 {
      assert NewestFirst(entries) + tailPart == tailPart;
    } else {
      var last := entries[|entries| - 1];
      var init := entries[..|entries| - 1];
      var sec := Section(last.version, last.content);
      AppendAllSections(previous, init);
      var rest := NewestFirst(init) + tailPart;
      var prev := AppendAll(previous, init);
      assert prev == Join(rest, "\n");
      assert NewestFirst(entries) + tailPart == [sec] + rest;
      if |rest| == 0 {
        assert prev == "";
      } else {
        assert rest[0] != "" by {
          if |init| > 0 {
            assert rest[0] == NewestFirst(init)[0];
            assert StartsWith(rest[0], "## ");
          }
        }
        JoinNonEmpty(rest, "\n");
        assert ([sec] + rest)[1..] == rest;
      }
    }
  }
}
