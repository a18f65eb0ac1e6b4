/** The per-addon body of the `update` command: find the pinned tag, rewrite
    and compare it with the latest upstream release tag, classify the
    change, and compute the addon's files after the update. The upstream
    tag is an input (fetching it is network I/O), and the regular
    expression engine is a parameter: any function from a pattern and a
    subject to the text of capture group 1. */
module Reconcile {
  import opened Options
  import opened Strings
  import opened SemVer
  import opened Manager

  /** A regular expression engine: `extract(pattern, subject)` is the text
      of capture group 1 when `pattern` matches `subject` and has a first
      group, `None` otherwise. */
  type Extractor = (string, string) -> Option<string>

  /** Group 1 of an optional pattern; an empty pattern is an absent one. */
  function Group1(extract: Extractor, pattern: string, subject: string): Option<string> {
    if pattern == "" then None else extract(pattern, subject)
  }

  /** The application version inside a tag: group 1 of `version_regex`,
      or "" when there is no pattern or no match. */
  function AppVersion(extract: Extractor, versionRegex: string, tag: string): (r: string)
    ensures versionRegex == "" ==> r == ""
    ensures versionRegex != "" && extract(versionRegex, tag).None? ==> r == ""
    ensures versionRegex != "" && extract(versionRegex, tag).Some? ==> r == extract(versionRegex, tag).value
  {
    Group1(extract, versionRegex, tag).GetOr("")
  }

  /** The upstream tag as it is compared and written: replaced by group 1
      of `release_regex` when that matches, the raw tag otherwise. */
  function RewriteTag(extract: Extractor, releaseRegex: string, tagName: string): (r: string)
    ensures releaseRegex == "" ==> r == tagName
    ensures releaseRegex != "" && extract(releaseRegex, tagName).None? ==> r == tagName
    ensures releaseRegex != "" && extract(releaseRegex, tagName).Some? ==> r == extract(releaseRegex, tagName).value
  {
    Group1(extract, releaseRegex, tagName).GetOr(tagName)
  }

  // ---------------------------------------------------------------------
  // Pins
  // ---------------------------------------------------------------------

  /** Where an addon's upstream version is pinned: the `FROM` line of its
      Dockerfile, the `build_from_template` of its `build.json`, or the
      application release in `build.json`'s `args.RELEASE`. */
  datatype Pin =
    | ImagePin(image: string, tag: string)
    | TemplatePin(image: string, tag: string)
    | ReleasePin(tag: string)

  /** The first line of a file: the text before the first newline. */
  function FirstLine(text: string): (line: string)
    ensures BeforeFirst(text, '\n', line)
  {
    SplitHead(text, '\n');
    Split(text, '\n')[0]
  }

  /** The image and tag of a `FROM <image>:<tag>` line: split at ':', the
      first part with its first "FROM " removed is the image and the
      second part is the tag. A line without ':' has no tag. */
  function ParseImageLine(line: string): (pin: Option<Pin>)
    ensures pin.Some? <==> ':' in line
    ensures pin.Some? ==> pin.value.ImagePin?
    ensures pin.Some? ==>
      exists head :: (
        && BeforeFirst(line, ':', head) && |head| < |line|
        && pin.value.image == ReplaceFirst(head, "FROM ", "")
        && BeforeFirst(line[|head| + 1..], ':', pin.value.tag))
  {
    var parts := Split(line, ':');
    SplitHead(line, ':');
    SplitTail(line, ':');
    if |parts| < 2 then None
    else
      SplitHead(line[|parts[0]| + 1..], ':');
      Some(ImagePin(ReplaceFirst(parts[0], "FROM ", ""), parts[1]))
  }

  /** The pin of an addon: the Dockerfile's first line when there is no
      `build.json`, else the template when there is one, else the
      application release. `None` when the pinned tag is missing. */
  function PinOf(build: Option<BuildJson>, dockerfile: string): (pin: Option<Pin>)
    ensures build.None? ==> pin == ParseImageLine(FirstLine(dockerfile))
    ensures build.Some? && build.value.template.Some? ==>
      pin == Some(TemplatePin(build.value.template.value.image, build.value.template.value.version))
    ensures build.Some? && build.value.template.None? ==>
      (pin.Some? <==> build.value.release.Some?)
      && (pin.Some? ==> pin.value == ReleasePin(build.value.release.value))
  {
    match build
    case None => ParseImageLine(FirstLine(dockerfile))
    case Some(b) =>
      match b.template
      case Some(t) => Some(TemplatePin(t.image, t.version))
      case None =>
        match b.release
        case Some(r) => Some(ReleasePin(r))
        case None => None
  }

  // ---------------------------------------------------------------------
  // Decision
  // ---------------------------------------------------------------------

  datatype Decision = UpToDate | PatchIgnored | Apply(minor: bool)

  /** A minor upgrade: both application versions were found and differ. */
  predicate IsMinor(appVersion: string, newAppVersion: string) {
    appVersion != "" && newAppVersion != "" && appVersion != newAppVersion
  }

  /** The update decision. Identical tags are up to date whatever the
      tokens say; a minor upgrade always goes ahead; any other change goes
      ahead, as a patch, only when patches are allowed. */
  function Decide(tag: string, newTag: string, appVersion: string, newAppVersion: string, patch: bool)
    : (d: Decision)
    ensures d == UpToDate <==> tag == newTag
    ensures tag != newTag && IsMinor(appVersion, newAppVersion) ==> d == Apply(true)
    ensures tag != newTag && !IsMinor(appVersion, newAppVersion) ==>
      (d == Apply(false) <==> patch) && (d == PatchIgnored <==> !patch)
  {
    if tag == newTag then UpToDate
    else
      var minor := IsMinor(appVersion, newAppVersion);
      if !patch && !minor then PatchIgnored else Apply(minor)
  }

  // ---------------------------------------------------------------------
  // Mutation
  // ---------------------------------------------------------------------

  /** `build.json` after a template-pin update: the template version is
      the new tag and in every architecture's image the first occurrence
      of the old tag is replaced. */
  function ApplyTemplate(b: BuildJson, tag: string, newTag: string): (r: BuildJson)
    ensures r.release == b.release
    ensures b.template.Some? ==> r.template == Some(b.template.value.(version := newTag))
    ensures r.buildFrom.Keys == b.buildFrom.Keys
    ensures forall arch :: arch in b.buildFrom ==> r.buildFrom[arch] == ReplaceFirst(b.buildFrom[arch], tag, newTag)
  {
    var template := match b.template
      case Some(t) => Some(t.(version := newTag))
      case None => None;
    b.(template := template,
       buildFrom := map arch | arch in b.buildFrom :: ReplaceFirst(b.buildFrom[arch], tag, newTag))
  }

  /** The addon's files after the pinned tag is moved to `newTag`: only the
      file holding the pin changes, and the configuration and changelog are
      left to the caller. */
  function ApplyPin(files: AddonFiles, pin: Pin, newTag: string): (r: AddonFiles)
    ensures r.config == files.config && r.changelog == files.changelog
    ensures pin.ImagePin? ==> r.build == files.build
    ensures pin.ImagePin? ==>
      forall i: nat :: IsFirstOccurrence(files.dockerfile, pin.image + ":" + pin.tag, i) ==>
        r.dockerfile == files.dockerfile[..i] + (pin.image + ":" + newTag)
                        + files.dockerfile[i + |pin.image + ":" + pin.tag|..]
    ensures pin.ImagePin? && !Contains(files.dockerfile, pin.image + ":" + pin.tag) ==> r == files
    ensures !pin.ImagePin? ==> r.dockerfile == files.dockerfile
    ensures !pin.ImagePin? && files.build.None? ==> r == files
    ensures pin.TemplatePin? && files.build.Some? ==>
      r.build.Some? && r.build.value.release == files.build.value.release
      && r.build.value.buildFrom.Keys == files.build.value.buildFrom.Keys
      && (files.build.value.template.Some? ==>
            r.build.value.template == Some(files.build.value.template.value.(version := newTag)))
    ensures pin.TemplatePin? && files.build.Some? ==>
      r.build == Some(ApplyTemplate(files.build.value, pin.tag, newTag))
    ensures pin.ReleasePin? && files.build.Some? ==>
      r.build == Some(files.build.value.(release := Some(newTag)))
  {
    match pin
    case ImagePin(image, tag) =>
      files.(dockerfile := ReplaceFirst(files.dockerfile, image + ":" + tag, image + ":" + newTag))
    case TemplatePin(_, tag) =>
      (match files.build
       case Some(b) => files.(build := Some(ApplyTemplate(b, tag, newTag)))
       case None => files)
    case ReleasePin(_) =>
      match files.build
      case Some(b) => files.(build := Some(b.(release := Some(newTag))))
      case None => files
  }

  /** The changelog line and commit message of an update. It names the
      new tag; an application release or a minor upgrade also names the
      addon and its new application version, and an image pin names the
      image. */
  function Message(pin: Pin, minor: bool, name: string, newAppVersion: string, newTag: string): (msg: string)
    ensures StartsWith(msg, "Update ")
    ensures pin.ReleasePin? || minor ==>
      StartsWith(msg, "Update " + name + " to " + newAppVersion + " (") && EndsWith(msg, newTag + ")")
    ensures !pin.ReleasePin? ==> EndsWith(msg, pin.image + ":" + newTag + (if minor then ")" else ""))
    ensures !pin.ReleasePin? && !minor ==> StartsWith(msg, "Update base image to ")
  {
    var named := "Update " + name + " to " + newAppVersion + " (";
    ConcatEnds("Update ", name + " to " + newAppVersion + " (");
    if pin.ReleasePin? then
      ConcatEnds(named, newTag + ")");
      named + (newTag + ")")
    else if minor then
      ConcatEnds(named, pin.image + ":" + newTag + ")");
      named + (pin.image + ":" + newTag + ")")
    else
      ConcatEnds("Update base image to ", pin.image + ":" + newTag);
      ConcatEnds("Update ", "base image to ");
      "Update base image to " + (pin.image + ":" + newTag)
  }

  // ---------------------------------------------------------------------
  // One addon
  // ---------------------------------------------------------------------

  /** Everything read from an addon that gets as far as the comparison. */
  datatype Analysis = Analysis(
    config: Config,
    version: Version,
    maintenance: Maintenance,
    pin: Pin,
    appVersion: string,
    newTag: string,
    newAppVersion: string)

  datatype SkipReason = NoConfig | UnsupportedVersion | NoMaintenance | MissingTag

  /** Reads the addon's configuration and pin, or says why it is skipped;
      the checks come in the source's order. */
  function Analyze(files: AddonFiles, tagName: string, extract: Extractor): (r: Result)
    ensures r.Failure? <==>
      || files.config.None?
      || Parse(files.config.value.version).None?
      || files.config.value.maintenance.None?
      || files.config.value.maintenance.value.githubRelease == ""
      || PinOf(files.build, files.dockerfile).None?
    ensures r.Failure? && files.config.None? ==> r.reason == NoConfig
    ensures files.config.Some? && Parse(files.config.value.version).None? ==>
      r == Failure(UnsupportedVersion)
    ensures (&& files.config.Some? && Parse(files.config.value.version).Some?
             && (files.config.value.maintenance.None? || files.config.value.maintenance.value.githubRelease == ""))
      ==> r == Failure(NoMaintenance)
    ensures (&& files.config.Some? && Parse(files.config.value.version).Some?
             && files.config.value.maintenance.Some? && files.config.value.maintenance.value.githubRelease != ""
             && PinOf(files.build, files.dockerfile).None?)
      ==> r == Failure(MissingTag)
    ensures r.Success? ==>
      var a := r.analysis;
      && files.config == Some(a.config)
      && Parse(a.config.version) == Some(a.version)
      && a.config.maintenance == Some(a.maintenance)
      && PinOf(files.build, files.dockerfile) == Some(a.pin)
      && a.appVersion == AppVersion(extract, a.maintenance.versionRegex, a.pin.tag)
      && a.newTag == RewriteTag(extract, a.maintenance.releaseRegex, tagName)
      && a.newAppVersion == AppVersion(extract, a.maintenance.versionRegex, a.newTag)
  {
    match files.config
    case None => Failure(NoConfig)
    case Some(config) =>
      match Parse(config.version)
      case None => Failure(UnsupportedVersion)
      case Some(v) =>
        if config.maintenance.None? || config.maintenance.value.githubRelease == "" then
          Failure(NoMaintenance)
        else
          var m := config.maintenance.value;
          match PinOf(files.build, files.dockerfile)
          case None => Failure(MissingTag)
          case Some(pin) =>
            var newTag := RewriteTag(extract, m.releaseRegex, tagName);
            Success(Analysis(
              config, v, m, pin,
              AppVersion(extract, m.versionRegex, pin.tag),
              newTag,
              AppVersion(extract, m.versionRegex, newTag)))
  }

  datatype Result = Success(analysis: Analysis) | Failure(reason: SkipReason)

  datatype Outcome =
    | Skipped(reason: SkipReason)
    | NotChanged(decision: Decision)
    | Updated(newVersion: string, message: string)

  datatype Reconciled = Reconciled(files: AddonFiles, outcome: Outcome)

  function ReleaseKind(minor: bool): ReleaseType {
    if minor then Minor else Patch
  }

  /** One addon of the update loop: the files as they are written back and
      what happened. Nothing is written unless the addon is updated; an
      update moves the pin, bumps the version by the decision's kind and
      prepends a one-line changelog section carrying the message. */
  function ReconcileAddon(files: AddonFiles, tagName: string, patch: bool, extract: Extractor)
    : (r: Reconciled)
    ensures !r.outcome.Updated? ==> r.files == files
    ensures r.outcome.Skipped? <==> Analyze(files, tagName, extract).Failure?
    ensures r.outcome.Skipped? ==> r.outcome.reason == Analyze(files, tagName, extract).reason
    ensures Analyze(files, tagName, extract).Success? ==>
      var a := Analyze(files, tagName, extract).analysis;
      var minor := IsMinor(a.appVersion, a.newAppVersion);
      && (r.outcome == NotChanged(UpToDate) <==> a.pin.tag == a.newTag)
      && (r.outcome == NotChanged(PatchIgnored) <==> a.pin.tag != a.newTag && !patch && !minor)
      && (r.outcome.Updated? <==> a.pin.tag != a.newTag && (patch || minor))
      && (r.outcome.Updated? ==>
            var newVersion := Format(Inc(a.version, ReleaseKind(minor)));
            && r.outcome.newVersion == newVersion
            && r.outcome.message == Message(a.pin, minor, a.config.name, a.newAppVersion, a.newTag)
            && r.files.config == Some(a.config.(version := newVersion))
            && r.files.changelog == Some(AppendChangelog(files.changelog, newVersion, Line(r.outcome.message)))
            && r.files.dockerfile == ApplyPin(files, a.pin, a.newTag).dockerfile
            && r.files.build == ApplyPin(files, a.pin, a.newTag).build)
  {
    match Analyze(files, tagName, extract)
    case Failure(reason) => Reconciled(files, Skipped(reason))
    case Success(a) =>
      match Decide(a.pin.tag, a.newTag, a.appVersion, a.newAppVersion, patch)
      case Apply(minor) =>
        var newVersion := Format(Inc(a.version, ReleaseKind(minor)));
        var msg := Message(a.pin, minor, a.config.name, a.newAppVersion, a.newTag);
        var moved := ApplyPin(files, a.pin, a.newTag);
        Reconciled(
          moved.(config := Some(a.config.(version := newVersion)),
                 changelog := Some(AppendChangelog(files.changelog, newVersion, Line(msg)))),
          Updated(newVersion, msg))
      case d => Reconciled(files, NotChanged(d))
  }
}

/** Properties of the update of one addon, per pin kind. */
module ReconcileFacts {
  import opened Options
  import opened Strings
  import opened SemVer
  import opened Manager
  import opened Reconcile

  /** The text before the first ':' of a line starting with "FROM " also
      starts with "FROM ", which has no ':'. */
  lemma HeadKeepsFrom(line: string, head: string)
    requires StartsWith(line, "FROM ") && BeforeFirst(line, ':', head)
    ensures StartsWith(head, "FROM ")
  {
    assert forall i :: 0 <= i < 5 ==> line[i] == "FROM "[i] != ':';
    assert |head| >= 5;
    assert head[..5] == line[..5];
  }

  /** Removing the first "FROM " of a text that starts with it drops the
      first five characters. */
  lemma StripFrom(head: string)
    requires StartsWith(head, "FROM ")
    ensures ReplaceFirst(head, "FROM ", "") == head[5..]
  {
    assert IsFirstOccurrence(head, "FROM ", 0);
  }

  lemma SliceConcat(s: string, a: nat, b: nat, c: nat)
    requires a <= b <= c <= |s|
    ensures s[a..c] == s[a..b] + s[b..c]
  {
  }

  lemma ReferenceSlices(line: string, h: nat, image: string, tag: string)
    requires 5 <= h && h + 1 + |tag| <= |line|
    requires line[5..h] == image && line[h] == ':' && line[h + 1..h + 1 + |tag|] == tag
    ensures OccursAt(line, image + ":" + tag, 5)
  {
    SliceConcat(line, 5, h, h + 1);
    SliceConcat(line, 5, h + 1, h + 1 + |tag|);
    assert line[h..h + 1] == ":";
  }

  /** In a line `FROM <image>:<tag>...` the pinned reference starts right
      after "FROM ". */
  lemma PinnedReferenceInLine(line: string, image: string, tag: string)
    requires ParseImageLine(line) == Some(ImagePin(image, tag))
    requires StartsWith(line, "FROM ")
    ensures OccursAt(line, image + ":" + tag, 5)
  {
    var head :| BeforeFirst(line, ':', head) && |head| < |line|
      && image == ReplaceFirst(head, "FROM ", "")
      && BeforeFirst(line[|head| + 1..], ':', tag);
    ReferenceAfterHead(line, head, image, tag);
  }

  lemma ReferenceAfterHead(line: string, head: string, image: string, tag: string)
    requires BeforeFirst(line, ':', head) && |head| < |line|
    requires image == ReplaceFirst(head, "FROM ", "")
    requires BeforeFirst(line[|head| + 1..], ':', tag)
    requires StartsWith(line, "FROM ")
    ensures OccursAt(line, image + ":" + tag, 5)
  {
    HeadKeepsFrom(line, head);
    StripFrom(head);
    var h := |head|;
    assert line[5..h] == image by {
      assert line[..h] == head;
    }
    var after := line[h + 1..];
    assert after[..|tag|] == tag;
    assert line[h + 1..h + 1 + |tag|] == after[..|tag|];
    ReferenceSlices(line, h, image, tag);
  }

  lemma FirstOccurrenceAtMost(text: string, pat: string, k: nat)
    requires OccursAt(text, pat, k)
    ensures Contains(text, pat) && 0 <= JsIndexOf(text, pat) <= k
  {
  }

  /** Replacing a slice that ends before offset `n` keeps the text from `n`
      on. */
  lemma SpliceKeepsTail(text: string, i: nat, len: nat, rep: string, n: nat)
    requires i + len <= n <= |text|
    ensures EndsWith(text[..i] + rep + text[i + len..], text[n..])
  {
    SliceConcat(text, i + len, n, |text|);
    assert text[..i] + rep + text[i + len..] == (text[..i] + rep + text[i + len..n]) + text[n..];
  }

  /** A pattern occurring within the first line is first found there, so
      replacing it leaves everything from the first newline on intact. */
  lemma ReplaceWithinFirstLine(text: string, line: string, pat: string, rep: string, k: nat)
    requires BeforeFirst(text, '\n', line)
    requires OccursAt(line, pat, k)
    ensures Contains(text, pat)
    ensures EndsWith(ReplaceFirst(text, pat, rep), text[|line|..])
  {
    OccursInPrefix(text, line, pat, k);
    FirstOccurrenceAtMost(text, pat, k);
    var i: nat := JsIndexOf(text, pat);
    ReplaceAtFirst(text, pat, rep, i);
    SpliceKeepsTail(text, i, |pat|, rep, |line|);
  }

  lemma ReplaceAtFirst(text: string, pat: string, rep: string, i: nat)
    requires IsFirstOccurrence(text, pat, i)
    ensures ReplaceFirst(text, pat, rep) == text[..i] + rep + text[i + |pat|..]
  {
  }

  lemma OccursInPrefix(text: string, line: string, pat: string, k: nat)
    requires |line| <= |text| && text[..|line|] == line
    requires OccursAt(line, pat, k)
    ensures OccursAt(text, pat, k)
  {
    assert text[k..k + |pat|] == line[k..k + |pat|];
  }

  /** When the Dockerfile's first line is `FROM <image>:<tag>...`, the
      pinned reference occurs inside that line, so the update rewrites the
      first line and leaves every later line as it was. */
  lemma ImagePinRewritesFirstLineOnly(dockerfile: string, image: string, tag: string, newTag: string)
    requires ParseImageLine(FirstLine(dockerfile)) == Some(ImagePin(image, tag))
    requires StartsWith(FirstLine(dockerfile), "FROM ")
    ensures Contains(dockerfile, image + ":" + tag)
    ensures var line := FirstLine(dockerfile);
      EndsWith(ReplaceFirst(dockerfile, image + ":" + tag, image + ":" + newTag), dockerfile[|line|..])
  {
    PinnedReferenceInLine(FirstLine(dockerfile), image, tag);
    ReplaceWithinFirstLine(dockerfile, FirstLine(dockerfile), image + ":" + tag, image + ":" + newTag, 5);
  }

  /** A template-pin update sets the template version to the new tag,
      replaces the old tag in every architecture's image, keeps the set of
      architectures and the application release, and leaves the
      Dockerfile alone. */
  lemma TemplatePinUpdate(files: AddonFiles, tagName: string, patch: bool, extract: Extractor)
    requires Analyze(files, tagName, extract).Success?
    requires Analyze(files, tagName, extract).analysis.pin.TemplatePin?
    requires ReconcileAddon(files, tagName, patch, extract).outcome.Updated?
    ensures var a := Analyze(files, tagName, extract).analysis;
      var b := files.build.value;
      var r := ReconcileAddon(files, tagName, patch, extract).files;
      && r.dockerfile == files.dockerfile
      && r.build.Some?
      && r.build.value.template == Some(b.template.value.(version := a.newTag))
      && r.build.value.release == b.release
      && r.build.value.buildFrom.Keys == b.buildFrom.Keys
      && forall arch :: arch in b.buildFrom ==>
           r.build.value.buildFrom[arch] == ReplaceFirst(b.buildFrom[arch], a.pin.tag, a.newTag)
  {
  }

  /** An application-release update changes `args.RELEASE` to the new tag
      and nothing else in `build.json`, and leaves the Dockerfile alone. */
  lemma ReleasePinUpdate(files: AddonFiles, tagName: string, patch: bool, extract: Extractor)
    requires Analyze(files, tagName, extract).Success?
    requires Analyze(files, tagName, extract).analysis.pin.ReleasePin?
    requires ReconcileAddon(files, tagName, patch, extract).outcome.Updated?
    ensures var a := Analyze(files, tagName, extract).analysis;
      var r := ReconcileAddon(files, tagName, patch, extract).files;
      && r.dockerfile == files.dockerfile
      && r.build == Some(files.build.value.(release := Some(a.newTag)))
  {
  }

  /** An image-pin update rewrites the first occurrence of `image:tag` in
      the Dockerfile and nothing else; there is no `build.json`. */
  lemma ImagePinUpdate(files: AddonFiles, tagName: string, patch: bool, extract: Extractor)
    requires Analyze(files, tagName, extract).Success?
    requires Analyze(files, tagName, extract).analysis.pin.ImagePin?
    requires ReconcileAddon(files, tagName, patch, extract).outcome.Updated?
    ensures var a := Analyze(files, tagName, extract).analysis;
      var r := ReconcileAddon(files, tagName, patch, extract).files;
      var pat := a.pin.image + ":" + a.pin.tag;
      var rep := a.pin.image + ":" + a.newTag;
      && r.build == files.build == None
      && (!Contains(files.dockerfile, pat) ==> r.dockerfile == files.dockerfile)
      && forall i: nat :: IsFirstOccurrence(files.dockerfile, pat, i) ==>
           r.dockerfile == files.dockerfile[..i] + rep + files.dockerfile[i + |pat|..]
  {
    var a := Analyze(files, tagName, extract).analysis;
    var r := ReconcileAddon(files, tagName, patch, extract).files;
    assert files.build.None?;
    assert r.build == ApplyPin(files, a.pin, a.newTag).build == None;
    assert r.dockerfile == ReplaceFirst(files.dockerfile, a.pin.image + ":" + a.pin.tag, a.pin.image + ":" + a.newTag);
  }

  /** The message has one of three forms, chosen by the pin kind and
      whether the upgrade is minor, and it is the single bullet of the new
      changelog section. */
  lemma UpdateMessage(files: AddonFiles, tagName: string, patch: bool, extract: Extractor)
    requires Analyze(files, tagName, extract).Success?
    requires ReconcileAddon(files, tagName, patch, extract).outcome.Updated?
    ensures var a := Analyze(files, tagName, extract).analysis;
      var r := ReconcileAddon(files, tagName, patch, extract);
      var msg := r.outcome.message;
      var minor := IsMinor(a.appVersion, a.newAppVersion);
      && (a.pin.ReleasePin? ==>
            msg == "Update " + a.config.name + " to " + a.newAppVersion + " (" + a.newTag + ")")
      && (!a.pin.ReleasePin? && minor ==>
            msg == "Update " + a.config.name + " to " + a.newAppVersion + " (" + a.pin.image + ":" + a.newTag + ")")
      && (!a.pin.ReleasePin? && !minor ==>
            msg == "Update base image to " + a.pin.image + ":" + a.newTag)
      && StartsWith(r.files.changelog.value, "## " + r.outcome.newVersion + "\n\n - " + msg + "\n")
  {
    var a := Analyze(files, tagName, extract).analysis;
    var r := ReconcileAddon(files, tagName, patch, extract);
    MessageForms(a.pin, IsMinor(a.appVersion, a.newAppVersion), a.config.name, a.newAppVersion, a.newTag);
    SingleLineSection(r.outcome.newVersion, r.outcome.message);
  }

  /** The three forms of the message, spelled out. */
  lemma MessageForms(pin: Pin, minor: bool, name: string, newAppVersion: string, newTag: string)
    ensures var msg := Message(pin, minor, name, newAppVersion, newTag);
      && (pin.ReleasePin? ==> msg == "Update " + name + " to " + newAppVersion + " (" + newTag + ")")
      && (!pin.ReleasePin? && minor ==>
            msg == "Update " + name + " to " + newAppVersion + " (" + pin.image + ":" + newTag + ")")
      && (!pin.ReleasePin? && !minor ==> msg == "Update base image to " + pin.image + ":" + newTag)
  {
  }

  /** The version bump: a minor upgrade gives X.(Y+1).0, anything else
      X.Y.(Z+1), and the new version is what `config.json` holds. */
  lemma UpdateBumpsVersion(files: AddonFiles, tagName: string, patch: bool, extract: Extractor)
    requires Analyze(files, tagName, extract).Success?
    requires ReconcileAddon(files, tagName, patch, extract).outcome.Updated?
    ensures var a := Analyze(files, tagName, extract).analysis;
      var r := ReconcileAddon(files, tagName, patch, extract);
      var v := a.version;
      && r.files.config.Some?
      && r.files.config.value.version == r.outcome.newVersion
      && (IsMinor(a.appVersion, a.newAppVersion) ==>
            Parse(r.outcome.newVersion) == Some(Version(v.major, v.minor + 1, 0)))
      && (!IsMinor(a.appVersion, a.newAppVersion) ==>
            Parse(r.outcome.newVersion) == Some(Version(v.major, v.minor, v.patch + 1)))
  {
    var a := Analyze(files, tagName, extract).analysis;
    var r := ReconcileAddon(files, tagName, patch, extract);
    var minor := IsMinor(a.appVersion, a.newAppVersion);
    assert r.outcome.newVersion == Format(Inc(a.version, ReleaseKind(minor)));
    ParseFormat(Inc(a.version, ReleaseKind(minor)));
  }
}
