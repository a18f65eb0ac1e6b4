/** Concrete runs of the update of one addon and of the whole run: an image
    pin moved by a patch, the same change with patches disallowed, an
    application release moved by a minor upgrade, and a run that updates
    nothing. */
module Scenarios {
  import opened Options
  import opened Strings
  import opened SemVer
  import opened Manager
  import opened Reconcile
  import opened ReconcileFacts
  import opened UpdateRun

  /** The first line of `line + "\n" + rest` is `line`. */
  lemma FirstLineOf(line: string, rest: string)
    requires '\n' !in line
    ensures FirstLine(line + "\n" + rest) == line
  {
    var text := line + "\n" + rest;
    assert text[..|line|] == line && text[|line|] == '\n';
    BeforeFirstUnique(text, '\n', FirstLine(text), line);
  }

  /** A line `FROM <image>:<tag>` whose image and tag have no ':' parses
      to that pin. */
  lemma ImageLineParts(line: string, image: string, tag: string)
    requires line == "FROM " + image + ":" + tag
    requires ':' !in image && ':' !in tag
    ensures ParseImageLine(line) == Some(ImagePin(image, tag))
  {
    var h := "FROM " + image;
    assert ':' !in h by {
      assert ':' !in "FROM ";
    }
    assert BeforeFirst(line, ':', h) by {
      assert line[..|h|] == h;
      assert line[|h|] == ':';
    }
    assert line[|h| + 1..] == tag;
    assert BeforeFirst(tag, ':', tag);
    var pin := ParseImageLine(line);
    var head :| (
      && BeforeFirst(line, ':', head) && |head| < |line|
      && pin.value.image == ReplaceFirst(head, "FROM ", "")
      && BeforeFirst(line[|head| + 1..], ':', pin.value.tag));
    BeforeFirstUnique(line, ':', head, h);
    StripFrom(head);
    assert head[5..] == image;
    BeforeFirstUnique(tag, ':', pin.value.tag, tag);
  }

  /** A Dockerfile whose first line is `FROM <image>:<tag>`. */
  function FromDockerfile(image: string, tag: string, rest: string): string {
    "FROM " + image + ":" + tag + "\n" + rest
  }

  /** Moving the pin of such a Dockerfile changes the tag in its first line
      and nothing else: the reference cannot occur earlier, because the
      image holds no ':'. */
  lemma FromDockerfileRewrite(image: string, tag: string, newTag: string, rest: string)
    requires ':' !in image
    ensures ReplaceFirst(FromDockerfile(image, tag, rest), image + ":" + tag, image + ":" + newTag)
         == FromDockerfile(image, newTag, rest)
  {
    var d := FromDockerfile(image, tag, rest);
    var pat := image + ":" + tag;
    var rep := image + ":" + newTag;
    FromDockerfileFirst(image, tag, rest);
    FromDockerfileParts(image, tag, rest);
    FromDockerfileParts(image, newTag, rest);
    SliceAround("FROM ", pat, "\n" + rest);
    assert ReplaceFirst(d, pat, rep) == d[..5] + rep + d[5 + |pat|..];
  }

  lemma FromDockerfileParts(image: string, tag: string, rest: string)
    ensures FromDockerfile(image, tag, rest) == "FROM " + (image + ":" + tag) + ("\n" + rest)
  {
  }

  /** The pieces around the middle of a three-part concatenation. */
  lemma SliceAround(a: string, b: string, c: string)
    ensures (a + b + c)[..|a|] == a && (a + b + c)[|a| + |b|..] == c
  {
  }

  /** The pinned reference first occurs right after "FROM ". */
  lemma FromDockerfileFirst(image: string, tag: string, rest: string)
    requires ':' !in image
    ensures IsFirstOccurrence(FromDockerfile(image, tag, rest), image + ":" + tag, 5)
  {
    var d := FromDockerfile(image, tag, rest);
    var pat := image + ":" + tag;
    var h := "FROM " + image;
    assert ':' !in h by {
      assert ':' !in "FROM ";
    }
    assert d[..|h|] == h;
    assert d[5..5 + |pat|] == pat;
    forall j: nat | j < 5
      ensures !OccursAt(d, pat, j)
    {
      assert d[j + |image|] == h[j + |image|] && pat[|image|] == ':';
    }
  }

  /** The files of an addon pinned by the first line of its Dockerfile,
      with no `build.json` and no extraction patterns. */
  predicate ImagePinned(files: AddonFiles, v: Version, image: string, tag: string, rest: string) {
    && files.config.Some?
    && Parse(files.config.value.version) == Some(v)
    && files.config.value.maintenance.Some?
    && files.config.value.maintenance.value.githubRelease != ""
    && files.config.value.maintenance.value.versionRegex == ""
    && files.config.value.maintenance.value.releaseRegex == ""
    && files.build.None?
    && files.dockerfile == FromDockerfile(image, tag, rest)
    && ':' !in image && ':' !in tag && '\n' !in image && '\n' !in tag
  }

  /** An image pin with a different upstream tag and no extraction
      patterns is a patch: with patches allowed the first line gets the new
      tag and the rest of the Dockerfile stays, the version gets a patch
      bump and the changelog a new section. */
  lemma ImagePatchUpdate(files: AddonFiles, v: Version, image: string, tag: string, rest: string,
                         newTag: string, extract: Extractor)
    requires ImagePinned(files, v, image, tag, rest)
    requires newTag != tag
    ensures var r := ReconcileAddon(files, newTag, true, extract);
      var newVersion := Format(Version(v.major, v.minor, v.patch + 1));
      var msg := "Update base image to " + image + ":" + newTag;
      && r.outcome == Updated(newVersion, msg)
      && r.files.dockerfile == FromDockerfile(image, newTag, rest)
      && r.files.build.None?
      && r.files.config == Some(files.config.value.(version := newVersion))
      && r.files.changelog == Some(AppendChangelog(files.changelog, newVersion, Line(msg)))
  {
    ImagePinnedAnalysis(files, v, image, tag, rest, newTag, extract);
    FromDockerfileRewrite(image, tag, newTag, rest);
    ImagePatchOutcome(files, v, image, tag, newTag, extract);
    ImagePatchFiles(files, v, image, tag, newTag, extract);
    assert Inc(v, Patch) == Version(v.major, v.minor, v.patch + 1);
    MessageForms(ImagePin(image, tag), false, files.config.value.name, "", newTag);
  }

  /** What the update reads from an image-pinned addon with no
      extraction patterns. */
  predicate AnalysedImagePin(files: AddonFiles, v: Version, image: string, tag: string, newTag: string,
                             extract: Extractor) {
    && files.config.Some? && files.config.value.maintenance.Some? && files.build.None?
    && Analyze(files, newTag, extract)
         == Success(Analysis(files.config.value, v, files.config.value.maintenance.value,
                             ImagePin(image, tag), "", newTag, ""))
  }

  /** An analysed image pin with a new tag is updated as a patch. */
  lemma ImagePatchOutcome(files: AddonFiles, v: Version, image: string, tag: string, newTag: string,
                          extract: Extractor)
    requires AnalysedImagePin(files, v, image, tag, newTag, extract) && newTag != tag
    ensures ReconcileAddon(files, newTag, true, extract).outcome
         == Updated(Format(Inc(v, Patch)), Message(ImagePin(image, tag), false, files.config.value.name, "", newTag))
  {
    assert Decide(tag, newTag, "", "", true) == Apply(false);
  }

  /** The files written by that patch. */
  lemma ImagePatchFiles(files: AddonFiles, v: Version, image: string, tag: string, newTag: string,
                        extract: Extractor)
    requires AnalysedImagePin(files, v, image, tag, newTag, extract) && newTag != tag
    ensures var r := ReconcileAddon(files, newTag, true, extract);
      && r.files.dockerfile == ReplaceFirst(files.dockerfile, image + ":" + tag, image + ":" + newTag)
      && r.files.build.None?
      && r.files.config == Some(files.config.value.(version := r.outcome.newVersion))
      && r.files.changelog == Some(AppendChangelog(files.changelog, r.outcome.newVersion, Line(r.outcome.message)))
  {
    assert Decide(tag, newTag, "", "", true) == Apply(false);
  }

  /** The same change with patches disallowed is ignored and nothing is
      written. */
  lemma ImagePatchIgnored(files: AddonFiles, v: Version, image: string, tag: string, rest: string,
                          newTag: string, extract: Extractor)
    requires ImagePinned(files, v, image, tag, rest)
    requires newTag != tag
    ensures ReconcileAddon(files, newTag, false, extract) == Reconciled(files, NotChanged(PatchIgnored))
  {
    ImagePinnedAnalysis(files, v, image, tag, rest, newTag, extract);
  }

  /** What the update reads from such an addon: its version, the pin of
      the first line, no application versions. */
  lemma ImagePinnedAnalysis(files: AddonFiles, v: Version, image: string, tag: string, rest: string,
                            newTag: string, extract: Extractor)
    requires ImagePinned(files, v, image, tag, rest)
    ensures Analyze(files, newTag, extract)
         == Success(Analysis(files.config.value, v, files.config.value.maintenance.value,
                             ImagePin(image, tag), "", newTag, ""))
  {
    var line := "FROM " + image + ":" + tag;
    assert files.dockerfile == line + "\n" + rest;
    assert '\n' !in line by {
      assert '\n' !in "FROM ";
    }
    FirstLineOf(line, rest);
    ImageLineParts(line, image, tag);
  }

  lemma NginxLiterals()
    ensures Format(Version(1, 2, 4)) == "1.2.4"
    ensures "Update base image to " + "nginx" + ":" + "1.25" == "Update base image to nginx:1.25"
  {
  }

  /** The image pin example: `nginx:1.24` moved to `nginx:1.25` by a
      patch, version 1.2.3 becoming 1.2.4. */
  lemma NginxExample(files: AddonFiles, rest: string, extract: Extractor)
    requires ImagePinned(files, Version(1, 2, 3), "nginx", "1.24", rest)
    ensures ReconcileAddon(files, "1.25", true, extract).outcome
         == Updated("1.2.4", "Update base image to nginx:1.25")
    ensures ReconcileAddon(files, "1.25", true, extract).files.dockerfile
         == FromDockerfile("nginx", "1.25", rest)
  {
    ImagePatchUpdate(files, Version(1, 2, 3), "nginx", "1.24", rest, "1.25", extract);
    NginxLiterals();
  }

  /** An application release `v2.0.0` with upstream `v2.1.0`, where the
      version pattern extracts 2.0.0 and 2.1.0: the tokens differ, so it
      is a minor upgrade whether or not patches are allowed; `args.RELEASE`
      becomes `v2.1.0` and the version gets a minor bump. */
  lemma ReleaseMinorExample(files: AddonFiles, v: Version, b: BuildJson, patch: bool, extract: Extractor)
    requires ReleasePinned(files, v, b, extract)
    ensures var r := ReconcileAddon(files, "v2.1.0", patch, extract);
      var newVersion := Format(Version(v.major, v.minor + 1, 0));
      var msg := "Update " + files.config.value.name + " to 2.1.0 (v2.1.0)";
      && r.outcome == Updated(newVersion, msg)
      && r.files.build == Some(b.(release := Some("v2.1.0")))
      && r.files.dockerfile == files.dockerfile
      && r.files.config == Some(files.config.value.(version := newVersion))
  {
    ReleaseMinorApplied(files, v, b, patch, extract);
    assert Inc(v, Minor) == Version(v.major, v.minor + 1, 0);
    assert Message(ReleasePin("v2.0.0"), true, files.config.value.name, "2.1.0", "v2.1.0")
        == "Update " + files.config.value.name + " to 2.1.0 (v2.1.0)";
  }

  /** The release-pinned addon of the example: `args.RELEASE` is `v2.0.0`
      and the version pattern extracts 2.0.0 and 2.1.0 from the two tags. */
  predicate ReleasePinned(files: AddonFiles, v: Version, b: BuildJson, extract: Extractor) {
    && files.config.Some? && Parse(files.config.value.version) == Some(v)
    && files.config.value.maintenance.Some?
    && var m := files.config.value.maintenance.value;
    && m.githubRelease != "" && m.versionRegex != "" && m.releaseRegex == ""
    && extract(m.versionRegex, "v2.0.0") == Some("2.0.0")
    && extract(m.versionRegex, "v2.1.0") == Some("2.1.0")
    && files.build == Some(b) && b.template.None? && b.release == Some("v2.0.0")
  }

  lemma ReleaseMinorApplied(files: AddonFiles, v: Version, b: BuildJson, patch: bool, extract: Extractor)
    requires ReleasePinned(files, v, b, extract)
    ensures var r := ReconcileAddon(files, "v2.1.0", patch, extract);
      var newVersion := Format(Inc(v, Minor));
      && r.outcome == Updated(newVersion, Message(ReleasePin("v2.0.0"), true, files.config.value.name, "2.1.0", "v2.1.0"))
      && r.files.build == Some(b.(release := Some("v2.1.0")))
      && r.files.dockerfile == files.dockerfile
      && r.files.config == Some(files.config.value.(version := newVersion))
  {
    var a := Analyze(files, "v2.1.0", extract).analysis;
    assert a.pin == ReleasePin("v2.0.0") && a.newTag == "v2.1.0";
    assert a.appVersion == "2.0.0" && a.newAppVersion == "2.1.0";
    assert IsMinor(a.appVersion, a.newAppVersion);
  }

  /** A run in which no addon is updated deletes the leftover update
      branches without force and pushes nothing. */
  lemma ScenarioNothingUpdated(steps: seq<Step>)
    requires forall i :: 0 <= i < |steps| ==> !steps[i].result.outcome.Updated?
    ensures var env := GitEnv("2024-05-01", ["master"], ["master", "updates-2024-05-01"], "");
      && Trace(steps, env) == [
           Checkout("master"), Pull, CheckoutLocalBranch("updates-2024-05-01"), ResetHard,
           DeleteLocalBranches(["updates-2024-05-01"], false)]
      && !HasPush(Trace(steps, env))
  {
    var env := GitEnv("2024-05-01", ["master"], ["master", "updates-2024-05-01"], "");
    TraceWithoutUpdates(steps, env);
    ExampleBranches();
  }

  lemma ExampleBranches()
    ensures BranchName("2024-05-01") == "updates-2024-05-01"
    ensures CleanUpLocalBranches(["master"], true) == []
    ensures CleanUpLocalBranches(["master", "updates-2024-05-01"], false)
         == [DeleteLocalBranches(["updates-2024-05-01"], false)]
  {
    assert UpdatesBranches(["master"]) == [] by {
      assert !StartsWith("master", BranchPrefix);
    }
    var end := ["master", "updates-2024-05-01"];
    assert UpdatesBranches(end) == ["updates-2024-05-01"] by {
      assert StartsWith("updates-2024-05-01", BranchPrefix);
      assert end[1..] == ["updates-2024-05-01"];
      assert ["updates-2024-05-01"][1..] == [];
    }
  }
}
