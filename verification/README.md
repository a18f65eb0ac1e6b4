# hassio-addons-maintenance, modelled in Dafny

A model of the maintenance tool for a repository of Home Assistant addons.
It covers the tool's four pieces of logic:

- `update` checks each addon's pinned upstream version against the latest
  upstream release tag. It can move the pin, bump the addon version and
  prepend a changelog section. Around that loop it drives git: a fresh
  `updates-<date>` branch, one commit per updated addon, then a push after
  a prompt, or a request to git to delete the update branches when nothing
  was updated. A pattern that does not compile or a release request that fails ends
  the run at that addon.
- `getAddonDirs` decides which root entries are addons. `appendChangelog`
  builds the new changelog text.
- `docs` regenerates the addon list of the main README between two marker
  comments.
- `build` assembles the argument list for the builder's `docker run`.

Everything is pure. File contents are values, and writing a file becomes
the new value in the result. The upstream tag, the date, the branch
listings and the prompt answer are inputs. The git commands become a
trace of `GitOp` values.

The regular expression engine is a parameter. It is any function from
a pattern and a subject to the text of capture group 1.

Modules, one per file:

| file | module | models |
|---|---|---|
| options.dfy | `Options` | optional values |
| strings.dfy | `Strings` | `indexOf`, string `replace`, `split`/`join`, `substring`, `toLowerCase` |
| semver.dfy | `SemVer` | `semver.valid` and `semver.inc` on plain MAJOR.MINOR.PATCH |
| manager.dfy | `Manager` | addon files, `getAddonDirs`, `appendChangelog` |
| docs.dfy | `Docs` | the `docs` command |
| build.dfy | `Build` | the `build` command |
| reconcile.dfy | `Reconcile`, `ReconcileFacts` | the update of one addon, and its properties per pin kind |
| update_run.dfy | `UpdateRun` | the `update` loop and its git trace |
| scenarios.dfy | `Scenarios` | concrete update runs stated over their inputs |

## Model

| member | source | states |
|---|---|---|
| Strings.IndexOf | src/commands/docs.ts:19-20 | the search finds a pattern iff it occurs, and then at its first occurrence |
| Strings.JsIndexOf | src/commands/docs.ts:19-20 | `indexOf` is -1 exactly when the pattern is absent, else the offset of its first occurrence |
| Strings.ReplaceFirst | src/commands/update.ts:180 | string `replace` changes only the first occurrence of the pattern; without an occurrence the text is unchanged |
| Strings.SplitHead | src/commands/update.ts:97 | the first element of `split(c)` is the text before the first `c`, or the whole text when there is no `c` |
| Strings.SplitTail | src/commands/update.ts:98-100 | `split(c)` has a second element iff the text contains `c`, and that element is the text between the first and the second `c` |
| Strings.JoinSplit | src/commands/update.ts:97-98 | joining the parts of `split(c)` with `c` gives back the text |
| Strings.SplitJoin | src/commands/update.ts:97-98 | splitting a `c`-join of `c`-free parts gives back the parts |
| Strings.Substring | src/commands/docs.ts:22-26 | `substring` clamps both ends into the string, so a -1 start or an end past the string still gives a slice; a start after the end swaps the two |
| Strings.LowerIsY | src/commands/update.ts:240 | only "y" and "Y" lower-case to "y" |
| SemVer.ParseNatRoundTrip | src/commands/update.ts:67 | a numeric version field reads back as the number it prints, and only its canonical spelling is accepted |
| SemVer.ParseFormat | src/commands/update.ts:67 | every version prints to a string that parses back to it |
| SemVer.FormatParse | src/commands/update.ts:67 | a version string accepted by the parser is exactly the printed form of its value |
| SemVer.IncLaws | src/commands/update.ts:201 | a minor bump gives X.(Y+1).0 and a patch bump gives X.Y.(Z+1); either one yields a strictly greater version |
| SemVer.Inc | src/commands/update.ts:201 | a bump gives a greater version. A patch bump gives the very next version; a minor bump gives the first version above that leaves the MAJOR.MINOR line |
| SemVer.IncString | src/commands/update.ts:201 | bumping a version string fails exactly when it is not a version; otherwise the result parses to the bumped version, which is greater |
| SemVer.BumpExamples | src/commands/update.ts:201 | 1.2.3 bumps to 1.2.4 as a patch and to 1.3.0 as a minor |
| Manager.GetAddonDirs | src/manager.ts:9-14 | the addons are exactly the directory entries whose name neither starts with "." nor is "tmp" |
| Manager.GetAddonDirsAppend | src/manager.ts:13 | the filter keeps listing order: the addons of a concatenated listing are those of the first part followed by those of the second |
| Manager.AppendChangelog | src/manager.ts:51-79 | the new text starts with "## version" and a blank line, then the bullets. A non-empty old text follows verbatim after one newline; otherwise the section is all there is |
| Manager.BulletsAppend | src/manager.ts:68-71 | there is one bullet per content line, in order: the bullets of a concatenation are the two parts' bullets concatenated |
| Manager.SingleLineSection | src/manager.ts:53-71 | a single line is one bullet: the section is the header followed by " - line" and a newline |
| Manager.AppendAllSections | src/manager.ts:60-78 | after N appends the changelog is N sections, newest first, separated by blank lines. It ends with the untouched earlier text when there was any |
| Docs.MarkerFacts | src/commands/docs.ts:19-20 | the 25 added to the start marker's position is that marker's length; neither marker spans a newline |
| Docs.AddonList | src/commands/docs.ts:13-17 | there is one list item per addon, in the given order: a linked "###" heading, the addon's description, a newline |
| Docs.KeptPrefix | src/commands/docs.ts:19-22 | with a start marker, the README is kept up to the end of its first occurrence; without one, its first 24 characters are kept |
| Docs.KeptSuffix | src/commands/docs.ts:20-26 | with an end marker, the README is kept from its first occurrence on; without one, the whole README is kept |
| Docs.Splice | src/commands/docs.ts:22-26 | whatever the markers, the new README is the kept prefix, then the generated list, then the kept suffix |
| Docs.SpliceBetween | src/commands/docs.ts:19-26 | with both markers present and in order, the list replaces exactly the text between the end of the start marker and the end marker |
| Docs.SpliceBetweenAll | src/commands/docs.ts:19-26 | the same statement, for every placement of the two markers |
| Docs.GenerateDocs | src/commands/docs.ts:8-26 | with both markers in order, the README gets one item per addon directory, in listing order, between the markers, and the rest stays unchanged |
| Docs.MiddleFree | src/commands/docs.ts:22-25 | the generated block contains no end marker when no item contains one |
| Docs.SplicedMarkers | src/commands/docs.ts:19-26 | after one regeneration the start marker stays where it was, the end marker follows the new list directly, and both are still the first occurrences |
| Docs.SpliceIdempotent | src/commands/docs.ts:19-28 | regenerating twice gives the same README as once, when both markers are present and in order and no item contains the end marker |
| Build.ArchFlags | src/commands/build.ts:10-17 | without an `--arch` option, each configured architecture becomes `--<arch>`, in order. A single value gets the prefix; a list passes through unchanged |
| Build.DockerArgs | src/commands/build.ts:19-60 | the arguments are: the 11 fixed ones ending with `--addon`, the arch flags, `-t /data/<addon>`, then `--test`, the four credential arguments and the three docker-hub arguments, each only when enabled and always in that order |
| Build.TestFlagOnlyAddsTest | src/commands/build.ts:36-41 | turning the test off removes exactly the one `--test` argument and nothing else |
| Build.CredentialsIffBoth | src/commands/build.ts:43-51 | credentials are passed iff both user and password are given. They are then exactly user flag, user, password flag, password, inserted after the optional `--test`; otherwise the list is as without them |
| Reconcile.AppVersion | src/commands/update.ts:129-139 | the application version is group 1 of `version_regex` on the tag, or "" when there is no pattern or no match |
| Reconcile.RewriteTag | src/commands/update.ts:141-148 | the upstream tag is replaced by group 1 of `release_regex` when that matches, and otherwise kept as it is |
| Reconcile.FirstLine | src/commands/update.ts:97 | the first line is the text before the first newline |
| Reconcile.ParseImageLine | src/commands/update.ts:97-100 | a line has a pin iff it contains ':'. The image is the text before the first ':' with its first "FROM " removed; the tag is the text between the first and the second ':' |
| Reconcile.PinOf | src/commands/update.ts:92-114 | without `build.json` the pin is read from the Dockerfile's first line. With a `build_from_template` it is that template; otherwise it is the application release in `args.RELEASE` |
| Reconcile.Decide | src/commands/update.ts:150-175 | equal tags are up to date. A minor upgrade (both application versions non-empty and different) always goes ahead; any other change goes ahead iff patches are allowed, and is otherwise ignored |
| Reconcile.ApplyTemplate | src/commands/update.ts:189-197 | the template version becomes the new tag, and each architecture's image has its first occurrence of the old tag replaced. The architectures and the release are unchanged |
| Reconcile.Analyze | src/commands/update.ts:57-148 | an addon is skipped iff it has no config, an unsupported version, no maintenance release URL or no pinned tag. Otherwise the analysis holds its version, pin, application versions and rewritten upstream tag |
| Reconcile.ReconcileAddon | src/commands/update.ts:150-215 | files change only on an update. An update happens iff the tags differ and it is a patch-allowed or minor change. It then moves the pin, stores the bumped version in the config and prepends a one-line changelog section carrying the message |
| ReconcileFacts.PinnedReferenceInLine | src/commands/update.ts:97-100 | in a `FROM <image>:<tag>` line, the text `image:tag` occurs right after "FROM " |
| ReconcileFacts.ReplaceWithinFirstLine | src/commands/update.ts:180 | a pattern found in the first line is first found there, so replacing it leaves the rest of the file intact |
| ReconcileFacts.ImagePinRewritesFirstLineOnly | src/commands/update.ts:96-180 | an image-pin update rewrites only the Dockerfile's first line; every later line is kept |
| ReconcileFacts.ImagePinUpdate | src/commands/update.ts:177-181 | an image-pin update replaces the first `image:tag` of the Dockerfile by `image:newTag` and changes nothing else there. There is no `build.json` to change |
| ReconcileFacts.TemplatePinUpdate | src/commands/update.ts:189-198 | a template-pin update moves the template version to the new tag and replaces the old tag in every architecture's image. It keeps the architectures and the release and leaves the Dockerfile alone |
| ReconcileFacts.ReleasePinUpdate | src/commands/update.ts:184-188 | an application-release update changes `args.RELEASE` to the new tag and nothing else |
| ReconcileFacts.UpdateMessage | src/commands/update.ts:210-215 | the message has the application-release form, the minor-image form or the base-image form, by pin kind and minor upgrade. It is the single bullet of the new changelog section |
| Reconcile.ApplyPin | src/commands/update.ts:177-198 | an image pin replaces the first `image:tag` in the Dockerfile by `image:newTag`. A template pin moves the template version and keeps the release and architectures. A release pin sets `args.RELEASE`; config and changelog are untouched |
| Reconcile.Message | src/commands/update.ts:210-213 | the message starts with "Update ". A release pin or a minor upgrade names the addon and the new application version and ends with the new tag in parentheses; otherwise it names the base image with the new tag |
| ReconcileFacts.MessageForms | src/commands/update.ts:210-213 | the three exact message texts, by pin kind and minor upgrade |
| ReconcileFacts.UpdateBumpsVersion | src/commands/update.ts:201-204 | a minor upgrade bumps to X.(Y+1).0 and anything else to X.Y.(Z+1), and the config holds the new version |
| UpdateRun.UpdatesBranches | src/commands/update.ts:252 | the leftover branches are exactly the local branches whose name starts with "updates" |
| UpdateRun.UpdatesBranchesAppend | src/commands/update.ts:252 | that filter keeps the listing order |
| UpdateRun.CleanUpLocalBranches | src/commands/update.ts:249-259 | there is one deletion of all matching branches iff some branch matches, and none otherwise |
| UpdateRun.Accepts | src/commands/update.ts:240 | the push prompt accepts exactly "", "y" and "Y" |
| UpdateRun.AcceptsExamples | src/commands/update.ts:240 | "yes", "YES" and "n" decline, "Y" accepts |
| UpdateRun.SetupOps | src/commands/update.ts:30-43 | with git, the run first checks out master and pulls, then force-deletes the update branches iff one exists, then creates today's branch and resets it hard |
| UpdateRun.FinishOps | src/commands/update.ts:228-246 | after an update, the only end-of-run step is the push of today's branch with upstream tracking to origin, iff the answer accepts. Without one, it is a request to git to delete the update branches without force, iff one is listed |
| UpdateRun.UpdateAddon | src/commands/update.ts:57-127 | the run stops at an addon that has a configuration, a supported version and a release URL iff one of its non-empty patterns does not compile or its release request gives nothing. An addon without those is skipped unchanged; one whose request gives a tag is reconciled against that tag |
| UpdateRun.ReconcileLoop | src/commands/update.ts:45-226 | the addon directories are reconciled in order up to the first that stops the run. Each updated one is followed by its add and commit when git is used, and `updated` holds iff some addon was updated |
| UpdateRun.Update | src/commands/update.ts:12-246 | the run reconciles the addon directories in listing order until a pattern fails to compile or a release request fails there. Without git it performs no git operation. With git, a full run's trace is setup, the loop's commits and the end-of-run step; a stopped run's trace has no end-of-run step |
| UpdateRun.StoppedTrace | src/commands/update.ts:30-226 | a run that stops early commits once per updated addon before the stop, in order, and pushes nothing |
| UpdateRun.LoopCommitMessages | src/commands/update.ts:217-221 | the loop commits once per updated addon, in addon order, with that addon's message |
| UpdateRun.TraceCommits | src/commands/update.ts:217-221 | the commit messages of a whole run are the updated addons' messages, in order; setup and end-of-run commit nothing |
| UpdateRun.TracePush | src/commands/update.ts:228-245 | the branch is pushed iff some addon was updated and the answer accepts. The push is the last operation and sets upstream tracking of today's branch on origin |
| UpdateRun.TraceWithoutUpdates | src/commands/update.ts:228-234 | a run without updates is the setup followed only by the non-forced cleanup. That cleanup asks git to delete, without force, iff an "updates" branch is listed, and nothing is pushed |
| UpdateRun.NoUpdatesNoOps | src/commands/update.ts:217-223 | without an updated addon the loop performs no git operation |
| UpdateRun.TodaysBranchCleanedUp | src/commands/update.ts:228-259 | when nothing was updated and today's branch is listed at the end, the last operation asks git to delete, without force, a branch list that includes today's branch. The two operations before it created that branch and reset it, so it is still checked out |
| Scenarios.FirstLineOf | src/commands/update.ts:97 | the first line of `line + "\n" + rest` is `line` when `line` has no newline |
| Scenarios.ImageLineParts | src/commands/update.ts:97-100 | the line `FROM <image>:<tag>` parses to that image and tag when neither holds ':' |
| Scenarios.FromDockerfileRewrite | src/commands/update.ts:180 | moving the pin of a `FROM <image>:<tag>` Dockerfile changes only the tag in its first line |
| Scenarios.ImagePinnedAnalysis | src/commands/update.ts:57-148 | an image-pinned addon without patterns is analysed to its version and first-line pin, with no application versions |
| Scenarios.ImagePatchUpdate | src/commands/update.ts:177-215 | a new upstream tag on such an addon, with patches allowed, bumps the patch version. It rewrites the first line, records "Update base image to image:newTag" and prepends that section |
| Scenarios.ImagePatchIgnored | src/commands/update.ts:171-174 | the same change with patches disallowed is ignored and nothing is written |
| Scenarios.NginxExample | src/commands/update.ts:177-213 | `nginx:1.24` moved to `nginx:1.25` as a patch turns version 1.2.3 into 1.2.4 with the message "Update base image to nginx:1.25" |
| Scenarios.ReleaseMinorExample | src/commands/update.ts:184-212 | `args.RELEASE` v2.0.0 with upstream v2.1.0, and application versions 2.0.0 and 2.1.0, is a minor upgrade whatever the patch flag. RELEASE becomes v2.1.0, the version gets a minor bump, and the message names 2.1.0 (v2.1.0) |
| Scenarios.ScenarioNothingUpdated | src/commands/update.ts:30-234 | on 2024-05-01 with no leftover branch at the start and nothing updated, the run checks out master, pulls, creates and resets `updates-2024-05-01`, then asks git to delete it without force and pushes nothing |

## Left out

- File-system access, JSON (de)serialisation and its formatting, `path.join` and `process.cwd`: file contents are values, and the result carries the new contents.
- The GitHub requests for the latest release: the answer is an input (`releaseOf`), the tag name or `None` when the request fails or the releases list is empty. The `include_prerelease` choice of endpoint only changes where that tag comes from.
- What git answers: the trace records the commands the run issues. Git refuses the non-forced deletion of the branch that is checked out, which is today's branch at the end of a run without updates; that refusal and its error are not modelled.
- The date formatting of the branch name: the date string is an input.
- simple-git, the readline prompt and the docker process: git commands are a trace, and the prompt answer is an input. The `git log` listing shown in the prompt only feeds its text and is not modelled.
- Console output and colouring (`coloredTag`, `newColoredTag`, the separator line between addons): display only.
- src/index.ts: command-line wiring with no logic of its own, not part of this model.
- Reconcile.Extractor: the regular expression engine is abstract. A first group that does not take part in the match is treated as no group; the source would then carry `undefined` along. Whether a pattern compiles is a separate input (`compiles`): a non-empty pattern that does not compile makes `new RegExp` throw, which `UpdateRun.UpdateAddon` models as the end of the run, so `Reconcile.Analyze` and the extractor only ever see patterns that compiled.
- SemVer.Parse: accepts only plain MAJOR.MINOR.PATCH without leading zeros. `semver.valid` also accepts a leading "v" or "=", surrounding spaces, prerelease and build metadata, and normalises them. Bumps of prerelease versions and the library's length and size limits are not modelled.
- Strings.Lower: lower-cases ASCII letters only, while `toLowerCase` also folds other scripts. Which prompt answers accept is the same either way, because no character but "Y" lower-cases to "y".
- Strings.JsIndexOf: offsets count Unicode code points, where JavaScript counts UTF-16 code units. The two differ on text with characters outside the Basic Multilingual Plane.
- Strings.Substring: its bounds count code points, not UTF-16 code units, as for `Strings.JsIndexOf`.
- Docs.KeptPrefix: the 24 characters kept without a start marker are 24 code points, where the source keeps 24 UTF-16 code units.
- Strings.ReplaceFirst: the `$` patterns that `String.replace` interprets in a replacement string are not modelled. New tags are taken to contain no `$`.
- Reconcile.Analyze: an addon whose pinned tag is missing is skipped with `MissingTag`. This is a Dockerfile first line without ':', or a `build.json` with neither template nor `args.RELEASE`. The source instead carries on with `undefined` as the tag, or throws on the missing `args`.
- Manager.GetAddonDirs: `lstat` is abstracted as the entry's `isDirectory` flag.
- A missing Dockerfile, or an unreadable `config.json` in `docs` and `build`, makes the source throw and stop. The model always has a Dockerfile text and a configuration for every addon.
- Scenarios.NginxExample: the example is stated over any addon files that satisfy its pin, not over one fixed set of file contents.
