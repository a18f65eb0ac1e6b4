/** The whole `update` run: the loop over the addon directories and the
    version-control steps around it, emitted as a trace of git operations.
    Branch listings, the date and the answer to the push prompt are inputs;
    `git log` only feeds the prompt's text and is not part of the trace. */
module UpdateRun {
  import opened Options
  import opened Strings
  import opened SemVer
  import opened Manager
  import opened Reconcile

  /** The git operations the command performs, in the order performed. */
  datatype GitOp =
    | Checkout(branch: string)
    | Pull
    | DeleteLocalBranches(branches: seq<string>, force: bool)
    | CheckoutLocalBranch(branch: string)
    | ResetHard
    | Add(path: string)
    | Commit(message: string)
    | Push(remote: string, branch: string, setUpstream: bool)

  datatype UpdateOptions = UpdateOptions(patch: bool, noGit: bool)

  /** What the run reads from outside: today's date as YYYY-MM-DD, the
      local branches at the start and at the end of the run, and the
      answer typed at the push prompt. Today's branch is still checked out
      when the run ends, so a real listing at the end includes it. */
  datatype GitEnv = GitEnv(date: string, branchesAtStart: seq<string>, branchesAtEnd: seq<string>, answer: string)

  const BaseBranch: string := "master"
  const BranchPrefix: string := "updates"

  function BranchName(date: string): string {
    "updates-" + date
  }

  /** The local branches left by earlier runs: those whose name starts
      with "updates", in listing order. */
  function UpdatesBranches(branches: seq<string>): (r: seq<string>)
    ensures |r| <= |branches|
    ensures forall b :: b in r <==> b in branches && StartsWith(b, BranchPrefix)
    decreases |branches|
  {
    if |branches| == 0 then []
    else
      var rest := UpdatesBranches(branches[1..]);
      assert forall b :: b in branches <==> b == branches[0] || b in branches[1..];
      if StartsWith(branches[0], BranchPrefix) then [branches[0]] + rest else rest
  }

  /** The filter keeps the listing order. */
  lemma {:induction false} UpdatesBranchesAppend(a: seq<string>, b: seq<string>)
    ensures UpdatesBranches(a + b) == UpdatesBranches(a) + UpdatesBranches(b)
    decreases |a|
  {
    if |a| > 0 {
      assert (a + b)[1..] == a[1..] + b;
      UpdatesBranchesAppend(a[1..], b);
    } else {
      assert a + b == b;
    }
  }

  /** `cleanUpLocalBranches`: one deletion of all matching branches, and
      none when no branch matches. */
  function CleanUpLocalBranches(branches: seq<string>, force: bool): (ops: seq<GitOp>)
    ensures |ops| <= 1
    ensures |ops| == 1 <==> exists b :: b in branches && StartsWith(b, BranchPrefix)
    ensures |ops| == 1 ==> ops[0] == DeleteLocalBranches(UpdatesBranches(branches), force)
  {
    var matching := UpdatesBranches(branches);
    if |matching| > 0 then
      assert matching[0] in matching;
      [DeleteLocalBranches(matching, force)]
    else []
  }

  /** The answer to "push these changes? [Yn]": yes when it lower-cases to
      "y" or is empty, which leaves exactly "", "y" and "Y". */
  predicate Accepts(answer: string)
    ensures Accepts(answer) <==> answer == "" || answer == "y" || answer == "Y"
  {
    LowerIsY(answer);
    Lower(answer) == "y" || answer == ""
  }

  /** "yes", "YES" and "n" decline; "Y" accepts. */
  lemma AcceptsExamples()
    ensures !Accepts("yes") && !Accepts("YES") && !Accepts("n")
    ensures Accepts("Y")
  {
  }

  /** Before the loop: back to master, pull, drop leftover update branches
      by force, and start today's branch from a hard-reset tree. */
  function SetupOps(env: GitEnv): (ops: seq<GitOp>)
    ensures 4 <= |ops| <= 5
    ensures ops[0] == Checkout(BaseBranch) && ops[1] == Pull
    ensures ops[|ops| - 2] == CheckoutLocalBranch(BranchName(env.date)) && ops[|ops| - 1] == ResetHard
    ensures |ops| == 5 <==> exists b :: b in env.branchesAtStart && StartsWith(b, BranchPrefix)
    ensures |ops| == 5 ==> ops[2] == DeleteLocalBranches(UpdatesBranches(env.branchesAtStart), true)
  {
    [Checkout(BaseBranch), Pull]
    + CleanUpLocalBranches(env.branchesAtStart, true)
    + [CheckoutLocalBranch(BranchName(env.date)), ResetHard]
  }

  /** After one addon: stage its directory and commit, when it was updated. */
  function CommitOps(addon: string, outcome: Outcome): seq<GitOp> {
    if outcome.Updated? then [Add(addon + "/*"), Commit(outcome.message)] else []
  }

  /** After the loop: without updates delete the update branches (not by
      force); with updates push today's branch, with upstream tracking, if
      the answer accepts. */
  function FinishOps(updated: bool, env: GitEnv): (ops: seq<GitOp>)
    ensures |ops| <= 1
    ensures updated ==> (|ops| == 1 <==> Accepts(env.answer))
    ensures updated && |ops| == 1 ==> ops[0] == Push("origin", BranchName(env.date), true)
    ensures !updated ==> (|ops| == 1 <==> exists b :: b in env.branchesAtEnd && StartsWith(b, BranchPrefix))
    ensures !updated && |ops| == 1 ==> ops[0] == DeleteLocalBranches(UpdatesBranches(env.branchesAtEnd), false)
  {
    if !updated then CleanUpLocalBranches(env.branchesAtEnd, false)
    else if Accepts(env.answer) then [Push("origin", BranchName(env.date), true)]
    else []
  }

  /** One addon of the loop, by directory name. */
  datatype Step = Step(addon: string, result: Reconciled)

  predicate AnyUpdated(steps: seq<Step>) {
    exists i :: 0 <= i < |steps| && steps[i].result.outcome.Updated?
  }

  /** The commits of the loop, in addon order. */
  function LoopOps(steps: seq<Step>): seq<GitOp>
    decreases |steps|
  {
    if |steps| == 0 then []
    else LoopOps(steps[..|steps| - 1]) + CommitOps(steps[|steps| - 1].addon, steps[|steps| - 1].result.outcome)
  }

  /** The messages of the updated addons, in addon order. */
  function UpdatedMessages(steps: seq<Step>): seq<string>
    decreases |steps|
  {
    if |steps| == 0 then []
    else
      var last := steps[|steps| - 1].result.outcome;
      UpdatedMessages(steps[..|steps| - 1]) + (if last.Updated? then [last.message] else [])
  }

  /** The messages of the commits in a trace, in order. */
  function CommitMessages(ops: seq<GitOp>): seq<string>
    decreases |ops|
  {
    if |ops| == 0 then []
    else
      var last := ops[|ops| - 1];
      CommitMessages(ops[..|ops| - 1]) + (if last.Commit? then [last.message] else [])
  }

  /** The full trace of a run with git enabled. */
  function Trace(steps: seq<Step>, env: GitEnv): seq<GitOp> {
    SetupOps(env) + LoopOps(steps) + FinishOps(AnyUpdated(steps), env)
  }

  lemma StepAppended(steps: seq<Step>, s: Step)
    ensures AnyUpdated(steps + [s]) <==> AnyUpdated(steps) || s.result.outcome.Updated?
    ensures LoopOps(steps + [s]) == LoopOps(steps) + CommitOps(s.addon, s.result.outcome)
    ensures forall i :: 0 <= i < |steps| ==> (steps + [s])[i] == steps[i]
  {
    var after := steps + [s];
    assert after[..|after| - 1] == steps;
    assert forall i :: 0 <= i < |steps| ==> after[i] == steps[i];
    assert after[|steps|] == s;
  }

  /** Whether the run gets as far as compiling the addon's patterns: it
      does for every addon with a configuration, a supported version and a
      maintenance release URL, whatever its pin. */
  predicate Maintained(files: AddonFiles) {
    && files.config.Some?
    && Parse(files.config.value.version).Some?
    && files.config.value.maintenance.Some?
    && files.config.value.maintenance.value.githubRelease != ""
  }

  /** Whether the non-empty patterns of a maintenance block compile, given
      the engine's verdict `compiles` on a pattern; an empty pattern is not
      compiled at all. */
  predicate PatternsCompile(m: Maintenance, compiles: string -> bool) {
    && (m.versionRegex != "" ==> compiles(m.versionRegex))
    && (m.releaseRegex != "" ==> compiles(m.releaseRegex))
  }

  /** Whether the run asks for the addon's latest release: its patterns
      compiled, so the run reached the request. */
  predicate RequestsRelease(files: AddonFiles, compiles: string -> bool) {
    Maintained(files) && PatternsCompile(files.config.value.maintenance.value, compiles)
  }

  /** One addon of the run, given the engine's verdict on patterns and the
      answer to its release request: the tag name, or `None` when the
      request fails or lists no release. `None` when the run stops at this
      addon, which is when a pattern fails to compile or the request gives
      nothing. */
  function UpdateAddon(files: AddonFiles, compiles: string -> bool, release: Option<string>, patch: bool,
                       extract: Extractor)
    : (r: Option<Reconciled>)
    ensures r.None? <==> Maintained(files) && (!RequestsRelease(files, compiles) || release.None?)
    ensures !Maintained(files) ==>
      r.Some? && r.value == Reconciled(files, r.value.outcome) && r.value.outcome.Skipped?
    ensures RequestsRelease(files, compiles) && release.Some? ==>
      r == Some(ReconcileAddon(files, release.value, patch, extract))
  {
    if Maintained(files) && (!RequestsRelease(files, compiles) || release.None?) then None
    else Some(ReconcileAddon(files, release.GetOr(""), patch, extract))
  }

  /** The loop of `update` over the addon directories, for any per-addon
      step: each addon in order, a commit after each updated one when git
      is used, and whether any addon was updated. A step that gives `None`
      stops the loop there. */
  method ReconcileLoop(dirs: seq<string>, reconcile: string -> Option<Reconciled>, useGit: bool, trace0: seq<GitOp>)
    returns (steps: seq<Step>, trace: seq<GitOp>, updated: bool, stopped: bool)
    ensures |steps| <= |dirs|
    ensures forall i :: 0 <= i < |steps| ==>
      reconcile(dirs[i]).Some? && steps[i] == Step(dirs[i], reconcile(dirs[i]).value)
    ensures stopped <==> |steps| < |dirs|
    ensures stopped ==> reconcile(dirs[|steps|]).None?
    ensures updated <==> AnyUpdated(steps)
    ensures useGit ==> trace == trace0 + LoopOps(steps)
    ensures !useGit ==> trace == trace0
  {
    updated := false;
    stopped := false;
    trace := trace0;
    steps := [];
    var k := 0;
    while k < |dirs| && !stopped
      invariant 0 <= k <= |dirs|
      invariant |steps| == k
      invariant forall i :: 0 <= i < k ==>
        reconcile(dirs[i]).Some? && steps[i] == Step(dirs[i], reconcile(dirs[i]).value)
      invariant stopped ==> k < |dirs| && reconcile(dirs[k]).None?
      invariant updated <==> AnyUpdated(steps)
      invariant useGit ==> trace == trace0 + LoopOps(steps)
      invariant !useGit ==> trace == trace0
      decreases |dirs| - k, if stopped then 0 else 1
    {
      var addon := dirs[k];
      match reconcile(addon)
      case None =>
        stopped := true;
      case Some(result) =>
        var step := Step(addon, result);
        if useGit {
          trace := trace + CommitOps(addon, result.outcome);
        }
        if result.outcome.Updated? {
          updated := true;
        }
        StepAppended(steps, step);
        assert trace0 + LoopOps(steps) + CommitOps(addon, result.outcome)
            == trace0 + (LoopOps(steps) + CommitOps(addon, result.outcome));
        steps := steps + [step];
        k := k + 1;
    }
  }

  /** `update`: reconcile the addon directories in listing order, then
      settle the branch. `filesOf` gives an addon's files, `compiles` the
      engine's verdict on a pattern, and `releaseOf` the tag name of an
      addon's latest upstream release, `None` when that request fails. A
      pattern that does not compile or a failed request ends the run at
      that addon: what earlier addons wrote and committed stays, and the
      end-of-run step is not reached. */
  method Update(
    entries: seq<DirEntry>,
    filesOf: string -> AddonFiles,
    compiles: string -> bool,
    releaseOf: string -> Option<string>,
    opts: UpdateOptions,
    env: GitEnv,
    extract: Extractor)
    returns (steps: seq<Step>, trace: seq<GitOp>, stopped: bool)
    ensures var dirs := GetAddonDirs(entries);
      && |steps| <= |dirs|
      && (forall i :: 0 <= i < |steps| ==>
            var r := UpdateAddon(filesOf(dirs[i]), compiles, releaseOf(dirs[i]), opts.patch, extract);
            r.Some? && steps[i] == Step(dirs[i], r.value))
      && (stopped <==> |steps| < |dirs|)
      && (stopped ==>
            var files := filesOf(dirs[|steps|]);
            Maintained(files) && (!RequestsRelease(files, compiles) || releaseOf(dirs[|steps|]).None?))
    ensures opts.noGit ==> trace == []
    ensures !opts.noGit && !stopped ==> trace == Trace(steps, env)
    ensures !opts.noGit && stopped ==> trace == SetupOps(env) + LoopOps(steps)
  {
    var useGit := !opts.noGit;
    trace := [];
    if useGit {
      trace := SetupOps(env);
    }
    var dirs := GetAddonDirs(entries);
    var updated;
    steps, trace, updated, stopped := ReconcileLoop(
      dirs, addon => UpdateAddon(filesOf(addon), compiles, releaseOf(addon), opts.patch, extract), useGit, trace);
    if useGit && !stopped {
      if !updated {
        trace := trace + CleanUpLocalBranches(env.branchesAtEnd, false);
      } else if Lower(env.answer) == "y" || env.answer == "" {
        trace := trace + [Push("origin", BranchName(env.date), true)];
      }
    }
  }

  // ---------------------------------------------------------------------
  // Properties of the trace
  // ---------------------------------------------------------------------

  lemma {:induction false} CommitMessagesAppend(a: seq<GitOp>, b: seq<GitOp>)
    ensures CommitMessages(a + b) == CommitMessages(a) + CommitMessages(b)
    decreases |b|
  {
    if |b| == 0 {
      assert a + b == a;
    } else {
      var init := b[..|b| - 1];
      assert (a + b)[..|a + b| - 1] == a + init;
      assert (a + b)[|a + b| - 1] == b[|b| - 1];
      CommitMessagesAppend(a, init);
    }
  }

  lemma {:induction false} LoopCommitMessages(steps: seq<Step>)
    ensures CommitMessages(LoopOps(steps)) == UpdatedMessages(steps)
    decreases |steps|
  {
    if |steps| > 0 {
      var init := steps[..|steps| - 1];
      var last := steps[|steps| - 1];
      LoopCommitMessages(init);
      CommitMessagesAppend(LoopOps(init), CommitOps(last.addon, last.result.outcome));
      if last.result.outcome.Updated? {
        var ops := [Add(last.addon + "/*"), Commit(last.result.outcome.message)];
        var first := [Add(last.addon + "/*")];
        assert ops[..1] == first;
        assert first[..0] == [];
        assert CommitMessages(first) == [];
        assert CommitMessages(ops) == [last.result.outcome.message];
      }
    }
  }

  predicate NoCommit(ops: seq<GitOp>) {
    forall i :: 0 <= i < |ops| ==> !ops[i].Commit?
  }

  lemma {:induction false} NoCommitMessages(ops: seq<GitOp>)
    requires NoCommit(ops)
    ensures CommitMessages(ops) == []
    decreases |ops|
  {
    if |ops| > 0 {
      NoCommitMessages(ops[..|ops| - 1]);
    }
  }

  /** With git on, the run commits exactly once per updated addon, in
      directory order, with that addon's message (which is also the bullet
      of its new changelog section). */
  lemma TraceCommits(steps: seq<Step>, env: GitEnv)
    ensures CommitMessages(Trace(steps, env)) == UpdatedMessages(steps)
  {
    var setup := SetupOps(env);
    var finish := FinishOps(AnyUpdated(steps), env);
    SetupHasNoCommit(env);
    FinishHasNoCommit(AnyUpdated(steps), env);
    NoCommitMessages(finish);
    StoppedTrace(steps, env);
    CommitMessagesAppend(setup + LoopOps(steps), finish);
  }

  lemma SetupHasNoCommit(env: GitEnv)
    ensures NoCommit(SetupOps(env))
  {
    var setup := SetupOps(env);
    var clean := CleanUpLocalBranches(env.branchesAtStart, true);
    assert setup == [Checkout(BaseBranch), Pull] + clean + [CheckoutLocalBranch(BranchName(env.date)), ResetHard];
    assert forall i :: 0 <= i < |setup| ==> !setup[i].Commit?;
  }

  lemma FinishHasNoCommit(updated: bool, env: GitEnv)
    ensures NoCommit(FinishOps(updated, env))
  {
  }

  /** A run that stops at a failed release request has the setup and the
      commits of the addons before it, and nothing after: it commits once
      per updated addon, in order, and never pushes. */
  lemma StoppedTrace(steps: seq<Step>, env: GitEnv)
    ensures CommitMessages(SetupOps(env) + LoopOps(steps)) == UpdatedMessages(steps)
    ensures !HasPush(SetupOps(env) + LoopOps(steps))
  {
    var setup := SetupOps(env);
    SetupHasNoCommit(env);
    NoCommitMessages(setup);
    LoopCommitMessages(steps);
    CommitMessagesAppend(setup, LoopOps(steps));
    SetupHasNoPush(env);
    LoopHasNoPush(steps);
    HasPushAppend(setup, LoopOps(steps));
  }

  lemma SetupHasNoPush(env: GitEnv)
    ensures !HasPush(SetupOps(env))
  {
    CleanUpHasNoPush(env.branchesAtStart, true);
    HasPushAppend([Checkout(BaseBranch), Pull], CleanUpLocalBranches(env.branchesAtStart, true));
    HasPushAppend([Checkout(BaseBranch), Pull] + CleanUpLocalBranches(env.branchesAtStart, true),
                  [CheckoutLocalBranch(BranchName(env.date)), ResetHard]);
  }

  predicate HasPush(ops: seq<GitOp>) {
    exists i :: 0 <= i < |ops| && ops[i].Push?
  }

  lemma HasPushAppend(a: seq<GitOp>, b: seq<GitOp>)
    ensures HasPush(a + b) <==> HasPush(a) || HasPush(b)
  {
    if HasPush(a + b) {
      var i :| 0 <= i < |a + b| && (a + b)[i].Push?;
      if i < |a| {
        assert a[i].Push?;
      } else {
        assert b[i - |a|].Push?;
      }
    }
    if HasPush(a) {
      var i :| 0 <= i < |a| && a[i].Push?;
      assert (a + b)[i].Push?;
    }
    if HasPush(b) {
      var i :| 0 <= i < |b| && b[i].Push?;
      assert (a + b)[|a| + i].Push?;
    }
  }

  lemma {:induction false} LoopHasNoPush(steps: seq<Step>)
    ensures !HasPush(LoopOps(steps))
    decreases |steps|
  {
    if |steps| > 0 {
      var last := steps[|steps| - 1];
      LoopHasNoPush(steps[..|steps| - 1]);
      HasPushAppend(LoopOps(steps[..|steps| - 1]), CommitOps(last.addon, last.result.outcome));
    }
  }

  /** The branch is pushed iff some addon was updated and the answer
      accepts; the push is the last operation, to origin with upstream
      tracking. */
  lemma TracePush(steps: seq<Step>, env: GitEnv)
    ensures HasPush(Trace(steps, env)) <==> AnyUpdated(steps) && Accepts(env.answer)
    ensures HasPush(Trace(steps, env)) ==>
      Trace(steps, env)[|Trace(steps, env)| - 1] == Push("origin", BranchName(env.date), true)
  {
    var setup := SetupOps(env);
    var finish := FinishOps(AnyUpdated(steps), env);
    StoppedTrace(steps, env);
    HasPushAppend(setup + LoopOps(steps), finish);
    if !AnyUpdated(steps) {
      CleanUpHasNoPush(env.branchesAtEnd, false);
    } else if Accepts(env.answer) {
      assert finish[0].Push?;
    }
  }

  lemma CleanUpHasNoPush(branches: seq<string>, force: bool)
    ensures !HasPush(CleanUpLocalBranches(branches, force))
  {
  }

  /** A run that updates nothing ends, after the setup, with only the
      non-forced deletion of the update branches, and that deletion
      happens iff such a branch exists; nothing is pushed. */
  lemma TraceWithoutUpdates(steps: seq<Step>, env: GitEnv)
    requires !AnyUpdated(steps)
    ensures Trace(steps, env) == SetupOps(env) + CleanUpLocalBranches(env.branchesAtEnd, false)
    ensures !HasPush(Trace(steps, env))
    ensures DeleteLocalBranches(UpdatesBranches(env.branchesAtEnd), false) in Trace(steps, env)
        <==> exists b :: b in env.branchesAtEnd && StartsWith(b, BranchPrefix)
  {
    assert LoopOps(steps) == [] by {
      NoUpdatesNoOps(steps);
    }
    TracePush(steps, env);
    var trace := Trace(steps, env);
    var setup := SetupOps(env);
    var clean := CleanUpLocalBranches(env.branchesAtEnd, false);
    assert trace == setup + clean;
    var del := DeleteLocalBranches(UpdatesBranches(env.branchesAtEnd), false);
    assert del !in setup by {
      assert forall i :: 0 <= i < |setup| ==> !(setup[i].DeleteLocalBranches? && !setup[i].force);
    }
    if del in trace {
      assert del in clean;
    }
    if |clean| == 1 {
      assert trace[|setup|] == del;
    }
  }

  lemma {:induction false} NoUpdatesNoOps(steps: seq<Step>)
    requires !AnyUpdated(steps)
    ensures LoopOps(steps) == []
    decreases |steps|
  {
    if |steps| > 0 {
      var init := steps[..|steps| - 1];
      assert !AnyUpdated(init) by {
        assert forall i :: 0 <= i < |init| ==> init[i] == steps[i];
      }
      NoUpdatesNoOps(init);
      assert !steps[|steps| - 1].result.outcome.Updated?;
    }
  }

  /** A run that updates nothing ends by asking git to delete, without
      force, every update branch, today's among them whenever it is listed
      at the end; the two operations before that request create today's
      branch and reset it, so it is still the checked-out branch. */
  lemma TodaysBranchCleanedUp(steps: seq<Step>, env: GitEnv)
    requires !AnyUpdated(steps)
    requires BranchName(env.date) in env.branchesAtEnd
    ensures var trace := Trace(steps, env);
      && |trace| >= 3
      && trace[|trace| - 1] == DeleteLocalBranches(UpdatesBranches(env.branchesAtEnd), false)
      && BranchName(env.date) in UpdatesBranches(env.branchesAtEnd)
      && trace[|trace| - 3] == CheckoutLocalBranch(BranchName(env.date))
      && trace[|trace| - 2] == ResetHard
  {
    TraceWithoutUpdates(steps, env);
    assert StartsWith(BranchName(env.date), BranchPrefix) by {
      ConcatEnds(BranchPrefix, "-" + env.date);
      assert BranchName(env.date) == BranchPrefix + ("-" + env.date);
    }
  }
}
