/** The `build` command: the argument list handed to `docker run` for the
    Home Assistant builder image. Spawning docker is left to the caller. */
module Build {

  /** The `--arch` option as the command line delivers it: absent (or
      empty), a single value, or a list of values. */
  datatype ArchOption = NoArch | Single(value: string) | List(values: seq<string>)

  /** The `build` options. `user` and `password` are "" when not given
      (their default is null, and only a truthy value counts). */
  datatype BuildOptions = BuildOptions(
    addon: string,
    arch: ArchOption,
    notest: bool,
    nocheck: bool,
    user: string,
    password: string)

  /** The builder's architecture flags. Without an option every
      architecture of the addon's configuration becomes `--<arch>`; a
      single value gets the prefix too; a list is passed through as it is. */
  function ArchFlags(arch: ArchOption, configArch: seq<string>): (flags: seq<string>)
    ensures (arch.NoArch? || arch == Single("")) ==>
      |flags| == |configArch| && forall i :: 0 <= i < |configArch| ==> flags[i] == "--" + configArch[i]
    ensures arch.Single? && arch.value != "" ==> flags == ["--" + arch.value]
    ensures arch.List? ==> flags == arch.values
  {
    match arch
    case NoArch => seq(|configArch|, i requires 0 <= i < |configArch| => "--" + configArch[i])
    case Single(v) =>
      if v == "" then seq(|configArch|, i requires 0 <= i < |configArch| => "--" + configArch[i])
      else ["--" + v]
    case List(vs) => vs
  }

  /** The fixed head of the argument list, up to and including `--addon`;
      `root` is the resolved repository root mounted read-only at /data. */
  function BaseArgs(root: string): seq<string> {
    [ "run", "--rm", "--privileged",
      "-v", "//var/run/docker.sock:/var/run/docker.sock:rw",
      "-v", root + ":/data:ro",
      "--name", "ha-builder",
      "homeassistant/amd64-builder:latest",
      "--addon" ]
  }

  const HubArgs: seq<string> := ["--docker-hub", "petersendev", "--docker-hub-check"]

  function CredentialArgs(user: string, password: string): seq<string> {
    ["--docker-user", user, "--docker-password", password]
  }

  predicate HasCredentials(opts: BuildOptions) {
    opts.user != "" && opts.password != ""
  }

  /** Everything up to the addon path: the fixed head, the architecture
      flags and `-t /data/<addon>`. */
  function Head(root: string, opts: BuildOptions, configArch: seq<string>): seq<string> {
    BaseArgs(root) + ArchFlags(opts.arch, configArch) + ["-t", "/data/" + opts.addon]
  }

  function TestGroup(notest: bool): seq<string> {
    if notest then [] else ["--test"]
  }

  function CredentialGroup(opts: BuildOptions): seq<string> {
    if HasCredentials(opts) then CredentialArgs(opts.user, opts.password) else []
  }

  function HubGroup(nocheck: bool): seq<string> {
    if nocheck then [] else HubArgs
  }

  /** The docker argument list: the fixed head, the architecture flags,
      `-t /data/<addon>`, then the optional groups, always in the order
      test, credentials, docker-hub check. */
  function DockerArgs(root: string, opts: BuildOptions, configArch: seq<string>): (args: seq<string>)
    ensures var flags := ArchFlags(opts.arch, configArch);
      var n := |BaseArgs(root)| + |flags| + 2;
      && |BaseArgs(root)| == 11
      && |args| == n + (if opts.notest then 0 else 1) + (if HasCredentials(opts) then 4 else 0)
                     + (if opts.nocheck then 0 else 3)
      && args[..11] == BaseArgs(root)
      && args[10] == "--addon"
      && args[11..11 + |flags|] == flags
      && args[n - 2] == "-t" && args[n - 1] == "/data/" + opts.addon
      && (!opts.notest ==> args[n] == "--test")
      && (HasCredentials(opts) ==>
            var c := n + (if opts.notest then 0 else 1);
            args[c..c + 4] == ["--docker-user", opts.user, "--docker-password", opts.password])
      && (!opts.nocheck ==> args[|args| - 3..] == HubArgs)
  {
    var head := Head(root, opts, configArch);
    var args := head + TestGroup(opts.notest) + CredentialGroup(opts) + HubGroup(opts.nocheck);
    FourParts(head, TestGroup(opts.notest), CredentialGroup(opts), HubGroup(opts.nocheck));
    FourParts(BaseArgs(root), ArchFlags(opts.arch, configArch), ["-t", "/data/" + opts.addon], []);
    HeadLength(root, opts, configArch);
    args
  }

  lemma HeadLength(root: string, opts: BuildOptions, configArch: seq<string>)
    ensures |BaseArgs(root)| == 11
    ensures |Head(root, opts, configArch)| == 13 + |ArchFlags(opts.arch, configArch)|
  {
  }

  /** A concatenation splits back at the length of its left part. */
  lemma SplitAt<T>(a: seq<T>, b: seq<T>)
    ensures (a + b)[..|a|] == a && (a + b)[|a|..] == b
  {
  }

  /** Each part of a four-part concatenation can be sliced back out. */
  lemma FourParts<T>(a: seq<T>, b: seq<T>, c: seq<T>, d: seq<T>)
    ensures var s := a + b + c + d;
      && s[..|a|] == a
      && s[|a|..|a| + |b|] == b
      && s[|a| + |b|..|a| + |b| + |c|] == c
      && s[|a| + |b| + |c|..] == d
  {
  }

  /** Turning the test step off removes exactly the `--test` argument and
      nothing else. */
  lemma TestFlagOnlyAddsTest(root: string, opts: BuildOptions, configArch: seq<string>)
    ensures var withTest := DockerArgs(root, opts.(notest := false), configArch);
      var without := DockerArgs(root, opts.(notest := true), configArch);
      var k := 13 + |ArchFlags(opts.arch, configArch)|;
      && k <= |without|
      && withTest == without[..k] + ["--test"] + without[k..]
  {
    var on, off := opts.(notest := false), opts.(notest := true);
    var head := Head(root, opts, configArch);
    var tail := CredentialGroup(opts) + HubGroup(opts.nocheck);
    HeadLength(root, opts, configArch);
    assert Head(root, on, configArch) == head && Head(root, off, configArch) == head;
    assert CredentialGroup(on) == CredentialGroup(opts) && CredentialGroup(off) == CredentialGroup(opts);
    assert DockerArgs(root, off, configArch) == head + tail by {
      assert head + [] + CredentialGroup(opts) + HubGroup(opts.nocheck) == head + tail;
    }
    assert DockerArgs(root, on, configArch) == head + ["--test"] + tail;
    SplitAt(head, tail);
  }

  /** Credentials are passed iff both a user and a password are given, and
      then as exactly the four arguments user flag, user, password flag,
      password, right after the optional `--test`. */
  lemma CredentialsIffBoth(root: string, opts: BuildOptions, configArch: seq<string>)
    ensures var a := DockerArgs(root, opts, configArch);
      var b := DockerArgs(root, opts.(user := "", password := ""), configArch);
      var c := 13 + |ArchFlags(opts.arch, configArch)| + (if opts.notest then 0 else 1);
      && c <= |b|
      && (HasCredentials(opts) ==> a == b[..c] + CredentialArgs(opts.user, opts.password) + b[c..])
      && (!HasCredentials(opts) ==> a == b)
  {
    var head := Head(root, opts, configArch) + TestGroup(opts.notest);
    var hub := HubGroup(opts.nocheck);
    HeadLength(root, opts, configArch);
    assert DockerArgs(root, opts.(user := "", password := ""), configArch) == head + hub;
    assert DockerArgs(root, opts, configArch) == head + CredentialGroup(opts) + hub;
    SplitAt(head, hub);
  }
}
