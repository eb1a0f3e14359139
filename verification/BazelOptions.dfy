/** The wrapped command line, spelled out. */
module BazelOptions {
  import opened Text
  import opened BazelWrapper

  // --- the environment ---

  predicate Has(env: Env, name: string, value: string) { name in env && env[name] == value }

  /** A variable that is set to something. */
  predicate IsSet(env: Env, name: string) { name in env && env[name] != "" }

  /** A workflow run of the upstream repository that is no pull request, or whose pull request provably comes from
      the repository itself. */
  predicate UpstreamRun(s: Setting) {
    && Has(s.env, "GITHUB_ACTIONS", "true") && Has(s.env, "GITHUB_REPOSITORY", "openai/codex")
    && (Has(s.env, "GITHUB_EVENT_NAME", "pull_request") ==> IsSet(s.env, "GITHUB_EVENT_PATH") && s.fork == Some(false))
  }

  // --- the arguments ---

  predicate CiConfig(arg: string) {
    || arg == "--config=ci-linux" || arg == "--config=ci-macos" || arg == "--config=ci-v8"
    || arg == "--config=ci-windows-cross"
  }

  /** One of the four configurations stands before the separator. */
  predicate AsksForCi(args: Args) {
    exists i :: 0 <= i < |args| && CiConfig(args[i]) && forall j :: 0 <= j < i ==> args[j] != "--"
  }

  predicate StartsWith(arg: string, prefix: string) { |prefix| <= |arg| && arg[..|prefix|] == prefix }

  /** The command is the first argument without a leading dash. */
  predicate CommandAt(args: Args, c: nat) {
    && c < |args| && !StartsWith(args[c], "-") && forall i :: 0 <= i < c ==> StartsWith(args[i], "-")
  }

  predicate SeparatorAt(args: Args, k: nat) {
    && k <= |args| && (k < |args| ==> args[k] == "--") && forall i :: 0 <= i < k ==> args[i] != "--"
  }

  /** The option for a cache directory, unless the variable is unset or such an option is there. */
  function CacheOption(env: Env, name: string, option: string, before: Args): Args {
    if IsSet(env, name) && forall i :: 0 <= i < |before| ==> !StartsWith(before[i], option)
    then [option + env[name]] else []
  }

  /** The list with the options for the two caches in front of its separator, or at its end. */
  predicate WithCaches(env: Env, args: Args, out: Args) {
    exists k :: && 0 <= k <= |args| && SeparatorAt(args, k)
                && out == args[..k] + CacheOption(env, "BAZEL_REPO_CONTENTS_CACHE", "--repo_contents_cache=", args[..k])
                                    + CacheOption(env, "BAZEL_REPOSITORY_CACHE", "--repository_cache=", args[..k])
                                    + args[k..]
  }

  // --- the wrapper's words ---

  lemma TrustedMeans(s: Setting)
    ensures Trusted(s) <==> UpstreamRun(s)
  {}

  lemma RemoteMeans(arg: string)
    ensures Remote(arg) <==> CiConfig(arg)
  {}

  lemma DashedMeans(arg: string, prefix: string)
    ensures prefix <= arg <==> StartsWith(arg, prefix)
  {}

  lemma CommandMeans(args: Args, c: nat)
    ensures c < |args| && CommandIndex(args) == c <==> CommandAt(args, c)
  {
    forall i | 0 <= i < |args| ensures Dashed(args[i]) <==> StartsWith(args[i], "-") { DashedMeans(args[i], "-"); }
    if CommandAt(args, c) { FirstIndexIs(args, (a: string) => !Dashed(a), c); }
    if CommandIndex(args) == c < |args| { CommandDashes(args); }
  }

  lemma HeadMeans(args: Args)
    ensures SeparatorAt(args, |Head(args)|)
    ensures Head(args) == args[..|Head(args)|] && Payload(args) == args[|Head(args)|..]
  {}

  lemma UsesMeans(args: Args)
    ensures UsesExecution(args) <==> AsksForCi(args)
  {
    hide Remote, CiConfig, Head;
    forall a ensures Remote(a) <==> CiConfig(a) { RemoteMeans(a); }
    HeadMeans(args);
    var k := |Head(args)|;
    assert !CiConfig("--") by { NoCi(); }
    if UsesExecution(args) {
      var a :| a in Head(args) && Remote(a);
      var i :| 0 <= i < k && args[i] == a;
      assert CiConfig(args[i]);
    }
    if AsksForCi(args) {
      var i :| 0 <= i < |args| && CiConfig(args[i]) && forall j :: 0 <= j < i ==> args[j] != "--";
      assert i < k;
      assert Head(args)[i] == args[i];
    }
  }

  lemma NoCi()
    ensures !CiConfig("--")
  {}

  lemma CacheMeans(env: Env, name: string, option: string, before: Args)
    ensures CacheArg(env, name, option, before) == CacheOption(env, name, option, before)
  {
    forall i | 0 <= i < |before| ensures option <= before[i] <==> StartsWith(before[i], option) {
      DashedMeans(before[i], option);
    }
    assert forall a :: a in before ==> exists i :: 0 <= i < |before| && before[i] == a;
    hide StartsWith;
    if (forall a :: a in before ==> !(option <= a)) {
      assert forall i :: 0 <= i < |before| ==> before[i] in before;
    }
  }

  lemma Cached(env: Env, args: Args)
    ensures WithCaches(env, args, Head(args) + CacheArgs(env, Head(args)) + Payload(args))
  {
    hide Head, Payload, CacheArg, CacheOption, SeparatorAt;
    var h := Head(args);
    HeadMeans(args);
    CacheMeans(env, "BAZEL_REPO_CONTENTS_CACHE", "--repo_contents_cache=", h);
    CacheMeans(env, "BAZEL_REPOSITORY_CACHE", "--repository_cache=", h);
    Assoc(h, CacheOption(env, "BAZEL_REPO_CONTENTS_CACHE", "--repo_contents_cache=", h),
          CacheOption(env, "BAZEL_REPOSITORY_CACHE", "--repository_cache=", h));
  }

  // --- the wrapped command line ---

  /** The configuration for a run with a key: the OpenAI host exactly for upstream runs, with remote execution
      exactly for the four configurations. */
  lemma ConfigSpelled(args: Args, s: Setting)
    ensures UpstreamRun(s) && AsksForCi(args) ==> RemoteConfig(args, s) == "buildbuddy-openai-rbe"
    ensures UpstreamRun(s) && !AsksForCi(args) ==> RemoteConfig(args, s) == "buildbuddy-openai"
    ensures !UpstreamRun(s) && AsksForCi(args) ==> RemoteConfig(args, s) == "buildbuddy-generic-rbe"
    ensures !UpstreamRun(s) && !AsksForCi(args) ==> RemoteConfig(args, s) == "buildbuddy-generic"
  {
    hide UsesExecution, AsksForCi, Trusted, UpstreamRun;
    TrustedMeans(s);
    UsesMeans(args);
    assert "buildbuddy-openai" + "-rbe" == "buildbuddy-openai-rbe" && "buildbuddy-openai" + "" == "buildbuddy-openai";
    assert "buildbuddy-generic" + "-rbe" == "buildbuddy-generic-rbe" && "buildbuddy-generic" + "" == "buildbuddy-generic";
  }

  /** The configuration option of a run with a key. */
  function ConfigOption(args: Args, s: Setting): string {
    if UpstreamRun(s) && AsksForCi(args) then "--config=buildbuddy-openai-rbe"
    else if UpstreamRun(s) then "--config=buildbuddy-openai"
    else if AsksForCi(args) then "--config=buildbuddy-generic-rbe"
    else "--config=buildbuddy-generic"
  }

  lemma RemoteSpelled(args: Args, s: Setting)
    requires IsSet(s.env, "BUILDBUDDY_API_KEY")
    ensures RemoteArgs(args, s)
         == [ConfigOption(args, s), "--remote_header=x-buildbuddy-api-key=" + s.env["BUILDBUDDY_API_KEY"]]
  {
    hide AsksForCi, UpstreamRun, RemoteConfig;
    ConfigSpelled(args, s);
    OptionTexts();
  }

  lemma OptionTexts()
    ensures "--config=" + "buildbuddy-openai-rbe" == "--config=buildbuddy-openai-rbe"
    ensures "--config=" + "buildbuddy-openai" == "--config=buildbuddy-openai"
    ensures "--config=" + "buildbuddy-generic-rbe" == "--config=buildbuddy-generic-rbe"
    ensures "--config=" + "buildbuddy-generic" == "--config=buildbuddy-generic"
  {}

  /** With a key: directly behind the command the configuration, then the header with the key; in front of the
      separator the options for the caches. */
  lemma KeySpelled(args: Args, s: Setting, c: nat)
    requires IsSet(s.env, "BUILDBUDDY_API_KEY") && CommandAt(args, c)
    ensures var header := "--remote_header=x-buildbuddy-api-key=" + s.env["BUILDBUDDY_API_KEY"];
            && BazelArgs(args, s).Some?
            && WithCaches(s.env, args[..c + 1] + [ConfigOption(args, s), header] + args[c + 1..], BazelArgs(args, s).value)
            && (CommandFirst(args) ==>
                  && |BazelArgs(args, s).value| >= |args| + 2
                  && BazelArgs(args, s).value[c + 1] == ConfigOption(args, s)
                  && BazelArgs(args, s).value[c + 2] == header)
  {
    hide ConfigOption, RemoteArgs, WithCaches, Head, Payload, CacheArgs, CommandIndex, StartsWith;
    CommandMeans(args, c);
    RemoteSpelled(args, s);
    Cached(s.env, Configured(args, s));
    if CommandFirst(args) {
      var h := Head(args);
      WithKey(args, s);
      HeadMeans(args);
      AtFront(h, c, RemoteArgs(args, s), CacheArgs(s.env, h[..c + 1] + RemoteArgs(args, s) + h[c + 1..]), Payload(args));
    }
  }

  lemma AtFront(h: Args, c: nat, remote: Args, cache: Args, p: Args)
    requires c < |h| && |remote| == 2
    ensures var out := h[..c + 1] + remote + h[c + 1..] + cache + p;
            |out| >= |h| + |p| + 2 && out[c + 1] == remote[0] && out[c + 2] == remote[1]
  {}

  /** Without a key: the four configurations are dropped before the separator, nothing else is. */
  lemma NoKeySpelled(args: Args, s: Setting, c: nat, k: nat)
    requires !IsSet(s.env, "BUILDBUDDY_API_KEY") && CommandAt(args, c) && SeparatorAt(args, k)
    ensures BazelArgs(args, s).Some?
    ensures WithCaches(s.env, Keep(args[..k]) + args[k..], BazelArgs(args, s).value)
  {
    hide WithCaches, Head, Payload, CacheArgs, CommandIndex, CommandAt, Keep;
    CommandMeans(args, c);
    HeadMeans(args);
    assert k == |Head(args)|;
    Cached(s.env, Configured(args, s));
  }

  /** What is dropped: argument by argument, exactly the four configurations. */
  lemma Dropped(a: Args, arg: string)
    ensures Keep([]) == []
    ensures Keep(a + [arg]) == if CiConfig(arg) then Keep(a) else Keep(a) + [arg]
  {
    KeepConcat(a, [arg]);
    RemoteMeans(arg);
    hide Remote, CiConfig;
    assert [arg][1..] == [];
    assert Keep([arg]) == if Remote(arg) then [] else [arg];
    assert Keep(a) + [] == Keep(a);
  }

  /** Without a command there is no command line. */
  lemma CommandNeeded(args: Args, s: Setting)
    ensures BazelArgs(args, s).None? <==> forall i :: 0 <= i < |args| ==> StartsWith(args[i], "-")
    ensures Command(args, s).None? <==> BazelArgs(args, s).None?
  {
    hide StartsWith, Configured, Head, Payload, CacheArgs, Startup;
    forall i | 0 <= i < |args| ensures Dashed(args[i]) <==> StartsWith(args[i], "-") { DashedMeans(args[i], "-"); }
    CommandDashes(args);
  }

  /** In front of everything: the output root, if there is one and none is given, and on GitHub the option against
      the repository cache, unless the caller chose. */
  lemma StartupSpelled(args: Args, s: Setting, c: nat)
    requires CommandAt(args, c)
    ensures var root := IsSet(s.env, "BAZEL_OUTPUT_USER_ROOT")
                        && forall i :: 0 <= i < c ==> !StartsWith(args[i], "--output_user_root=");
            var off := Has(s.env, "GITHUB_ACTIONS", "true")
                       && forall i :: 0 <= i < c ==> && args[i] != "--experimental_remote_repo_contents_cache"
                                                     && args[i] != "--noexperimental_remote_repo_contents_cache";
            && Command(args, s).Some? && BazelArgs(args, s).Some?
            && Command(args, s).value
               == (if root then ["--output_user_root=" + s.env["BAZEL_OUTPUT_USER_ROOT"]] else [])
                  + (if off then ["--noexperimental_remote_repo_contents_cache"] else [])
                  + BazelArgs(args, s).value
  {
    hide StartsWith, BazelArgs, CommandAt, CommandIndex;
    CommandMeans(args, c);
    CommandNeeded(args, s);
    SomeCommand(args, c);
    var before := args[..c];
    forall i | 0 <= i < c
      ensures ("--output_user_root=" <= args[i] <==> StartsWith(args[i], "--output_user_root=")) && args[i] in before
    {
      assert before[i] == args[i];
      DashedMeans(args[i], "--output_user_root=");
    }
    assert forall a :: a in before ==> exists i :: 0 <= i < c && args[i] == a;
  }

  lemma SomeCommand(args: Args, c: nat)
    requires CommandAt(args, c)
    ensures c < |args| && !StartsWith(args[c], "-")
  {}
}
