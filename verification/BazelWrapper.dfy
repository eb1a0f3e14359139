/** The wrapper that adds BuildBuddy and cache options to a Bazel command line. */
module BazelWrapper {
  import opened Text

  type Args = seq<string>
  type Env = map<string, string>

  /** The environment, and what the event file says of the pull request: whether its head is a fork. */
  datatype Setting = Setting(env: Env, fork: Option<bool>)

  /** `env.get(name)`, where an empty value counts as absent. */
  function Value(env: Env, name: string): Option<string> {
    if name in env && env[name] != "" then Some(env[name]) else None
  }

  predicate Is(env: Env, name: string, value: string) { name in env && env[name] == value }

  predicate Dashed(arg: string) { "-" <= arg }

  const SEPARATOR := "--"

  /** The index of the first argument with a property, or the number of arguments. */
  function FirstIndex(args: Args, p: string -> bool): (k: nat)
    ensures k <= |args|
    ensures k < |args| ==> p(args[k])
    ensures forall i :: 0 <= i < k ==> !p(args[i])
  {
    if args == [] || p(args[0]) then 0 else 1 + FirstIndex(args[1..], p)
  }

  lemma FirstIndexIs(args: Args, p: string -> bool, k: nat)
    requires k <= |args| && (k < |args| ==> p(args[k])) && forall i :: 0 <= i < k ==> !p(args[i])
    ensures FirstIndex(args, p) == k
  {
    var j := FirstIndex(args, p);
    assert j < |args| ==> p(args[j]);
  }

  function CommandIndex(args: Args): (k: nat)
    ensures k <= |args|
  {
    FirstIndex(args, (a: string) => !Dashed(a))
  }

  /** The part before the separator, and the separator with the payload. */
  function Head(args: Args): Args { args[..FirstIndex(args, (a: string) => a == SEPARATOR)] }

  function Payload(args: Args): Args { args[FirstIndex(args, (a: string) => a == SEPARATOR)..] }

  predicate Separated(head: Args, payload: Args) {
    SEPARATOR !in head && (payload != [] ==> payload[0] == SEPARATOR)
  }

  lemma Split(args: Args)
    ensures Head(args) + Payload(args) == args && Separated(Head(args), Payload(args))
  {}

  lemma SplitIs(head: Args, payload: Args)
    requires Separated(head, payload)
    ensures Head(head + payload) == head && Payload(head + payload) == payload
  {
    FirstIndexIs(head + payload, (a: string) => a == SEPARATOR, |head|);
  }

  const EXECUTION_CONFIGS: seq<string> :=
    ["--config=ci-linux", "--config=ci-macos", "--config=ci-v8", "--config=ci-windows-cross"]

  predicate Remote(arg: string) { arg in EXECUTION_CONFIGS }

  function Keep(args: Args): (kept: Args)
    ensures forall a :: a in kept <==> a in args && !Remote(a)
  {
    if args == [] then [] else (if Remote(args[0]) then [] else [args[0]]) + Keep(args[1..])
  }

  // --- startup options ---

  const ROOT_OPTION := "--output_user_root="
  const NO_CACHE_OPTION := "--noexperimental_remote_repo_contents_cache"
  const CACHE_OPTION := "--experimental_remote_repo_contents_cache"

  predicate NeedsRoot(before: Args, env: Env) {
    Value(env, "BAZEL_OUTPUT_USER_ROOT").Some? && forall a :: a in before ==> !(ROOT_OPTION <= a)
  }

  predicate NeedsNoCache(before: Args, env: Env) {
    Is(env, "GITHUB_ACTIONS", "true") && CACHE_OPTION !in before && NO_CACHE_OPTION !in before
  }

  function Startup(args: Args, env: Env): Args {
    var before := args[..CommandIndex(args)];
    (if NeedsRoot(before, env) then [ROOT_OPTION + env["BAZEL_OUTPUT_USER_ROOT"]] else [])
    + (if NeedsNoCache(before, env) then [NO_CACHE_OPTION] else [])
  }

  /** `startup_args` */
  method StartupArgs(args: Args, env: Env) returns (injected: Args)
    ensures injected == Startup(args, env)
  {
    var before := args[..CommandIndex(args)];
    injected := [];
    if NeedsRoot(before, env) { injected := injected + [ROOT_OPTION + env["BAZEL_OUTPUT_USER_ROOT"]]; }
    if NeedsNoCache(before, env) { injected := injected + [NO_CACHE_OPTION]; }
  }

  // --- the remote configuration ---

  predicate Trusted(s: Setting) {
    && Is(s.env, "GITHUB_ACTIONS", "true") && Is(s.env, "GITHUB_REPOSITORY", "openai/codex")
    && (!Is(s.env, "GITHUB_EVENT_NAME", "pull_request")
        || (Value(s.env, "GITHUB_EVENT_PATH").Some? && s.fork == Some(false)))
  }

  function Key(s: Setting): Option<string> { Value(s.env, "BUILDBUDDY_API_KEY") }

  predicate UsesExecution(args: Args) { exists a :: a in Head(args) && Remote(a) }

  function RemoteConfig(args: Args, s: Setting): string {
    (if Trusted(s) then "buildbuddy-openai" else "buildbuddy-generic")
    + (if UsesExecution(args) then "-rbe" else "")
  }

  function RemoteArgs(args: Args, s: Setting): (r: Args)
    requires Key(s).Some?
    ensures |r| == 2
  {
    ["--config=" + RemoteConfig(args, s), "--remote_header=x-buildbuddy-api-key=" + Key(s).value]
  }

  /** After the command the remote options, or without a key the list without execution configs. */
  function Configured(args: Args, s: Setting): Args {
    var c := CommandIndex(args);
    if Key(s).None? then Keep(Head(args)) + Payload(args)
    else if c == |args| then args
    else args[..c + 1] + RemoteArgs(args, s) + args[c + 1..]
  }

  const REPO_CACHE := "--repo_contents_cache="
  const REPOSITORY_CACHE := "--repository_cache="

  function CacheArg(env: Env, name: string, prefix: string, before: Args): Args {
    if Value(env, name).Some? && forall a :: a in before ==> !(prefix <= a) then [prefix + env[name]] else []
  }

  function CacheArgs(env: Env, before: Args): Args {
    CacheArg(env, "BAZEL_REPO_CONTENTS_CACHE", REPO_CACHE, before)
    + CacheArg(env, "BAZEL_REPOSITORY_CACHE", REPOSITORY_CACHE, before)
  }

  /** `bazel_args_with_remote_config`; nothing without a command. */
  function BazelArgs(args: Args, s: Setting): Option<Args> {
    if CommandIndex(args) == |args| then None
    else
      var configured := Configured(args, s);
      Some(Head(configured) + CacheArgs(s.env, Head(configured)) + Payload(configured))
  }

  /** `bazel_command` without the program itself. */
  function Command(args: Args, s: Setting): Option<Args> {
    match BazelArgs(args, s)
    case None => None
    case Some(rest) => Some(Startup(args, s.env) + rest)
  }

  // --- the payload ---

  lemma CacheArgsPlain(env: Env, before: Args)
    ensures forall a :: a in CacheArgs(env, before) ==> Dashed(a) && a != SEPARATOR && !Remote(a)
  {
    PrefixPlain(REPO_CACHE);
    PrefixPlain(REPOSITORY_CACHE);
  }

  lemma PrefixPlain(prefix: string)
    requires prefix == REPO_CACHE || prefix == REPOSITORY_CACHE
    ensures forall v: string :: Dashed(prefix + v) && prefix + v != SEPARATOR && !Remote(prefix + v)
  {
    forall v: string ensures Dashed(prefix + v) && prefix + v != SEPARATOR && !Remote(prefix + v) {
      var a := prefix + v;
      assert a[0] == '-' && a[2] == 'r';
      assert forall k :: 0 <= k < |EXECUTION_CONFIGS| ==> EXECUTION_CONFIGS[k][2] == 'c';
    }
  }

  lemma RemoteArgsPlain(args: Args, s: Setting)
    requires Key(s).Some?
    ensures forall a :: a in RemoteArgs(args, s) ==> Dashed(a) && a != SEPARATOR
  {
    var r := RemoteArgs(args, s);
    assert r[0][2] == 'c' && r[0][0] == '-' && r[1][2] == 'r' && r[1][0] == '-';
  }

  lemma {:induction false} KeepConcat(a: Args, b: Args)
    ensures Keep(a + b) == Keep(a) + Keep(b)
  {
    if a == [] {
      assert a + b == b;
    } else {
      assert (a + b)[1..] == a[1..] + b;
      KeepConcat(a[1..], b);
    }
  }

  lemma {:induction false} KeepAll(a: Args)
    requires forall x :: x in a ==> !Remote(x)
    ensures Keep(a) == a
  {
    if a != [] {
      assert a[0] in a;
      KeepAll(a[1..]);
    }
  }

  lemma CommandIsNotRemote(a: string)
    requires !Dashed(a)
    ensures !Remote(a) && a != SEPARATOR
  {
    assert forall k :: 0 <= k < |EXECUTION_CONFIGS| ==> EXECUTION_CONFIGS[k][0] == '-';
  }

  /** Without a key: the head is filtered and the cache options stand before the separator. */
  lemma WithoutKey(args: Args, s: Setting)
    requires Key(s).None? && CommandIndex(args) < |args|
    ensures var kept := Keep(Head(args));
            var out := kept + CacheArgs(s.env, kept) + Payload(args);
            && BazelArgs(args, s) == Some(out)
            && Separated(kept + CacheArgs(s.env, kept), Payload(args))
            && Head(out) == kept + CacheArgs(s.env, kept) && Payload(out) == Payload(args)
  {
    hide CacheArgs, Head, Payload;
    var kept := Keep(Head(args));
    Split(args);
    SplitIs(kept, Payload(args));
    CacheArgsPlain(s.env, kept);
    SplitIs(kept + CacheArgs(s.env, kept), Payload(args));
  }

  /** The command stands before the payload. */
  predicate CommandFirst(args: Args) { CommandIndex(args) < |Head(args)| }

  /** With a key: the remote options directly after the command, the cache options before the
      separator, everything else as it was. */
  lemma WithKey(args: Args, s: Setting)
    requires Key(s).Some? && CommandFirst(args)
    ensures var c := CommandIndex(args);
            var h := Head(args);
            var head := h[..c + 1] + RemoteArgs(args, s) + h[c + 1..];
            var out := head + CacheArgs(s.env, head) + Payload(args);
            && BazelArgs(args, s) == Some(out)
            && Head(out) == head + CacheArgs(s.env, head) && Payload(out) == Payload(args)
  {
    hide CacheArgs, Head, Payload, RemoteArgs, CommandIndex;
    var c := CommandIndex(args);
    var h, p := Head(args), Payload(args);
    var head := h[..c + 1] + RemoteArgs(args, s) + h[c + 1..];
    Split(args);
    RemoteArgsPlain(args, s);
    assert args[..c + 1] == h[..c + 1] && args[c + 1..] == h[c + 1..] + p;
    assert Configured(args, s) == head + p;
    SplitIs(head, p);
    CacheArgsPlain(s.env, head);
    SplitIs(head + CacheArgs(s.env, head), p);
  }

  /** A command inside the payload gets the remote options there. */
  lemma CommandInPayload(args: Args, s: Setting)
    requires Key(s).Some? && CommandIndex(args) < |args| && !CommandFirst(args)
    ensures BazelArgs(args, s).Some? && |Payload(BazelArgs(args, s).value)| == |Payload(args)| + 2
  {
    hide CacheArgs, Head, Payload, RemoteArgs, CommandIndex;
    var c := CommandIndex(args);
    var h, p := Head(args), Payload(args);
    Split(args);
    CommandDashes(args);
    assert p[0] == args[|h|];
    var d := c - |h|;
    var payload := p[..d + 1] + RemoteArgs(args, s) + p[d + 1..];
    assert args[..c + 1] == h + p[..d + 1] && args[c + 1..] == p[d + 1..];
    assert Configured(args, s) == h + payload;
    SplitIs(h, payload);
    CacheArgsPlain(s.env, h);
    SplitIs(h + CacheArgs(s.env, h), payload);
  }

  lemma CommandDashes(args: Args)
    ensures CommandIndex(args) < |args| ==> !Dashed(args[CommandIndex(args)]) && args[CommandIndex(args)] != SEPARATOR
    ensures forall i :: 0 <= i < CommandIndex(args) ==> Dashed(args[i])
  {}

  /** What follows the separator is left alone exactly if there is no key or the command comes first. */
  lemma PayloadKept(args: Args, s: Setting)
    requires BazelArgs(args, s).Some?
    ensures Payload(BazelArgs(args, s).value) == Payload(args) <==> Key(s).None? || CommandFirst(args)
  {
    hide Head, Payload, CacheArgs, RemoteArgs;
    if Key(s).None? {
      WithoutKey(args, s);
    } else if CommandFirst(args) {
      WithKey(args, s);
    } else {
      CommandInPayload(args, s);
    }
  }

  lemma Pieces(a: Args, r: Args, b: Args, x: Args, p: Args)
    ensures var out := a + r + b + x + p;
            var k := |a| + |r| + |b|;
            && out[..|a|] == a && out[|a|..|a| + |r|] == r && out[|a| + |r|..k] == b && out[k + |x|..] == p
  {}

  /** Taking the wrapper's options out again gives back the caller's list, in order; without a key
      it is the list without the execution configs before the separator. */
  lemma CallerRecovered(args: Args, s: Setting)
    requires BazelArgs(args, s).Some? && (Key(s).None? || CommandFirst(args))
    ensures var out := BazelArgs(args, s).value;
            var c := CommandIndex(args);
            if Key(s).None? then
              var k := |Keep(Head(args))|;
              var n := |CacheArgs(s.env, Keep(Head(args)))|;
              k + n <= |out| && out[..k] + out[k + n..] == Keep(Head(args)) + Payload(args)
            else
              var k := |Head(args)| + 2;
              var n := |out| - |args| - 2;
              && c + 3 <= k && n >= 0 && k + n <= |out|
              && out[c + 1..c + 3] == RemoteArgs(args, s)
              && out[..c + 1] + out[c + 3..k] + out[k + n..] == args
  {
    hide Head, Payload, CacheArgs, CommandIndex, RemoteArgs, Keep, Configured;
    Split(args);
    if Key(s).None? {
      WithoutKey(args, s);
    } else {
      WithKey(args, s);
      var c := CommandIndex(args);
      var h := Head(args);
      var remote := RemoteArgs(args, s);
      var head := h[..c + 1] + remote + h[c + 1..];
      Pieces(h[..c + 1], remote, h[c + 1..], CacheArgs(s.env, head), Payload(args));
      assert h[..c + 1] + h[c + 1..] == h;
    }
  }

  // --- the wrapper on its own output ---

  lemma CommandIndexIs(b: Args, cmd: string, rest: Args)
    requires (forall a :: a in b ==> Dashed(a)) && !Dashed(cmd)
    ensures CommandIndex(b + [cmd] + rest) == |b|
  {
    var args := b + [cmd] + rest;
    assert args[|b|] == cmd;
    assert forall i :: 0 <= i < |b| ==> args[i] == b[i] && b[i] in b;
    FirstIndexIs(args, (a: string) => !Dashed(a), |b|);
  }

  /** The arguments before the command, and from it on. */
  lemma AtCommand(args: Args)
    requires CommandIndex(args) < |args|
    ensures var c := CommandIndex(args);
            && args == args[..c] + [args[c]] + args[c + 1..]
            && !Dashed(args[c]) && forall a :: a in args[..c] ==> Dashed(a)
  {
    CommandDashes(args);
  }

  lemma StartupPlain(args: Args, env: Env)
    ensures forall a :: a in Startup(args, env) ==> Dashed(a) && a != SEPARATOR && !Remote(a)
  {
    assert forall k :: 0 <= k < |EXECUTION_CONFIGS| ==> EXECUTION_CONFIGS[k][2] == 'c';
    forall v: string ensures Dashed(ROOT_OPTION + v) && ROOT_OPTION + v != SEPARATOR && !Remote(ROOT_OPTION + v) {
      assert (ROOT_OPTION + v)[0] == '-' && (ROOT_OPTION + v)[2] == 'o';
    }
    assert NO_CACHE_OPTION[0] == '-' && NO_CACHE_OPTION[2] == 'n';
  }

  /** What decides about the startup options: these are present. */
  predicate StartupDone(before: Args, env: Env) { !NeedsRoot(before, env) && !NeedsNoCache(before, env) }

  lemma StartupSettles(args: Args, env: Env, before: Args)
    requires var u := Startup(args, env);
             && (forall a :: a in u ==> a in before)
             && (forall a :: a in args[..CommandIndex(args)] && !Remote(a) ==> a in before)
    ensures StartupDone(before, env)
  {
    assert forall k :: 0 <= k < |EXECUTION_CONFIGS| ==> EXECUTION_CONFIGS[k][2] == 'c';
    assert CACHE_OPTION[2] == 'e' && NO_CACHE_OPTION[2] == 'n' && ROOT_OPTION[2] == 'o';
    var configured := args[..CommandIndex(args)];
    if NeedsRoot(configured, env) {
      assert ROOT_OPTION + env["BAZEL_OUTPUT_USER_ROOT"] in Startup(args, env);
    } else if Value(env, "BAZEL_OUTPUT_USER_ROOT").Some? {
      var a :| a in configured && ROOT_OPTION <= a;
      assert a[2] == 'o';
    }
    if NeedsNoCache(configured, env) { assert NO_CACHE_OPTION in Startup(args, env); }
  }

  /** The command of the filtered list when it stands in the head. */
  lemma CommandInHead(b: Args, cmd: string, rest: Args, cache: Args, p: Args)
    requires (forall a :: a in b ==> Dashed(a)) && !Dashed(cmd)
    ensures var out := Keep(b + [cmd] + rest) + cache + p;
            CommandIndex(out) == |Keep(b)| && |Keep(b)| < |out| && out[..|Keep(b)|] == Keep(b)
  {
    CommandIsNotRemote(cmd);
    KeepConcat(b + [cmd], rest);
    KeepConcat(b, [cmd]);
    assert Keep([cmd]) == [cmd];
    var more := Keep(rest) + cache + p;
    Assoc(Keep(b) + [cmd], Keep(rest), cache);
    Assoc(Keep(b) + [cmd], Keep(rest) + cache, p);
    CommandIndexIs(Keep(b), cmd, more);
  }

  /** … and when it stands in the payload. */
  lemma CommandBehind(h: Args, q: Args, cmd: string, rest: Args, cache: Args)
    requires (forall a :: a in h || a in q || a in cache ==> Dashed(a)) && !Dashed(cmd)
    ensures var out := Keep(h) + cache + (q + [cmd] + rest);
            var b := Keep(h) + cache + q;
            CommandIndex(out) == |b| && |b| < |out| && out[..|b|] == b
  {
    var b := Keep(h) + cache + q;
    var out := Keep(h) + cache + (q + [cmd] + rest);
    assert out == b + [cmd] + rest;
    CommandIndexIs(b, cmd, rest);
  }

  /** The caller's arguments before the command stay before the command. */
  lemma OutAtCommand(args: Args, cache: Args)
    requires CommandIndex(args) < |args|
    requires forall a :: a in cache ==> Dashed(a)
    ensures var out := Keep(Head(args)) + cache + Payload(args);
            && CommandIndex(out) < |out|
            && forall a :: a in args[..CommandIndex(args)] && !Remote(a) ==> a in out[..CommandIndex(out)]
  {
    hide Keep, CommandIndex, Head, Payload, Remote;
    var c := CommandIndex(args);
    var h, p := Head(args), Payload(args);
    Split(args);
    AtCommand(args);
    if c < |h| {
      assert h == h[..c] + [args[c]] + h[c + 1..];
      assert args[..c] == h[..c];
      CommandInHead(h[..c], args[c], h[c + 1..], cache, p);
    } else {
      var d := c - |h|;
      assert p == p[..d] + [args[c]] + p[d + 1..];
      assert args[..c] == h + p[..d];
      CommandBehind(h, p[..d], args[c], p[d + 1..], cache);
    }
  }

  lemma CacheSettled(env: Env, before: Args, more: Args)
    requires forall a :: a in before || a in CacheArgs(env, before) ==> a in more
    ensures CacheArgs(env, more) == []
  {
    OneSettled(env, "BAZEL_REPO_CONTENTS_CACHE", REPO_CACHE, before, more);
    OneSettled(env, "BAZEL_REPOSITORY_CACHE", REPOSITORY_CACHE, before, more);
  }

  lemma OneSettled(env: Env, name: string, prefix: string, before: Args, more: Args)
    requires forall a :: a in before || a in CacheArg(env, name, prefix, before) ==> a in more
    ensures CacheArg(env, name, prefix, more) == []
  {
    if Value(env, name).Some? {
      if forall a :: a in before ==> !(prefix <= a) {
        assert prefix + env[name] in more && prefix <= prefix + env[name];
      } else {
        var a :| a in before && prefix <= a;
        assert a in more;
      }
    }
  }

  /** Without a key, the wrapper leaves its own output as it is. */
  lemma NoKeyFixed(args: Args, s: Setting)
    requires Key(s).None? && CommandIndex(args) < |args|
    ensures Command(args, s).Some? && Command(Command(args, s).value, s) == Command(args, s)
  {
    hide CacheArgs, Head, Payload, CommandIndex, StartupDone, Startup;
    var u := Startup(args, s.env);
    var kept := Keep(Head(args));
    var cache := CacheArgs(s.env, kept);
    var p := Payload(args);
    WithoutKey(args, s);
    CacheArgsPlain(s.env, kept);
    StartupPlain(args, s.env);
    var out := kept + cache + p;
    OutAtCommand(args, cache);
    AtCommand(out);
    var k := CommandIndex(out);
    var again := u + out;
    assert again == (u + out[..k]) + [out[k]] + out[k + 1..];
    CommandIndexIs(u + out[..k], out[k], out[k + 1..]);
    assert again[..|u| + k] == u + out[..k];
    StartupSettles(args, s.env, u + out[..k]);
    NoStartup(again, s.env);
    SameAgain(u, kept, cache, p, s, again);
    assert [] + again == again;
  }

  lemma NoStartup(args: Args, env: Env)
    requires StartupDone(args[..CommandIndex(args)], env)
    ensures Startup(args, env) == []
  {}

  /** The wrapper completes the startup options once: nothing is injected exactly if nothing is missing, and
      in front of the same arguments the injected options leave nothing to inject. */
  lemma StartupOnce(args: Args, env: Env)
    ensures Startup(args, env) == [] <==> StartupDone(args[..CommandIndex(args)], env)
    ensures Startup(Startup(args, env) + args, env) == []
  {
    var u := Startup(args, env);
    var c := CommandIndex(args);
    var again := u + args;
    StartupPlain(args, env);
    CommandDashes(args);
    FirstIndexIs(again, a => !Dashed(a), |u| + c);
    assert again[..CommandIndex(again)] == u + args[..c];
    StartupSettles(args, env, u + args[..c]);
    NoStartup(again, env);
  }

  lemma SameAgain(u: Args, kept: Args, cache: Args, p: Args, s: Setting, again: Args)
    requires Key(s).None? && again == u + (kept + cache + p) && CommandIndex(again) < |again|
    requires cache == CacheArgs(s.env, kept) && Separated(kept + cache, p)
    requires forall a :: a in u || a in kept || a in cache ==> a != SEPARATOR && !Remote(a)
    ensures BazelArgs(again, s) == Some(again)
  {
    hide CacheArgs, Head, Payload, CommandIndex;
    assert again == (u + kept + cache) + p;
    SplitIs(u + kept + cache, p);
    KeepAll(u + kept + cache);
    WithoutKey(again, s);
    CacheSettled(s.env, kept, u + kept + cache);
    assert u + kept + cache + [] + p == again;
  }

  /** With a key every application adds the two remote options once more. */
  lemma KeyGrows(args: Args, s: Setting)
    requires Key(s).Some? && BazelArgs(args, s).Some? && CommandFirst(args)
    ensures var once := BazelArgs(args, s).value;
            BazelArgs(once, s).Some? && |BazelArgs(once, s).value| == |once| + 2
  {
    hide CacheArgs, Head, Payload, CommandIndex, RemoteArgs;
    var once := BazelArgs(args, s).value;
    var c := CommandIndex(args);
    var h := Head(args);
    var head := h[..c + 1] + RemoteArgs(args, s) + h[c + 1..];
    WithKey(args, s);
    Split(args);
    AtCommand(args);
    var all := head + CacheArgs(s.env, head);
    assert once == all + Payload(args);
    assert args[..c] == h[..c] && h[..c + 1] == h[..c] + [args[c]];
    assert once == h[..c] + [args[c]] + once[c + 1..];
    CommandIndexIs(h[..c], args[c], once[c + 1..]);
    WithKey(once, s);
    var head2 := all[..c + 1] + RemoteArgs(once, s) + all[c + 1..];
    forall a | a in all ensures a in head2 {
      assert all == all[..c + 1] + all[c + 1..];
    }
    CacheSettled(s.env, head, head2);
    Split(once);
  }
}
