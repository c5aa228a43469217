/** The O_NOATIME compatibility shim: the compiler command line `_compile` assembles, the
    build-if-stale decision of `_build_onoatimehack`, and the LD_PRELOAD update of the
    environment handed to QEMU (vm.py). */
module Shim {
  import opened Wrappers

  type Environ = map<string, string>

  /** `os.getenv(key, default)` / `dict.get(key, default)`. */
  function Getenv(env: Environ, key: string, default: string): string {
    if key in env then env[key] else default
  }

  // ---------------------------------------------------------------------------
  // `_compile`

  /** The compiler argv, in automake's order: explicit flags first and the matching
      environment variable right after them, so the environment can override them.
      `split` stands for `shlex.split`. */
  function CompileArgv(args: seq<string>, cppflags: string, cflags: string, ldflags: string,
                       libadd: string, environ: Environ, split: string -> seq<string>)
    : (argv: seq<string>)
    ensures |argv| > 0 && argv[0] == Getenv(environ, "CC", "cc")
  {
    [Getenv(environ, "CC", "cc")]
    + split(cppflags) + split(Getenv(environ, "CPPFLAGS", ""))
    + split(cflags) + split(Getenv(environ, "CFLAGS", "-g -O2"))
    + split(ldflags) + split(Getenv(environ, "LDFLAGS", ""))
    + args
    + split(libadd) + split(Getenv(environ, "LIBS", ""))
  }

  /** The variables of the environment `_compile` consults. */
  const CompileVariables: set<string> := {"CC", "CPPFLAGS", "CFLAGS", "LDFLAGS", "LIBS"}

  /** The command depends on the environment only through the five compiler variables. */
  lemma CompileArgvReadsOnlyCompilerVariables(
    args: seq<string>, cppflags: string, cflags: string, ldflags: string, libadd: string,
    e1: Environ, e2: Environ, split: string -> seq<string>)
    requires forall k :: k in CompileVariables ==> Getenv(e1, k, "") == Getenv(e2, k, "")
    requires forall k :: k in CompileVariables ==> (k in e1 <==> k in e2)
    ensures CompileArgv(args, cppflags, cflags, ldflags, libadd, e1, split)
         == CompileArgv(args, cppflags, cflags, ldflags, libadd, e2, split)
  {
    assert "CC" in CompileVariables && "CPPFLAGS" in CompileVariables && "CFLAGS" in CompileVariables;
    assert "LDFLAGS" in CompileVariables && "LIBS" in CompileVariables;
  }

  /** What a compiler that lets a later option override an earlier one reads for the
      options `p` selects: the last such argument. */
  function LastMatching(argv: seq<string>, p: string -> bool): (r: Option<string>)
    ensures r.Some? ==> r.value in argv && p(r.value)
    ensures r.None? ==> forall i :: 0 <= i < |argv| ==> !p(argv[i])
    ensures r.Some? ==> exists i :: (0 <= i < |argv| && argv[i] == r.value
      && forall j :: i < j < |argv| ==> !p(argv[j]))
  {
    if argv == [] then None
    else if p(argv[|argv| - 1]) then Some(argv[|argv| - 1])
    else
      assert forall i :: 0 <= i < |argv| - 1 ==> argv[..|argv| - 1][i] == argv[i];
      var init := argv[..|argv| - 1];
      var r := LastMatching(init, p);
      if r.Some? then
        var i :| 0 <= i < |init| && init[i] == r.value && forall j :: i < j < |init| ==> !p(init[j]);
        assert argv[i] == r.value;
        assert forall j :: i < j < |argv| ==> !p(argv[j]) by {
          forall j | i < j < |argv| ensures !p(argv[j]) {
            if j < |init| { assert argv[j] == init[j]; }
          }
        }
        r
      else r
  }

  lemma {:induction false} LastMatchingConcat(a: seq<string>, b: seq<string>, p: string -> bool)
    ensures LastMatching(a + b, p) == if LastMatching(b, p).Some? then LastMatching(b, p) else LastMatching(a, p)
    decreases |b|
  {
    if b == [] {
      assert a + b == a;
    } else {
      assert (a + b)[..|a + b| - 1] == a + b[..|b| - 1];
      LastMatchingConcat(a, b[..|b| - 1], p);
    }
  }

  /** An option set in the middle of a command line, and by nothing after it, is the one
      read. */
  lemma LaterSettingWins(front: seq<string>, mid: seq<string>, back: seq<string>, p: string -> bool)
    requires LastMatching(mid, p).Some? && LastMatching(back, p).None?
    ensures LastMatching(front + mid + back, p) == LastMatching(mid, p)
  {
    LastMatchingConcat(front + mid, back, p);
    LastMatchingConcat(front, mid, p);
  }

  /** The three flag groups whose environment variable follows the explicit argument. */
  datatype FlagGroup = Preprocessor | Compiler | Linker

  function FlagVariable(g: FlagGroup): string {
    match g
    case Preprocessor => "CPPFLAGS"
    case Compiler => "CFLAGS"
    case Linker => "LDFLAGS"
  }

  /** `os.getenv`'s default for the group's variable. */
  function FlagDefault(g: FlagGroup): string {
    match g
    case Preprocessor => ""
    case Compiler => "-g -O2"
    case Linker => ""
  }

  /** The environment's words for a group. */
  function EnvironmentFlags(g: FlagGroup, environ: Environ, split: string -> seq<string>): seq<string> {
    split(Getenv(environ, FlagVariable(g), FlagDefault(g)))
  }

  /** Everything on the command line after the group's environment words. */
  function AfterGroup(g: FlagGroup, args: seq<string>, cflags: string, ldflags: string,
                      libadd: string, environ: Environ, split: string -> seq<string>): seq<string> {
    var tail := args + split(libadd) + split(Getenv(environ, "LIBS", ""));
    var linker := split(ldflags) + split(Getenv(environ, "LDFLAGS", "")) + tail;
    match g
    case Preprocessor => split(cflags) + split(Getenv(environ, "CFLAGS", "-g -O2")) + linker
    case Compiler => linker
    case Linker => tail
  }

  /** The point of the ordering: when the environment variable of a flag group sets an
      option (an optimisation level, a define, a linker mode) that nothing later on the
      command line sets again, that setting wins over the group's explicit argument, over
      the default and over every earlier group. */
  lemma EnvironmentFlagsOverride(
    g: FlagGroup, args: seq<string>, cppflags: string, cflags: string, ldflags: string,
    libadd: string, environ: Environ, split: string -> seq<string>, p: string -> bool)
    requires LastMatching(EnvironmentFlags(g, environ, split), p).Some?
    requires LastMatching(AfterGroup(g, args, cflags, ldflags, libadd, environ, split), p).None?
    ensures LastMatching(CompileArgv(args, cppflags, cflags, ldflags, libadd, environ, split), p)
         == LastMatching(EnvironmentFlags(g, environ, split), p)
  {
    var cc := [Getenv(environ, "CC", "cc")];
    var cpp, envCpp := split(cppflags), split(Getenv(environ, "CPPFLAGS", ""));
    var c, envC := split(cflags), split(Getenv(environ, "CFLAGS", "-g -O2"));
    var ld, envLd := split(ldflags), split(Getenv(environ, "LDFLAGS", ""));
    var tail := args + split(libadd) + split(Getenv(environ, "LIBS", ""));
    var argv := CompileArgv(args, cppflags, cflags, ldflags, libadd, environ, split);
    CompileArgvGroups(args, cppflags, cflags, ldflags, libadd, environ, split);
    var mid := EnvironmentFlags(g, environ, split);
    var back := AfterGroup(g, args, cflags, ldflags, libadd, environ, split);
    var front := Before(g, cc, cpp, envCpp, c, envC, ld);
    Regroup(g, cc, cpp, envCpp, c, envC, ld, envLd, tail);
    assert mid == Group(g, envCpp, envC, envLd);
    assert back == Rest(g, c, envC, ld, envLd, tail);
    LaterSettingWins(front, mid, back, p);
  }

  lemma CompileArgvGroups(args: seq<string>, cppflags: string, cflags: string, ldflags: string,
                          libadd: string, environ: Environ, split: string -> seq<string>)
    ensures CompileArgv(args, cppflags, cflags, ldflags, libadd, environ, split)
         == [Getenv(environ, "CC", "cc")]
            + split(cppflags) + split(Getenv(environ, "CPPFLAGS", ""))
            + split(cflags) + split(Getenv(environ, "CFLAGS", "-g -O2"))
            + split(ldflags) + split(Getenv(environ, "LDFLAGS", ""))
            + (args + split(libadd) + split(Getenv(environ, "LIBS", "")))
  {
  }

  function Before(g: FlagGroup, cc: seq<string>, cpp: seq<string>, envCpp: seq<string>,
                  c: seq<string>, envC: seq<string>, ld: seq<string>): seq<string> {
    match g
    case Preprocessor => cc + cpp
    case Compiler => cc + cpp + envCpp + c
    case Linker => cc + cpp + envCpp + c + envC + ld
  }

  function Group(g: FlagGroup, envCpp: seq<string>, envC: seq<string>, envLd: seq<string>): seq<string> {
    match g
    case Preprocessor => envCpp
    case Compiler => envC
    case Linker => envLd
  }

  function Rest(g: FlagGroup, c: seq<string>, envC: seq<string>, ld: seq<string>,
                envLd: seq<string>, tail: seq<string>): seq<string> {
    match g
    case Preprocessor => c + envC + (ld + envLd + tail)
    case Compiler => ld + envLd + tail
    case Linker => tail
  }

  /** The command line cut around one group's environment words. */
  lemma Regroup(g: FlagGroup, cc: seq<string>, cpp: seq<string>, envCpp: seq<string>,
                c: seq<string>, envC: seq<string>, ld: seq<string>, envLd: seq<string>,
                tail: seq<string>)
    ensures cc + cpp + envCpp + c + envC + ld + envLd + tail
         == Before(g, cc, cpp, envCpp, c, envC, ld) + Group(g, envCpp, envC, envLd)
            + Rest(g, c, envC, ld, envLd, tail)
  {
  }

  // ---------------------------------------------------------------------------
  // `_build_onoatimehack`

  const ShimObject: string := "onoatimehack.so"

  /** `dir / "onoatimehack.so"`. */
  function ShimArtifact(buildDir: string): string {
    buildDir + "/" + ShimObject
  }

  /** The artifact path, and the compiler command when a build is due. */
  datatype ShimBuild = ShimBuild(artifact: string, compile: Option<seq<string>>)

  /** `outOfDate` stands for `util.out_of_date(target, source)`. The shim is compiled only
      when the artifact is out of date with its source; its path is returned either way. */
  function PlanShim(buildDir: string, source: string, outOfDate: (string, string) -> bool,
                    environ: Environ, split: string -> seq<string>): (b: ShimBuild)
    ensures b.artifact == ShimArtifact(buildDir)
    ensures b.compile.Some? <==> outOfDate(ShimArtifact(buildDir), source)
  {
    var so := ShimArtifact(buildDir);
    if outOfDate(so, source) then
      ShimBuild(so, Some(CompileArgv(["-o", so, source], "-D_GNU_SOURCE", "-fPIC", "-shared",
                                     "-ldl", environ, split)))
    else ShimBuild(so, None)
  }

  /** With no compiler variables in the environment, and `shlex.split` behaving as it does
      on these plain words, the shim is built with
      `cc -D_GNU_SOURCE -fPIC -g -O2 -shared -o <so> <source> -ldl`. */
  lemma ShimCompileCommand(buildDir: string, source: string, outOfDate: (string, string) -> bool,
                           environ: Environ, split: string -> seq<string>)
    requires outOfDate(ShimArtifact(buildDir), source)
    requires forall k :: k in CompileVariables ==> k !in environ
    requires split("") == [] && split("-g -O2") == ["-g", "-O2"]
    requires split("-D_GNU_SOURCE") == ["-D_GNU_SOURCE"] && split("-fPIC") == ["-fPIC"]
    requires split("-shared") == ["-shared"] && split("-ldl") == ["-ldl"]
    ensures PlanShim(buildDir, source, outOfDate, environ, split).compile
         == Some(["cc", "-D_GNU_SOURCE", "-fPIC", "-g", "-O2", "-shared",
                  "-o", ShimArtifact(buildDir), source, "-ldl"])
  {
    assert "CC" in CompileVariables && "CPPFLAGS" in CompileVariables && "CFLAGS" in CompileVariables;
    assert "LDFLAGS" in CompileVariables && "LIBS" in CompileVariables;
    assert Getenv(environ, "CC", "cc") == "cc";
    assert Getenv(environ, "CPPFLAGS", "") == "" && Getenv(environ, "LDFLAGS", "") == "";
    assert Getenv(environ, "CFLAGS", "-g -O2") == "-g -O2" && Getenv(environ, "LIBS", "") == "";
    var so := ShimArtifact(buildDir);
    assert CompileArgv(["-o", so, source], "-D_GNU_SOURCE", "-fPIC", "-shared", "-ldl", environ, split)
        == ["cc"] + ["-D_GNU_SOURCE"] + [] + ["-fPIC"] + ["-g", "-O2"] + ["-shared"] + []
           + ["-o", so, source] + ["-ldl"] + []
        == ["cc", "-D_GNU_SOURCE", "-fPIC", "-g", "-O2", "-shared", "-o", so, source, "-ldl"];
    assert PlanShim(buildDir, source, outOfDate, environ, split).compile
        == Some(CompileArgv(["-o", so, source], "-D_GNU_SOURCE", "-fPIC", "-shared", "-ldl", environ, split));
  }

  // ---------------------------------------------------------------------------
  // The environment of the QEMU process

  const Preload: string := "LD_PRELOAD"

  /** The relation between `os.environ` and the environment QEMU runs with: with a shim,
      LD_PRELOAD becomes `<shim>:<old LD_PRELOAD or "">`; every other entry is kept. */
  ghost predicate Preloaded(env: Environ, environ: Environ, shim: Option<string>) {
    match shim
    case None => env == environ
    case Some(path) =>
      && env.Keys == environ.Keys + {Preload}
      && env[Preload] == path + ":" + Getenv(environ, Preload, "")
      && forall k :: k in environ && k != Preload ==> env[k] == environ[k]
  }

  /** `env = os.environ.copy()` and, when the shim is used, the in-place LD_PRELOAD update. */
  method PreloadEnvironment(environ: Environ, shim: Option<string>) returns (env: Environ)
    ensures Preloaded(env, environ, shim)
  {
    env := environ;
    if shim.Some? {
      env := env[Preload := shim.value + ":" + Getenv(env, Preload, "")];
    }
  }

  /** The relation determines the environment completely. */
  lemma PreloadedIsUnique(e1: Environ, e2: Environ, environ: Environ, shim: Option<string>)
    requires Preloaded(e1, environ, shim) && Preloaded(e2, environ, shim)
    ensures e1 == e2
  {
    if shim.Some? {
      forall k | k in e1.Keys ensures e1[k] == e2[k] {
        if k != Preload { assert k in environ; }
      }
    }
  }

  /** The shim comes first in the preload list, so it is loaded before anything the caller
      preloaded, and the caller's list survives unchanged behind it. */
  lemma ShimPreloadedFirst(env: Environ, environ: Environ, path: string)
    requires Preloaded(env, environ, Some(path))
    ensures Preload in env
    ensures env[Preload][..|path| + 1] == path + ":"
    ensures env[Preload][|path| + 1..] == Getenv(environ, Preload, "")
  {
    assert Preload in env.Keys;
    assert env[Preload] == (path + ":") + Getenv(environ, Preload, "");
  }
}
