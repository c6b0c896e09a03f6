/**
 * `XCInvoke::Xcode` of lib/xcinvoke/xcode.rb: an installed Xcode, known by its
 * developer directory. Its methods only compute values, so an installation
 * is a datatype and every method a function of it. The commands it runs
 * (`mdfind`, `xcrun swift --version`, `xcrun xcodebuild -version`) are seen
 * through a `Host`, which gives the standard output of a command line run
 * with some extra environment variables.
 */
module XCInvoke {
  import opened Wrappers
  import opened Text
  import opened Paths
  import opened Liferaft
  import opened ToolOutput

  /** Environment variables handed to a child process. */
  type Env = map<string, string>

  /** `Open3.capture2(env, *argv)`: the standard output of `argv` run with `env` added. */
  datatype Host = Host(capture: (Env, seq<string>) -> string)

  /** An installation; `Xcode.new(path)` keeps `path` as the developer directory. */
  datatype Xcode = Xcode(developerDir: string)

  /** The Spotlight query that lists the installed Xcode bundles, one path per line. */
  const IndexQuery: seq<string> := ["mdfind", "kMDItemCFBundleIdentifier == 'com.apple.dt.Xcode'"]

  /** Where the developer directory sits inside an Xcode bundle. */
  const DeveloperSuffix := "Contents/Developer"

  /** The library directory of the default toolchain, inside the developer directory. */
  const ToolchainLib := "Toolchains/XcodeDefault.xctoolchain/usr/lib"

  const SwiftVersionArgs: seq<string> := ["swift", "--version"]
  const XcodebuildVersionArgs: seq<string> := ["xcodebuild", "-version"]

  // ---------------------------------------------------------------------------
  // Discovery: `Xcode.each`
  // ---------------------------------------------------------------------------

  /** One installation per listed bundle path, in order: the stripped path joined with `Contents/Developer`. */
  function Installations(lines: seq<string>): (xs: seq<Xcode>)
    ensures |xs| == |lines|
    ensures forall k :: 0 <= k < |lines| ==> xs[k].developerDir == Join(Strip(lines[k]), DeveloperSuffix)
  {
    if lines == [] then []
    else [Xcode(Join(Strip(lines[0]), DeveloperSuffix))] + Installations(lines[1..])
  }

  /** What the Spotlight query prints on `host`. */
  function IndexOutput(host: Host): string {
    host.capture(map[], IndexQuery)
  }

  /**
   * `Xcode.each`: the installations in the order the query lists them, one per
   * line of its output after `split("\n")`.
   */
  function Each(host: Host): (xs: seq<Xcode>)
    ensures |xs| == |SplitLines(IndexOutput(host))|
    ensures forall k :: 0 <= k < |xs| ==>
              xs[k].developerDir == Join(Strip(SplitLines(IndexOutput(host))[k]), DeveloperSuffix)
  {
    Installations(SplitLines(IndexOutput(host)))
  }

  /** A developer directory built from one line of the query's output. */
  ghost predicate IsDeveloperDir(dir: string) {
    && '\n' !in dir
    && IsClean(dir)
    && |DeveloperSuffix| <= |dir|
    && dir[|dir| - |DeveloperSuffix|..] == DeveloperSuffix
    && (dir == DeveloperSuffix || dir[|dir| - |DeveloperSuffix| - 1] == '/')
  }

  /** Joining the suffix to a stripped line gives a developer directory, and a tidy path gains exactly `/Contents/Developer`. */
  lemma DeveloperDirOfLine(line: string)
    requires '\n' !in line
    ensures IsDeveloperDir(Join(Strip(line), DeveloperSuffix))
    ensures IsClean(Strip(line)) ==> Join(Strip(line), DeveloperSuffix) == Strip(line) + "/" + DeveloperSuffix
  {
    StripChars(line);
    JoinChars(Strip(line), DeveloperSuffix);
    assert '\n' !in DeveloperSuffix;
  }

  /** Every installation `each` yields has a developer directory of that form. */
  lemma EachDeveloperDirs(host: Host)
    ensures forall x :: x in Each(host) ==> IsDeveloperDir(x.developerDir)
  {
    var lines := SplitLines(IndexOutput(host));
    SplitLinesRoundTrip(IndexOutput(host));
    forall x | x in Each(host) ensures IsDeveloperDir(x.developerDir) {
      var k :| 0 <= k < |Each(host)| && Each(host)[k] == x;
      DeveloperDirOfLine(lines[k]);
    }
  }

  // ---------------------------------------------------------------------------
  // The environment of an installation: `as_env`, `dyld_*_path`
  // ---------------------------------------------------------------------------

  /** `dyld_framework_path`: the default toolchain's library directory. */
  function DyldFrameworkPath(x: Xcode): (p: string)
    ensures |ToolchainLib| <= |p| && p[|p| - |ToolchainLib|..] == ToolchainLib
    ensures p[..|p| - |ToolchainLib|] <= x.developerDir + "/"
    ensures IsClean(x.developerDir) ==> p == x.developerDir + "/" + ToolchainLib
  {
    Join(x.developerDir, ToolchainLib)
  }

  /** `dyld_library_path`: the same directory as `dyld_framework_path`. */
  function DyldLibraryPath(x: Xcode): (p: string)
    ensures p == DyldFrameworkPath(x)
  {
    Join(x.developerDir, ToolchainLib)
  }

  /** `as_env`: the three variables that point tools at this installation. */
  function AsEnv(x: Xcode): (env: Env)
    ensures env.Keys == {"DEVELOPER_DIR", "DYLD_FRAMEWORK_PATH", "DYLD_LIBRARY_PATH"}
    ensures env["DEVELOPER_DIR"] == x.developerDir
    ensures env["DYLD_FRAMEWORK_PATH"] == env["DYLD_LIBRARY_PATH"]
    ensures env["DYLD_FRAMEWORK_PATH"] == DyldFrameworkPath(x)
    ensures IsClean(x.developerDir) ==> env["DYLD_LIBRARY_PATH"] == x.developerDir + "/" + ToolchainLib
  {
    map["DEVELOPER_DIR" := x.developerDir,
        "DYLD_FRAMEWORK_PATH" := DyldFrameworkPath(x),
        "DYLD_LIBRARY_PATH" := DyldLibraryPath(x)]
  }

  // ---------------------------------------------------------------------------
  // Running a tool of the installation: `xcrun`
  // ---------------------------------------------------------------------------

  /** `e` is `caller` with every key of `over` set to `over`'s value: `caller.merge(over)`. */
  ghost predicate Overrides(e: Env, caller: Env, over: Env) {
    && e.Keys == caller.Keys + over.Keys
    && (forall k :: k in over ==> e[k] == over[k])
    && (forall k :: k in caller && k !in over ==> e[k] == caller[k])
  }

  /** At most one environment is a given override of another. */
  lemma OverridesUnique(e1: Env, e2: Env, caller: Env, over: Env)
    requires Overrides(e1, caller, over) && Overrides(e2, caller, over)
    ensures e1 == e2
  {
    forall k | k in e1 ensures k in e2 && e1[k] == e2[k] {
      if k !in over {
        assert k in caller;
      }
    }
  }

  /** The environment and the command line `xcrun` hands to `Open3.capture2`. */
  datatype Invocation = Invocation(env: Env, argv: seq<string>)

  /** `xcrun(cmd, env:)` up to running it: `as_env` overrides the caller's variables, and `xcrun` runs `cmd`. */
  function XcrunInvocation(x: Xcode, cmd: seq<string>, env: Env): (inv: Invocation)
    ensures Overrides(inv.env, env, AsEnv(x))
    ensures |inv.argv| == |cmd| + 1 && inv.argv[0] == "xcrun" && inv.argv[1..] == cmd
  {
    Invocation(env + AsEnv(x), ["xcrun"] + cmd)
  }

  /** `xcrun(cmd, env:)`: the output of `xcrun cmd` run with the caller's variables overridden by `as_env`. */
  function Xcrun(host: Host, x: Xcode, cmd: seq<string>, env: Env): (out: string)
    ensures exists e :: Overrides(e, env, AsEnv(x)) && out == host.capture(e, ["xcrun"] + cmd)
  {
    var inv := XcrunInvocation(x, cmd, env);
    assert inv.argv == ["xcrun"] + cmd;
    host.capture(inv.env, inv.argv)
  }

  // ---------------------------------------------------------------------------
  // What an installation reports about itself
  // ---------------------------------------------------------------------------

  /** What `xcrun swift --version` prints for `x`. */
  function SwiftOutputOf(host: Host, x: Xcode): string {
    Xcrun(host, x, SwiftVersionArgs, map[])
  }

  /** What `xcrun xcodebuild -version` prints for `x`. */
  function XcodebuildOutputOf(host: Host, x: Xcode): string {
    Xcrun(host, x, XcodebuildVersionArgs, map[])
  }

  /** `swift_info`: the Swift version and build, read from `swift --version`. */
  function SwiftInfo(host: Host, x: Xcode): (r: Option<(string, string)>)
    ensures r.Some? ==> IsVersionToken(r.value.0) && IsVersionToken(r.value.1)
  {
    ParseSwiftInfo(SwiftOutputOf(host, x))
  }

  /** `swift_info` returns the captures of the leftmost match of the Swift pattern, and `nil` when there is none. */
  lemma SwiftInfoSpec(host: Host, x: Xcode, v: string, b: string)
    ensures SwiftInfo(host, x) == Some((v, b)) <==>
            exists i: nat :: SwiftMatchAt(SwiftOutputOf(host, x), i, v, b) && NoSwiftMatchBefore(SwiftOutputOf(host, x), i)
    ensures SwiftInfo(host, x).None? <==>
            forall i: nat, v', b' :: !SwiftMatchAt(SwiftOutputOf(host, x), i, v', b')
  {
    ParseSwiftInfoSpec(SwiftOutputOf(host, x), v, b);
    ParseSwiftInfoNone(SwiftOutputOf(host, x));
  }

  /** `swift_version`: the first element of `swift_info`, unchanged, or `nil` with it. */
  function SwiftVersion(host: Host, x: Xcode): (r: Option<string>)
    ensures r.None? <==> SwiftInfo(host, x).None?
    ensures r.Some? ==> r.value == SwiftInfo(host, x).value.0 && IsVersionToken(r.value)
  {
    match SwiftInfo(host, x)
    case None => None
    case Some((v, _)) => Some(v)
  }

  /** `xcodebuild_info`: the Xcode version and build, read from `xcodebuild -version`. */
  function XcodebuildInfo(host: Host, x: Xcode): (r: Option<(string, string)>)
    ensures r.Some? ==> '\n' !in r.value.0 && '\n' !in r.value.1 && NoTrailingSpace(r.value.1)
  {
    var s := XcodebuildOutputOf(host, x);
    if ParseXcodebuildInfo(s).Some? then
      ParseXcodebuildInfoSound(s);
      ParseXcodebuildInfo(s)
    else
      None
  }

  /** `xcodebuild_info` returns the captures of the whole-output match with the shortest first capture, or `nil`. */
  lemma XcodebuildInfoSpec(host: Host, x: Xcode, a: string, b: string)
    ensures XcodebuildInfo(host, x) == Some((a, b)) <==>
            var s := XcodebuildOutputOf(host, x);
            XcodebuildMatch(s, a, b) && ShortestFirstCapture(s, a) && NoTrailingSpace(b)
    ensures XcodebuildInfo(host, x).None? <==> forall a', b' :: !XcodebuildMatch(XcodebuildOutputOf(host, x), a', b')
  {
    ParseXcodebuildInfoSpec(XcodebuildOutputOf(host, x), a, b);
    ParseXcodebuildInfoNone(XcodebuildOutputOf(host, x));
  }

  /** `build_number`: the second element of `xcodebuild_info`, or `nil` with it. */
  function BuildNumber(host: Host, x: Xcode): (r: Option<string>)
    ensures r.None? <==> XcodebuildInfo(host, x).None?
    ensures r.Some? ==> r.value == XcodebuildInfo(host, x).value.1 && '\n' !in r.value && NoTrailingSpace(r.value)
  {
    match XcodebuildInfo(host, x)
    case None => None
    case Some((_, b)) => Some(b)
  }

  /**
   * `version`: the build that `xcodebuild -version` prints, read as a version:
   * the second capture of the whole-output match with the shortest first capture.
   */
  function VersionOf<V>(host: Host, scheme: Scheme<V>, x: Xcode): (v: V)
    requires BuildNumber(host, x).Some?
    ensures exists a, b :: var out := XcodebuildOutputOf(host, x);
              XcodebuildMatch(out, a, b) && ShortestFirstCapture(out, a) && NoTrailingSpace(b) && v == scheme.parse(b)
  {
    var (a, b) := XcodebuildInfo(host, x).value;
    XcodebuildInfoSpec(host, x, a, b);
    scheme.parse(b)
  }

  /** Installations with the same build number compare equal. */
  lemma SameBuildCompareEqual<V>(host: Host, scheme: Scheme<V>, x: Xcode, y: Xcode)
    requires BuildNumber(host, x).Some? && BuildNumber(host, y).Some?
    requires BuildNumber(host, x) == BuildNumber(host, y)
    ensures CompareXcodes(host, scheme, x, y) == 0
  {
  }

  /** `Xcode#<=>`: the patched `Version#<=>` on the two build versions. */
  function CompareXcodes<V(==)>(host: Host, scheme: Scheme<V>, x: Xcode, y: Xcode): (r: int)
    requires BuildNumber(host, x).Some? && BuildNumber(host, y).Some?
    ensures r == -1 || r == 0 || r == 1
    ensures r == 0 <==> scheme.parse(BuildNumber(host, x).value) == scheme.parse(BuildNumber(host, y).value)
    ensures r == -1 <==> r != 0 && scheme.less(VersionOf(host, scheme, x), VersionOf(host, scheme, y))
  {
    Compare(scheme.less, VersionOf(host, scheme, x), VersionOf(host, scheme, y))
  }

  // ---------------------------------------------------------------------------
  // Selection: `Xcode.find_swift_version`
  // ---------------------------------------------------------------------------

  /** `select { |xc| xc.swift_version == target }`. */
  function Matching(host: Host, xs: seq<Xcode>, target: Option<string>): (ms: seq<Xcode>)
    ensures |ms| <= |xs|
    ensures forall x :: x in ms <==> x in xs && SwiftVersion(host, x) == target
  {
    if xs == [] then []
    else
      var rest := Matching(host, xs[1..], target);
      assert forall x :: x in xs <==> x == xs[0] || x in xs[1..];
      if SwiftVersion(host, xs[0]) == target then [xs[0]] + rest else rest
  }

  /** Every installation of `xs` has a build number, so its version can be compared. */
  ghost predicate AllVersioned(host: Host, xs: seq<Xcode>) {
    forall x :: x in xs ==> BuildNumber(host, x).Some?
  }

  /** Each installation paired with its `version`, the key `sort` compares by. */
  function Versioned<V>(host: Host, scheme: Scheme<V>, xs: seq<Xcode>): (ps: seq<(Xcode, V)>)
    requires AllVersioned(host, xs)
    ensures |ps| == |xs|
    ensures forall k :: 0 <= k < |xs| ==> ps[k].0 == xs[k] && ps[k].1 == VersionOf(host, scheme, xs[k])
  {
    if xs == [] then []
    else [(xs[0], VersionOf(host, scheme, xs[0]))] + Versioned(host, scheme, xs[1..])
  }

  /**
   * `sort.last` on a non-empty list of keyed elements: one whose key no other
   * key compares above. Of several equal maxima the later one is kept; Ruby's
   * `sort` does not say which one ends up last.
   */
  function Greatest<T(!new), V(==,!new)>(less: (V, V) -> bool, ps: seq<(T, V)>): (m: (T, V))
    requires |ps| > 0
    ensures m in ps
    ensures IsStrictTotalOrder(less) ==> forall p :: p in ps ==> Compare(less, p.1, m.1) <= 0
  {
    if |ps| == 1 then ps[0]
    else
      var init := ps[..|ps| - 1];
      var last := ps[|ps| - 1];
      assert forall p :: p in ps <==> p in init || p == last;
      var m := Greatest(less, init);
      if Compare(less, m.1, last.1) <= 0 then
        GreatestStep(less, init, m, last);
        last
      else
        m
  }

  /** The step of `Greatest` that moves to a new maximum keeps every earlier element below it. */
  lemma GreatestStep<T(!new), V(!new)>(less: (V, V) -> bool, init: seq<(T, V)>, m: (T, V), last: (T, V))
    requires IsStrictTotalOrder(less) ==> forall p :: p in init ==> Compare(less, p.1, m.1) <= 0
    requires Compare(less, m.1, last.1) <= 0
    ensures IsStrictTotalOrder(less) ==> forall p :: p in init + [last] ==> Compare(less, p.1, last.1) <= 0
  {
    if IsStrictTotalOrder(less) {
      forall p | p in init + [last] ensures Compare(less, p.1, last.1) <= 0 {
        if p in init {
          CompareTransitive(less, p.1, m.1, last.1);
        }
      }
    }
  }

  /**
   * `Xcode.find_swift_version(target)`: of the installations whose
   * `swift_version` is `target`, one with the greatest build version, or `nil`
   * when there is none. A single match is returned without being compared, so
   * only two or more matches need build numbers.
   */
  function FindSwiftVersion<V(==,!new)>(host: Host, scheme: Scheme<V>, target: Option<string>): (r: Option<Xcode>)
    requires |Matching(host, Each(host), target)| > 1 ==> AllVersioned(host, Matching(host, Each(host), target))
    ensures r.None? <==> forall x :: x in Each(host) ==> SwiftVersion(host, x) != target
    ensures r.Some? ==> r.value in Each(host) && SwiftVersion(host, r.value) == target
    ensures r.Some? && AllVersioned(host, Matching(host, Each(host), target)) && IsStrictTotalOrder(scheme.less) ==>
              forall y :: y in Each(host) && SwiftVersion(host, y) == target ==> CompareXcodes(host, scheme, y, r.value) <= 0
  {
    Latest(host, scheme, Matching(host, Each(host), target))
  }

  /**
   * `sort.last` on installations: `nil` for none, the only element of a
   * one-element list (`sort` compares nothing there), else one with the
   * greatest build version.
   */
  function Latest<V(==,!new)>(host: Host, scheme: Scheme<V>, ms: seq<Xcode>): (r: Option<Xcode>)
    requires |ms| > 1 ==> AllVersioned(host, ms)
    ensures r.None? <==> ms == []
    ensures r.Some? ==> r.value in ms
    ensures |ms| == 1 ==> r == Some(ms[0])
    ensures r.Some? && AllVersioned(host, ms) && IsStrictTotalOrder(scheme.less) ==>
              forall y :: y in ms ==> CompareXcodes(host, scheme, y, r.value) <= 0
  {
    if ms == [] then None
    else if |ms| == 1 then
      LoneLatest(host, scheme, ms);
      Some(ms[0])
    else Some(Newest(host, scheme, ms))
  }

  /** The only installation of a one-element list is its newest. */
  lemma LoneLatest<V>(host: Host, scheme: Scheme<V>, ms: seq<Xcode>)
    requires |ms| == 1
    ensures AllVersioned(host, ms) ==> forall y :: y in ms ==> CompareXcodes(host, scheme, y, ms[0]) == 0
  {
    assert forall y :: y in ms ==> y == ms[0];
  }

  /** `sort.last` on installations that all have a build number: one with the greatest build version. */
  function Newest<V(==,!new)>(host: Host, scheme: Scheme<V>, ms: seq<Xcode>): (m: Xcode)
    requires |ms| > 0 && AllVersioned(host, ms)
    ensures m in ms
    ensures IsStrictTotalOrder(scheme.less) ==> forall y :: y in ms ==> CompareXcodes(host, scheme, y, m) <= 0
  {
    var ps := Versioned(host, scheme, ms);
    var m := Greatest(scheme.less, ps);
    VersionedMembers(host, scheme, ms, m);
    m.0
  }

  /** Every installation appears in `Versioned` with its version, and every pair there is one of them. */
  lemma VersionedMembers<V>(host: Host, scheme: Scheme<V>, ms: seq<Xcode>, m: (Xcode, V))
    requires AllVersioned(host, ms) && m in Versioned(host, scheme, ms)
    ensures forall y :: y in ms ==> (y, VersionOf(host, scheme, y)) in Versioned(host, scheme, ms)
    ensures m.0 in ms && m.1 == VersionOf(host, scheme, m.0)
  {
    var ps := Versioned(host, scheme, ms);
    forall y | y in ms ensures (y, VersionOf(host, scheme, y)) in ps {
      var k :| 0 <= k < |ms| && ms[k] == y;
      assert ps[k] == (y, VersionOf(host, scheme, y));
    }
    var k :| 0 <= k < |ps| && ps[k] == m;
  }
}
