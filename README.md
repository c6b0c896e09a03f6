# xcinvoke's `Xcode` class, modelled in Dafny

xcinvoke finds the Xcode installations on a Mac and runs their tools against a
chosen one. All of its logic is in `XCInvoke::Xcode` (lib/xcinvoke/xcode.rb).
That class:

- enumerates installations from a Spotlight query;
- reads each installation's Swift version and Xcode build from the output of
  `swift --version` and `xcodebuild -version`;
- orders installations by build version, using a three-way comparison that
  the file patches onto `Liferaft::Version`;
- picks the newest installation that ships a given Swift version;
- builds the environment (`DEVELOPER_DIR` and the two `DYLD_*` paths) and the
  `xcrun` command line used to run a tool of one installation.

The class only computes values. `developer_dir` is set once, and `Hash#merge`,
`map`, `split` and `strip` all return new objects. So the model is
functional:

- an installation is the datatype `Xcode(developerDir)`;
- every method is a function of it;
- the properties are stated as contracts and lemmas.

The commands the class runs are reached through `Open3.capture2`. They appear
as a `Host`: a function from (extra environment, argv) to standard output.

Modules:

- `Wrappers`: `Option`, standing for Ruby's `nil`.
- `Text`: the string operations the source relies on:
  - Ruby's `\s` class, and ASCII case folding standing for the folding of a
    `/i` regexp (see "Left out");
  - greedy runs of characters, forward and backward;
  - `String#strip`;
  - `String#split("\n")`, which drops trailing empty pieces.
- `Paths`: `Pathname#+` with a relative suffix. Trailing separators and `.`
  components of the base are dropped, then one `/` is added unless the base is
  empty or made only of separators.
- `Liferaft`: the part of `Liferaft::Version` the file uses:
  - a build string is parsed into a version;
  - versions are compared with `==` and `<`;
  - `<=>` is patched at lib/xcinvoke/xcode.rb:4-18.
  How the library parses a build string is abstract. The parse is a function
  `parse: string -> V`, and `less` is a relation on `V`, assumed to be a
  strict total order where ordering matters.
- `ToolOutput`: the two fixed regular expressions. Each has a hand-written
  matcher, proved equivalent to a declarative description of the match Ruby
  returns:
  - the Swift pattern searches the output and takes the leftmost match;
  - the Xcode pattern is anchored at both ends. Its lazy first capture is the
    shortest one that lets the whole pattern match, and its lazy second
    capture leaves out trailing blanks.
- `ToolOutputExamples`: both parsers on output in the form Xcode 13 prints.
- `XCInvoke`: the class itself: `each`, `as_env`, `dyld_*_path`, `xcrun`,
  `swift_info`, `swift_version`, `xcodebuild_info`, `build_number`,
  `version`, `<=>` and `find_swift_version`.

What the code does not do, and so the model does not do either:

- It enumerates only the bundles `mdfind` lists. It does not cross them with
  extra toolchain directories.
- It sets no `PATH` and does not search `PATH` for executables.
- It sets `DYLD_FRAMEWORK_PATH` and `DYLD_LIBRARY_PATH` to the one default
  toolchain library directory. The host's existing values are not prepended.
- Its Swift pattern requires the build token after `swift-` or `swiftlang-`,
  and searches the whole output rather than line by line.
- `find_swift_version` compares Swift versions as strings, not component by
  component.

## Model

| member | source | states |
|---|---|---|
| Liferaft.Compare | lib/xcinvoke/xcode.rb:7-15 | the patched `<=>` returns only -1, 0 or 1; 0 exactly when the versions are `==`; -1 exactly when they differ and the first is `<` the second; 1 exactly when they differ and it is not |
| Liferaft.CompareAntisymmetric | lib/xcinvoke/xcode.rb:7-15 | under a strict total order, swapping the operands negates the result |
| Liferaft.CompareTransitive | lib/xcinvoke/xcode.rb:7-15 | under a strict total order, "compares at most 0" is transitive, the property `sort` relies on |
| Text.Strip | lib/xcinvoke/xcode.rb:39 | `strip` returns a slice of its input: everything cut from either end is blank or NUL, and the result neither starts nor ends with such a character |
| Text.StripChars | lib/xcinvoke/xcode.rb:39 | every character of the stripped line comes from the line |
| Text.Pieces | lib/xcinvoke/xcode.rb:39 | the output cut at every line feed: no piece holds a line feed, and joining the pieces with line feeds gives back the output |
| Text.DropTrailingEmpty | lib/xcinvoke/xcode.rb:39 | the kept pieces are a prefix, every dropped piece is empty, and the last kept piece is not empty |
| Text.SplitLines | lib/xcinvoke/xcode.rb:39 | `split("\n")` is the pieces between line feeds with the trailing empty ones dropped: a prefix of the pieces, every dropped piece empty, and the last kept piece not empty |
| Text.SplitLinesRoundTrip | lib/xcinvoke/xcode.rb:39 | `split("\n")` loses only trailing line feeds: its lines hold no line feed, the last is non-empty, and rejoining them gives a prefix of the output followed only by line feeds |
| Paths.KeptBase | lib/xcinvoke/xcode.rb:41 | the part of the base `Pathname#+` keeps is a prefix that drops only separators and `.` characters, is empty, all separators, or ends in a real name, and is the whole base when the base is already tidy |
| Paths.Join | lib/xcinvoke/xcode.rb:41 | `Pathname(base) + rel` ends with `rel` after a separator (or is `rel`), starts with a prefix of `base + "/"`, is exactly `base/rel` when `base` is tidy, and is tidy when `rel` is |
| Paths.JoinChars | lib/xcinvoke/xcode.rb:41 | the joined path holds only characters of the base, of the suffix, or `/` |
| ToolOutput.MatchSwiftAtCorrect | lib/xcinvoke/xcode.rb:54 | the matcher tried at one position returns `(v, b)` exactly when the Swift pattern matches there with those captures |
| ToolOutput.SearchSwift | lib/xcinvoke/xcode.rb:55 | the search from position `i` returns the captures of the first position at or after `i` where the pattern matches, or nothing if it matches nowhere after `i` |
| ToolOutput.ParseSwiftInfo | lib/xcinvoke/xcode.rb:53-57 | both captures are non-empty and made only of digits and dots |
| ToolOutput.ParseSwiftInfoSpec | lib/xcinvoke/xcode.rb:54-56 | `swift_info` returns `[v, b]` exactly when the case-insensitive pattern (with `swift-` or `swiftlang-`) matches with those captures at some position and nowhere earlier |
| ToolOutput.ParseSwiftInfoNone | lib/xcinvoke/xcode.rb:55 | `swift_info` is `nil` exactly when the pattern matches nowhere in the output |
| ToolOutput.LazyCapture | lib/xcinvoke/xcode.rb:65 | the lazy `(.*?)` stops at the first end, without crossing a line feed, at which the rest of the pattern matches, and fails only when there is none |
| ToolOutput.ParseXcodebuildInfo | lib/xcinvoke/xcode.rb:64-67 | a result means the output starts with `Xcode ` in any case, and the first capture holds no line feed |
| ToolOutput.XcodebuildLayoutIff | lib/xcinvoke/xcode.rb:65 | the anchored pattern matches with captures `a` and `b` exactly when the output is `Xcode `, then `a`, then a tail the rest of the pattern accepts |
| ToolOutput.ParseXcodebuildInfoSound | lib/xcinvoke/xcode.rb:65-66 | a result is a whole-output match with the shortest possible first capture; neither capture holds a line feed; the build has no trailing blank; the output starts with `Xcode ` and contains `Build version ` |
| ToolOutput.ParseXcodebuildInfoSpec | lib/xcinvoke/xcode.rb:65-66 | `xcodebuild_info` returns `[a, b]` exactly when the pattern matches the whole output with those captures, `a` is the shortest first capture of any match, and `b` ends in a non-blank |
| ToolOutput.ParseXcodebuildInfoNone | lib/xcinvoke/xcode.rb:65 | `xcodebuild_info` is `nil` exactly when the anchored pattern cannot match the output |
| ToolOutputExamples.SwiftInfoOfXcode13 | lib/xcinvoke/xcode.rb:53-57 | `Apple Swift version 5.5 (swiftlang-1300.0.31.1 clang-…)` gives `["5.5", "1300.0.31.1"]` |
| ToolOutputExamples.XcodebuildInfoOfXcode13 | lib/xcinvoke/xcode.rb:64-67 | `"Xcode 13.2.1\nBuild version 13C100\n"` gives `["13.2.1", "13C100"]` |
| XCInvoke.Installations | lib/xcinvoke/xcode.rb:39-43 | one installation per line, in order, each with the stripped line joined with `Contents/Developer` |
| XCInvoke.Each | lib/xcinvoke/xcode.rb:35-45 | `each` yields one installation per line of the `mdfind` output after `split("\n")`, in output order, each with its stripped line joined with `Contents/Developer` |
| XCInvoke.DeveloperDirOfLine | lib/xcinvoke/xcode.rb:39-42 | a developer directory built from one line holds no line feed, ends in `Contents/Developer` after a separator (or is it), and is exactly `line/Contents/Developer` when the stripped line is a tidy path |
| XCInvoke.EachDeveloperDirs | lib/xcinvoke/xcode.rb:35-45 | every installation `each` yields has a developer directory of that form |
| XCInvoke.DyldFrameworkPath | lib/xcinvoke/xcode.rb:97-99 | the path ends with `Toolchains/XcodeDefault.xctoolchain/usr/lib`, starts with a prefix of the developer directory, and is exactly `developer_dir/Toolchains/XcodeDefault.xctoolchain/usr/lib` when the developer directory is tidy |
| XCInvoke.DyldLibraryPath | lib/xcinvoke/xcode.rb:101-103 | the library path is the framework path |
| XCInvoke.AsEnv | lib/xcinvoke/xcode.rb:89-95 | exactly the keys `DEVELOPER_DIR`, `DYLD_FRAMEWORK_PATH` and `DYLD_LIBRARY_PATH`; `DEVELOPER_DIR` is the developer directory; both DYLD values are equal and are `dyld_framework_path`, for any developer directory |
| XCInvoke.OverridesUnique | lib/xcinvoke/xcode.rb:83 | the result of `env.merge(as_env)` is determined by the two maps |
| XCInvoke.XcrunInvocation | lib/xcinvoke/xcode.rb:82-84 | the environment has the caller's keys and the `as_env` keys; `as_env` values win and every other caller key keeps its value; the argv is `xcrun` followed by `cmd` unchanged |
| XCInvoke.Xcrun | lib/xcinvoke/xcode.rb:82-87 | the output is what the host prints for `xcrun cmd` under the caller's environment overridden by `as_env` |
| XCInvoke.SwiftInfo | lib/xcinvoke/xcode.rb:53-57 | both elements of `swift_info` are non-empty digit-and-dot tokens |
| XCInvoke.SwiftInfoSpec | lib/xcinvoke/xcode.rb:53-57 | `swift_info` is the leftmost match of the Swift pattern in what `xcrun swift --version` prints, and `nil` exactly when there is none |
| XCInvoke.SwiftVersion | lib/xcinvoke/xcode.rb:59-62 | `swift_version` is `nil` exactly when `swift_info` is, and otherwise its first element, unchanged |
| XCInvoke.XcodebuildInfo | lib/xcinvoke/xcode.rb:64-67 | neither element holds a line feed and the build has no trailing blank |
| XCInvoke.XcodebuildInfoSpec | lib/xcinvoke/xcode.rb:64-67 | `xcodebuild_info` is the whole-output match with the shortest first capture in what `xcrun xcodebuild -version` prints, and `nil` exactly when there is none |
| XCInvoke.BuildNumber | lib/xcinvoke/xcode.rb:69-72 | `build_number` is `nil` exactly when `xcodebuild_info` is, and otherwise its second element, with no line feed and no trailing blank |
| XCInvoke.VersionOf | lib/xcinvoke/xcode.rb:64-76 | `version` is the scheme's parse of the second capture of the whole-output match, with the shortest first capture, in what `xcrun xcodebuild -version` prints; defined only when there is a build number |
| XCInvoke.SameBuildCompareEqual | lib/xcinvoke/xcode.rb:74-80 | two installations with the same build number compare equal under `Xcode#<=>` |
| XCInvoke.CompareXcodes | lib/xcinvoke/xcode.rb:74-80 | `Xcode#<=>` is the patched `<=>` on the two parsed build numbers: -1, 0 or 1; 0 exactly when the versions are equal; -1 exactly when they differ and the first is less |
| XCInvoke.Matching | lib/xcinvoke/xcode.rb:50 | `select` keeps exactly the installations whose `swift_version` equals the target |
| XCInvoke.Versioned | lib/xcinvoke/xcode.rb:50 | each installation is paired with its `version`, in order |
| XCInvoke.Greatest | lib/xcinvoke/xcode.rb:50 | `sort.last` returns an element of the list, and under a total order no element compares above it |
| XCInvoke.GreatestStep | lib/xcinvoke/xcode.rb:50 | moving to an element that is not below the current maximum keeps every earlier element below the new one |
| XCInvoke.Latest | lib/xcinvoke/xcode.rb:50 | `sort.last` is `nil` exactly for an empty list; the only element of a one-element list, which `sort` never compares and which needs no build number; otherwise a member, and when all members have build numbers and the order is total, no member has a greater build version |
| XCInvoke.Newest | lib/xcinvoke/xcode.rb:50 | `sort.last` on two or more installations with build numbers is one of them, and under a total order no member has a greater build version |
| XCInvoke.FindSwiftVersion | lib/xcinvoke/xcode.rb:49-51 | `nil` exactly when no enumerated installation has that `swift_version`; otherwise an enumerated installation with that `swift_version`, and, when the matches have build numbers and the order is total, no other match has a greater build version; build numbers are needed only when there are two or more matches |

## Left out

- Process I/O. The calls to `Open3.capture2` and the commands `mdfind`, `xcode-select` and `xcrun` are not modelled (lib/xcinvoke/xcode.rb:31, 36-38, 85). Their output is what the `Host` function returns. Standard error is discarded, as the source does.
- `Xcode.selected` (lib/xcinvoke/xcode.rb:30-33): apart from the process call it is only `strip` and construction, both of which are modelled.
- The internals of `Liferaft::Version`: how a build string is parsed, and what `Version.new(nil)` does. `sort` calls `<=>` only when there are two or more matches, and then every match takes part in a comparison. So `find_swift_version` requires build numbers only when there are two or more matching installations. That is the requires of `XCInvoke.FindSwiftVersion` and `XCInvoke.Latest`. A single match is returned whether or not it has a build number.
- The guard at lib/xcinvoke/xcode.rb:6 tests for a method named `other`, which `Liferaft::Version` never has, so the patched `<=>` always applies. The model applies it unconditionally.
- `extend Enumerable` and `alias_method :all, :to_a` (lib/xcinvoke/xcode.rb:22, 47): enumeration is the sequence `XCInvoke.Each`.
- `Pathname` as a type: a developer directory is its path string, which is what `to_path` returns. `Pathname#+` is modelled only for relative suffixes whose first component is an ordinary name. The two suffixes the file uses are of that kind.
- XCInvoke.Installations: `Pathname(path)` raises `ArgumentError` on a path that contains a NUL character (lib/xcinvoke/xcode.rb:27, 41), and `strip` removes NUL only at the ends of a line. So for an `mdfind` line such as `/A\0B` Ruby's `each` raises, where the model builds an installation from it.
- Regular expressions in general. Only the two fixed patterns are modelled.
- Unicode case folding. Ruby's `/i` on a UTF-8 string folds non-ASCII characters too: U+017F `ſ` matches `s`. The model folds only `A`-`Z`. So output that spells the patterns' letters with such characters (`ſwift version 5 (swift-1)`) parses in Ruby but gives `nil` in the model.
- Character encodings: a string is a sequence of characters, with no byte-level or invalid-encoding behaviour.
- XCInvoke.Greatest: which of several installations with equal build versions `sort.last` returns is unspecified in Ruby, because `sort` is not stable. The model keeps the later one, and its contract promises only some maximal element.
- XCInvoke.FindSwiftVersion: maximality is stated only when `less` is a strict total order, the property the source assumes of `Liferaft::Version`, and when every match has a build number, without which `Xcode#<=>` cannot be evaluated.
