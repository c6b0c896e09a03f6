/** The parsers on the tool outputs that Xcode and Swift actually print. */
module ToolOutputExamples {
  import opened Wrappers
  import opened Text
  import opened ToolOutput

  /** `swift --version` of Xcode 13, written in the pieces the Swift pattern reads. */
  const SwiftOutput := "Apple " + ("Swift version " + ("5.5" + (" (" + ("swiftlang-" + ("1300.0.31.1" + SwiftTrailer)))))

  /** What follows the swiftlang build: the clang build and the target line. */
  const SwiftTrailer := " " + "clang-1300.0.29.1)\nTarget: x86_64-apple-macosx11.0\n"

  /** It yields the language version and the swiftlang build. */
  lemma SwiftInfoOfXcode13()
    ensures ParseSwiftInfo(SwiftOutput) == Some(("5.5", "1300.0.31.1"))
  {
    var v, b := "5.5", "1300.0.31.1";
    SwiftMatchAfterVendor(v, b);
    NoSwiftMatchInVendor();
    ParseSwiftInfoSpec(SwiftOutput, v, b);
  }

  /** The pattern matches right after the leading `Apple `. */
  lemma SwiftMatchAfterVendor(v: string, b: string)
    requires v == "5.5" && b == "1300.0.31.1"
    ensures SwiftMatchAt(SwiftOutput, 6, v, b)
  {
    var s := SwiftOutput;
    var head, tag, tail := "Swift version ", "swiftlang-", SwiftTrailer;
    assert s[6..] == head + (v + (" (" + (tag + (b + tail))));
    assert tail[0] == ' ';
    assert SwiftShape(s, 6, head, v, tag, b, tail);
    SwiftMatchIntro(s, 6, head, v, tag, b, tail);
  }

  /** The pattern does not match within the leading `Apple `, where no `S` stands. */
  lemma NoSwiftMatchInVendor()
    ensures NoSwiftMatchBefore(SwiftOutput, 6)
  {
    var s := SwiftOutput;
    forall j: nat, v', b' | j < 6 ensures !SwiftMatchAt(s, j, v', b') {
      assert s[j] == "Apple "[j];
      assert j == 0 || j == 1 || j == 2 || j == 3 || j == 4 || j == 5;
      NotPhraseAt(s, j, SwiftPhrase);
      MatchSwiftAtCorrect(s, j, v', b');
    }
  }

  /** A split of the right shape witnesses a match. */
  lemma SwiftMatchIntro(s: string, i: nat, head: string, v: string, tag: string, b: string, tail: string)
    requires SwiftShape(s, i, head, v, tag, b, tail)
    ensures SwiftMatchAt(s, i, v, b)
  {
  }

  /** A phrase does not start where its first letter is missing. */
  lemma NotPhraseAt(s: string, j: nat, lit: string)
    requires 0 < |lit| && j < |s| && Lower(s[j]) != Lower(lit[0])
    ensures !StartsWithIgnoringCase(s, j, lit)
  {
  }

  /** `xcodebuild -version` of Xcode 13.2.1, written in the pieces the Xcode pattern reads. */
  const XcodebuildOutput := "Xcode " + "13.2.1" + "\n" + "Build version " + "13C100" + "\n"

  /** It yields the marketing version and the build number. */
  lemma XcodebuildInfoOfXcode13()
    ensures ParseXcodebuildInfo(XcodebuildOutput) == Some(("13.2.1", "13C100"))
  {
    var s := XcodebuildOutput;
    var head, a, gap, phrase, b, tail := "Xcode ", "13.2.1", "\n", "Build version ", "13C100", "\n";
    var rest := gap + (phrase + (b + tail));
    assert s == head + (a + rest);
    XcodebuildMatchIntro(s, head, a, rest, gap, phrase, b, tail);
    forall a', b' | XcodebuildMatch(s, a', b') ensures |a| <= |a'| {
      XcodebuildLayoutIff(s, a', b');
      if |a'| < |a| {
        var n := |XcodePhrase| + |a'|;
        assert s[n] == a[|a'|];
        BuildTailHead(s[n..], b');
      }
    }
    ParseXcodebuildInfoSpec(s, a, b);
  }

  /** A split of the right shape witnesses a match. */
  lemma XcodebuildMatchIntro(s: string, head: string, a: string, rest: string,
                             gap: string, phrase: string, b: string, tail: string)
    requires s == head + (a + rest) && EqualsIgnoringCase(head, XcodePhrase) && '\n' !in a
    requires BuildShape(rest, gap, phrase, b, tail)
    ensures XcodebuildMatch(s, a, b)
  {
    assert XcodebuildShape(s, head, a, rest, b);
  }

  /** What follows the first capture opens with a blank or with the `B` of `Build version `. */
  lemma BuildTailHead(t: string, b: string)
    requires BuildTail(t, b)
    ensures 0 < |t| && (IsSpace(t[0]) || Lower(t[0]) == 'b')
  {
    var gap, phrase, tail :| BuildShape(t, gap, phrase, b, tail);
    if gap == [] {
      assert t[0] == phrase[0];
    } else {
      assert t[0] == gap[0];
    }
  }
}
