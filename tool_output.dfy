/**
 * The two fixed regular expressions of lib/xcinvoke/xcode.rb, each as a
 * hand-written matcher proved against a declarative description of what the
 * regexp accepts and which match Ruby returns.
 */
module ToolOutput {
  import opened Wrappers
  import opened Text

  /** The class `[\d\.]`: an ASCII digit or a dot. */
  predicate IsVersionChar(c: char) {
    '0' <= c <= '9' || c == '.'
  }

  /** A capture of `[\d\.]+`. */
  ghost predicate IsVersionToken(t: string) {
    |t| > 0 && All(t, IsVersionChar)
  }

  // ---------------------------------------------------------------------------
  // `swift --version`: /Swift version ([\d\.]+) \(swift(?:lang)?-([\d\.]+)/i
  // ---------------------------------------------------------------------------

  const SwiftPhrase := "Swift version "

  /** The text between `(` and the build token: `swift-` or `swiftlang-`, in any case. */
  ghost predicate IsSwiftTag(tag: string) {
    EqualsIgnoringCase(tag, "swift-") || EqualsIgnoringCase(tag, "swiftlang-")
  }

  /**
   * `s[i..]` splits as `head v " (" tag b tail` the way the Swift pattern
   * reads it. The second `[\d\.]+` is greedy, so `b` runs up to the first
   * character outside the class; the first one is followed by a space, so it
   * is whole anyway.
   */
  ghost predicate SwiftShape(s: string, i: nat, head: string, v: string, tag: string, b: string, tail: string) {
    && i <= |s|
    && s[i..] == head + (v + (" (" + (tag + (b + tail))))
    && EqualsIgnoringCase(head, SwiftPhrase)
    && IsVersionToken(v)
    && IsSwiftTag(tag)
    && IsVersionToken(b)
    && (tail == [] || !IsVersionChar(tail[0]))
  }

  /** The Swift pattern matches at position `i` of `s`, capturing `v` and `b`. */
  ghost predicate SwiftMatchAt(s: string, i: nat, v: string, b: string) {
    exists head, tag, tail :: SwiftShape(s, i, head, v, tag, b, tail)
  }

  /** No match of the Swift pattern starts before position `i`. */
  ghost predicate NoSwiftMatchBefore(s: string, i: nat) {
    forall j: nat, v, b :: j < i ==> !SwiftMatchAt(s, j, v, b)
  }

  /** The length of the tag at `t`, trying `swiftlang-` first as `(?:lang)?` does. */
  function SwiftTagLength(s: string, t: nat): Option<nat> {
    if StartsWithIgnoringCase(s, t, "swiftlang-") then Some(10)
    else if StartsWithIgnoringCase(s, t, "swift-") then Some(6)
    else None
  }

  /** The Swift pattern tried at position `i` only. */
  function MatchSwiftAt(s: string, i: nat): Option<(string, string)>
    requires i <= |s|
  {
    if !StartsWithIgnoringCase(s, i, SwiftPhrase) then None
    else
      var p := i + |SwiftPhrase|;
      var k := Span(s, p, IsVersionChar);
      if k == p || k + 2 > |s| || s[k..k + 2] != " (" then None
      else
        match SwiftTagLength(s, k + 2)
        case None => None
        case Some(n) =>
          var q := k + 2 + n;
          var e := Span(s, q, IsVersionChar);
          if e == q then None else Some((s[p..k], s[q..e]))
  }

  /** Six consecutive slices make up the suffix they cover. */
  lemma SixSlices(s: string, i: nat, p: nat, k: nat, t: nat, q: nat, e: nat)
    requires i <= p <= k <= t <= q <= e <= |s|
    ensures s[i..] == s[i..p] + (s[p..k] + (s[k..t] + (s[t..q] + (s[q..e] + s[e..]))))
  {
    assert s[i..] == s[i..p] + s[p..];
    assert s[p..] == s[p..k] + s[k..];
    assert s[k..] == s[k..t] + s[t..];
    assert s[t..] == s[t..q] + s[q..];
    assert s[q..] == s[q..e] + s[e..];
  }

  lemma MatchSwiftAtSound(s: string, i: nat)
    requires i <= |s| && MatchSwiftAt(s, i).Some?
    ensures SwiftMatchAt(s, i, MatchSwiftAt(s, i).value.0, MatchSwiftAt(s, i).value.1)
  {
    var p, k, q, e := SwiftPositions(s, i);
    SwiftShapeFromSlices(s, i, p, k, q, e);
  }

  /** Where the parts sit that a successful `MatchSwiftAt` read. */
  lemma SwiftPositions(s: string, i: nat) returns (p: nat, k: nat, q: nat, e: nat)
    requires i <= |s| && MatchSwiftAt(s, i).Some?
    ensures i <= p < k && k + 2 <= q < e <= |s|
    ensures EqualsIgnoringCase(s[i..p], SwiftPhrase)
    ensures forall c :: p <= c < k ==> IsVersionChar(s[c])
    ensures s[k..k + 2] == " (" && IsSwiftTag(s[k + 2..q])
    ensures forall c :: q <= c < e ==> IsVersionChar(s[c])
    ensures e == |s| || !IsVersionChar(s[e])
    ensures MatchSwiftAt(s, i).value == (s[p..k], s[q..e])
  {
    p := i + |SwiftPhrase|;
    k := Span(s, p, IsVersionChar);
    var n := SwiftTagLength(s, k + 2).value;
    TagLengthSound(s, k + 2);
    q := k + 2 + n;
    e := Span(s, q, IsVersionChar);
  }

  /** `SwiftTagLength` measures a tag that is there. */
  lemma TagLengthSound(s: string, t: nat)
    requires SwiftTagLength(s, t).Some?
    ensures t + SwiftTagLength(s, t).value <= |s| && IsSwiftTag(s[t..t + SwiftTagLength(s, t).value])
  {
  }

  /** Positions `i <= p < k`, `k + 2 <= q < e` that delimit the parts of the Swift pattern give its shape. */
  lemma SwiftShapeFromSlices(s: string, i: nat, p: nat, k: nat, q: nat, e: nat)
    requires i <= p < k && k + 2 <= q < e <= |s|
    requires EqualsIgnoringCase(s[i..p], SwiftPhrase)
    requires forall c :: p <= c < k ==> IsVersionChar(s[c])
    requires s[k..k + 2] == " (" && IsSwiftTag(s[k + 2..q])
    requires forall c :: q <= c < e ==> IsVersionChar(s[c])
    requires e == |s| || !IsVersionChar(s[e])
    ensures SwiftShape(s, i, s[i..p], s[p..k], s[k + 2..q], s[q..e], s[e..])
  {
    SixSlices(s, i, p, k, k + 2, q, e);
    assert s[k..k + 2] == " (";
    var v, b := s[p..k], s[q..e];
    assert All(v, IsVersionChar) by {
      forall c | 0 <= c < |v| ensures IsVersionChar(v[c]) {
        assert v[c] == s[p + c];
      }
    }
    assert All(b, IsVersionChar) by {
      forall c | 0 <= c < |b| ensures IsVersionChar(b[c]) {
        assert b[c] == s[q + c];
      }
    }
    if e < |s| {
      assert s[e..][0] == s[e];
    }
  }

  /** A suffix that splits as `x + y` has `x` at its start and `y` after it. */
  lemma Peel(s: string, i: nat, x: string, y: string)
    requires i <= |s| && s[i..] == x + y
    ensures i + |x| <= |s| && s[i..i + |x|] == x && s[i + |x|..] == y
  {
    assert s[i..i + |x|] == (x + y)[..|x|];
    assert s[i + |x|..] == (x + y)[|x|..];
  }

  /** Where each part of a Swift-pattern shape sits in `s`: `head` from `i`, `v` from `p`, `" ("` from `k`, `tag` from `k + 2`, `b` from `q`, `tail` from `e`. */
  lemma ShapeSlices(s: string, i: nat, head: string, v: string, tag: string, b: string, tail: string)
    requires i <= |s| && s[i..] == head + (v + (" (" + (tag + (b + tail))))
    ensures var p := i + |head|; var k := p + |v|; var q := k + 2 + |tag|; var e := q + |b|;
            && e + |tail| == |s|
            && s[i..p] == head && s[p..k] == v && s[k..k + 2] == " ("
            && s[k + 2..q] == tag && s[q..e] == b && s[e..] == tail
  {
    var p := i + |head|;
    Peel(s, i, head, v + (" (" + (tag + (b + tail))));
    var k := p + |v|;
    Peel(s, p, v, " (" + (tag + (b + tail)));
    Peel(s, k, " (", tag + (b + tail));
    var q := k + 2 + |tag|;
    Peel(s, k + 2, tag, b + tail);
    Peel(s, q, b, tail);
  }

  /** A case-insensitive copy of `lit` at `i` is what `StartsWithIgnoringCase` looks for. */
  lemma PhraseAt(s: string, i: nat, head: string, lit: string)
    requires i + |head| <= |s| && s[i..i + |head|] == head && EqualsIgnoringCase(head, lit)
    ensures |head| == |lit| && StartsWithIgnoringCase(s, i, lit)
  {
  }

  lemma MatchSwiftAtComplete(s: string, i: nat, v: string, b: string)
    requires SwiftMatchAt(s, i, v, b)
    ensures MatchSwiftAt(s, i) == Some((v, b))
  {
    var head, tag, tail :| SwiftShape(s, i, head, v, tag, b, tail);
    var p := i + |head|;
    var k := p + |v|;
    var q := k + 2 + |tag|;
    var e := q + |b|;
    ShapeSlices(s, i, head, v, tag, b, tail);
    assert s[i..p] == head && s[p..k] == v && s[k + 2..q] == tag && s[q..e] == b && s[e..] == tail;
    PhraseAt(s, i, head, SwiftPhrase);
    assert e == |s| || !IsVersionChar(s[e]) by {
      if e < |s| {
        assert s[e..][0] == s[e];
      }
    }
    MatchSwiftAtFromSlices(s, i, k, q, e);
  }

  /** The Swift pattern laid out slice by slice from `i` is found by `MatchSwiftAt`. */
  lemma MatchSwiftAtFromSlices(s: string, i: nat, k: nat, q: nat, e: nat)
    requires StartsWithIgnoringCase(s, i, SwiftPhrase)
    requires i + |SwiftPhrase| <= k && k + 2 <= q <= e <= |s|
    requires IsVersionToken(s[i + |SwiftPhrase|..k]) && s[k..k + 2] == " ("
    requires IsSwiftTag(s[k + 2..q]) && IsVersionToken(s[q..e])
    requires e == |s| || !IsVersionChar(s[e])
    ensures MatchSwiftAt(s, i) == Some((s[i + |SwiftPhrase|..k], s[q..e]))
  {
    SwiftStepsFromSlices(s, i + |SwiftPhrase|, k, q, e);
    MatchSwiftAtSteps(s, i, k, q - (k + 2), e);
  }

  /** What each step of `MatchSwiftAt` finds when the parts sit at `p`, `k`, `k + 2`, `q` and `e`. */
  lemma SwiftStepsFromSlices(s: string, p: nat, k: nat, q: nat, e: nat)
    requires p <= k && k + 2 <= q <= e <= |s|
    requires IsVersionToken(s[p..k]) && s[k..k + 2] == " ("
    requires IsSwiftTag(s[k + 2..q]) && IsVersionToken(s[q..e])
    requires e == |s| || !IsVersionChar(s[e])
    ensures Span(s, p, IsVersionChar) == k && k != p
    ensures SwiftTagLength(s, k + 2) == Some(q - (k + 2))
    ensures Span(s, q, IsVersionChar) == e && e != q
  {
    var v, tag, b := s[p..k], s[k + 2..q], s[q..e];
    assert s[k] == ' ' by {
      assert s[k..k + 2] == " (";
    }
    SpanCovers(s, p, v, IsVersionChar);
    TagLength(s, k + 2, tag);
    SpanCovers(s, q, b, IsVersionChar);
  }

  /** `MatchSwiftAt` succeeds once each of its steps does. */
  lemma MatchSwiftAtSteps(s: string, i: nat, k: nat, n: nat, e: nat)
    requires StartsWithIgnoringCase(s, i, SwiftPhrase)
    requires Span(s, i + |SwiftPhrase|, IsVersionChar) == k && k != i + |SwiftPhrase|
    requires k + 2 <= |s| && s[k..k + 2] == " ("
    requires SwiftTagLength(s, k + 2) == Some(n) && k + 2 + n <= |s|
    requires Span(s, k + 2 + n, IsVersionChar) == e && e != k + 2 + n
    ensures MatchSwiftAt(s, i) == Some((s[i + |SwiftPhrase|..k], s[k + 2 + n..e]))
  {
  }

  lemma TagLength(s: string, t: nat, tag: string)
    requires t + |tag| <= |s| && s[t..t + |tag|] == tag && IsSwiftTag(tag)
    ensures SwiftTagLength(s, t) == Some(|tag|)
  {
    if EqualsIgnoringCase(tag, "swift-") {
      assert Lower(s[t + 5]) == '-';
      assert !StartsWithIgnoringCase(s, t, "swiftlang-");
    }
  }

  /** `MatchSwiftAt` is exactly the pattern anchored at `i`. */
  lemma MatchSwiftAtCorrect(s: string, i: nat, v: string, b: string)
    requires i <= |s|
    ensures MatchSwiftAt(s, i) == Some((v, b)) <==> SwiftMatchAt(s, i, v, b)
  {
    if MatchSwiftAt(s, i) == Some((v, b)) {
      MatchSwiftAtSound(s, i);
    }
    if SwiftMatchAt(s, i, v, b) {
      MatchSwiftAtComplete(s, i, v, b);
    }
  }

  /** The unanchored search `=~`: the first position from `i` on where the pattern matches. */
  function SearchSwift(s: string, i: nat): (r: Option<(string, string)>)
    requires i <= |s|
    ensures r.Some? ==> exists j :: i <= j <= |s| && MatchSwiftAt(s, j) == r
                                    && forall j' :: i <= j' < j ==> MatchSwiftAt(s, j').None?
    ensures r.None? ==> forall j :: i <= j <= |s| ==> MatchSwiftAt(s, j).None?
  {
    assert forall j :: i <= j <= |s| ==> SwiftAt(s)(j) == MatchSwiftAt(s, j);
    Leftmost(SwiftAt(s), i, |s|)
  }

  /** `MatchSwiftAt` as a total function of the position. */
  function SwiftAt(s: string): nat -> Option<(string, string)> {
    (j: nat) => if j <= |s| then MatchSwiftAt(s, j) else None
  }

  /** The first position from `i` up to `n` where `at` gives a result: the scan of an unanchored `=~`. */
  function Leftmost<R>(at: nat -> Option<R>, i: nat, n: nat): (r: Option<R>)
    requires i <= n
    ensures r.Some? ==> exists j :: i <= j <= n && at(j) == r && forall j' :: i <= j' < j ==> at(j').None?
    ensures r.None? ==> forall j :: i <= j <= n ==> at(j).None?
    decreases n - i
  {
    match at(i)
    case Some(m) => Some(m)
    case None => if i < n then Leftmost(at, i + 1, n) else None
  }

  /**
   * `swift_info` on the captured output: the two captures of the leftmost
   * match, or `nil`. Both are non-empty runs of digits and dots.
   */
  function ParseSwiftInfo(s: string): (r: Option<(string, string)>)
    ensures r.Some? ==> IsVersionToken(r.value.0) && IsVersionToken(r.value.1)
  {
    SearchSwiftTokens(s);
    SearchSwift(s, 0)
  }

  lemma SearchSwiftTokens(s: string)
    ensures SearchSwift(s, 0).Some? ==>
              IsVersionToken(SearchSwift(s, 0).value.0) && IsVersionToken(SearchSwift(s, 0).value.1)
  {
    if SearchSwift(s, 0).Some? {
      var j :| 0 <= j <= |s| && MatchSwiftAt(s, j) == SearchSwift(s, 0);
      MatchSwiftAtSound(s, j);
    }
  }

  /**
   * `swift_info` returns `[v, b]` exactly when the pattern matches at some
   * position with those captures and nowhere to the left of it.
   */
  lemma ParseSwiftInfoSpec(s: string, v: string, b: string)
    ensures ParseSwiftInfo(s) == Some((v, b)) <==>
            exists i: nat :: SwiftMatchAt(s, i, v, b) && NoSwiftMatchBefore(s, i)
  {
    if ParseSwiftInfo(s) == Some((v, b)) {
      ParseSwiftInfoFound(s, v, b);
    }
    if exists i: nat :: SwiftMatchAt(s, i, v, b) && NoSwiftMatchBefore(s, i) {
      var i: nat :| SwiftMatchAt(s, i, v, b) && NoSwiftMatchBefore(s, i);
      ParseSwiftInfoFinds(s, i, v, b);
    }
  }

  /** What `swift_info` returns is the leftmost match. */
  lemma ParseSwiftInfoFound(s: string, v: string, b: string)
    requires ParseSwiftInfo(s) == Some((v, b))
    ensures exists i: nat :: SwiftMatchAt(s, i, v, b) && NoSwiftMatchBefore(s, i)
  {
    var i :| 0 <= i <= |s| && MatchSwiftAt(s, i) == Some((v, b))
             && forall j' :: 0 <= j' < i ==> MatchSwiftAt(s, j').None?;
    MatchSwiftAtCorrect(s, i, v, b);
    forall j: nat, v', b' | j < i ensures !SwiftMatchAt(s, j, v', b') {
      MatchSwiftAtCorrect(s, j, v', b');
    }
  }

  /** The leftmost match is what `swift_info` returns. */
  lemma ParseSwiftInfoFinds(s: string, i: nat, v: string, b: string)
    requires SwiftMatchAt(s, i, v, b) && NoSwiftMatchBefore(s, i)
    ensures ParseSwiftInfo(s) == Some((v, b))
  {
    var head, tag, tail :| SwiftShape(s, i, head, v, tag, b, tail);
    MatchSwiftAtCorrect(s, i, v, b);
    forall j | 0 <= j < i ensures MatchSwiftAt(s, j).None? {
      if MatchSwiftAt(s, j).Some? {
        MatchSwiftAtSound(s, j);
      }
    }
  }

  /** `swift_info` is `nil` exactly when the pattern matches nowhere. */
  lemma ParseSwiftInfoNone(s: string)
    ensures ParseSwiftInfo(s).None? <==> forall i: nat, v, b :: !SwiftMatchAt(s, i, v, b)
  {
    if ParseSwiftInfo(s).None? {
      forall i: nat, v, b ensures !SwiftMatchAt(s, i, v, b) {
        if i <= |s| {
          MatchSwiftAtCorrect(s, i, v, b);
        }
      }
    } else {
      var j :| 0 <= j <= |s| && MatchSwiftAt(s, j) == ParseSwiftInfo(s);
      MatchSwiftAtSound(s, j);
    }
  }

  // ---------------------------------------------------------------------------
  // `xcodebuild -version`: /\AXcode (.*?)\s*Build version (.*?)\s*\Z/i
  // ---------------------------------------------------------------------------

  const XcodePhrase := "Xcode "
  const BuildPhrase := "Build version "

  /** `b` does not end in `\s`: what the lazy `(.*?)` before a final `\s*\Z` leaves out. */
  predicate NoTrailingSpace(b: string) {
    b == [] || !IsSpace(b[|b| - 1])
  }

  /**
   * `t` splits as `gap phrase b tail` the way the part of the Xcode pattern after
   * the first capture reads it: `\s*`, `Build version `, the second capture
   * (`.` stops at a line feed) and `\s*` up to the end, where `\Z` also allows
   * one final line feed, itself a `\s`.
   */
  ghost predicate BuildShape(t: string, gap: string, phrase: string, b: string, tail: string) {
    && t == gap + (phrase + (b + tail))
    && All(gap, IsSpace)
    && EqualsIgnoringCase(phrase, BuildPhrase)
    && '\n' !in b
    && All(tail, IsSpace)
  }

  ghost predicate BuildTail(t: string, b: string) {
    exists gap, phrase, tail :: BuildShape(t, gap, phrase, b, tail)
  }

  /** `s` splits as `head a gap phrase b tail`: one way the whole Xcode pattern can match. */
  ghost predicate XcodebuildShape(s: string, head: string, a: string, rest: string, b: string) {
    && s == head + (a + rest)
    && EqualsIgnoringCase(head, XcodePhrase)
    && '\n' !in a
    && BuildTail(rest, b)
  }

  /** The Xcode pattern can match all of `s` with captures `a` and `b`. */
  ghost predicate XcodebuildMatch(s: string, a: string, b: string) {
    exists head, rest :: XcodebuildShape(s, head, a, rest, b)
  }

  /** No match of the Xcode pattern has a shorter first capture than `a`: the lazy `(.*?)`. */
  ghost predicate ShortestFirstCapture(s: string, a: string) {
    forall a', b' :: XcodebuildMatch(s, a', b') ==> |a| <= |a'|
  }

  /**
   * The rest of the pattern once the first capture ends at `q`: the greedy
   * `\s*` can only stop at the end of the blank run, since `Build version `
   * does not start with a blank; the lazy second capture ends at the last
   * non-blank character and must not hold a line feed.
   */
  function BuildAfter(s: string, q: nat): Option<string>
    requires q <= |s|
  {
    var w := Span(s, q, IsSpace);
    if !StartsWithIgnoringCase(s, w, BuildPhrase) then None
    else
      var r := w + |BuildPhrase|;
      var e := SpanBack(s, r, IsSpace);
      if '\n' in s[r..e] then None else Some(s[r..e])
  }

  /**
   * The lazy `(.*?)` of the first capture: its end moves right one character
   * at a time from `q`, never past a line feed, until `rest` matches there.
   * Returns where the capture ends and what `rest` captured.
   */
  function LazyCapture(s: string, q: nat, rest: nat -> Option<string>): (r: Option<(nat, string)>)
    requires q <= |s|
    ensures r.Some? ==> q <= r.value.0 <= |s| && '\n' !in s[q..r.value.0] && rest(r.value.0) == Some(r.value.1)
    ensures forall q' :: q <= q' <= |s| && '\n' !in s[q..q'] && rest(q').Some? ==> r.Some? && r.value.0 <= q'
    decreases |s| - q
  {
    match rest(q)
    case Some(b) => Some((q, b))
    case None =>
      if q < |s| && s[q] != '\n' then
        var r := LazyCapture(s, q + 1, rest);
        assert forall q' :: q + 1 <= q' <= |s| && '\n' !in s[q..q'] ==> '\n' !in s[q + 1..q'] by {
          forall q' | q + 1 <= q' <= |s| && '\n' !in s[q..q'] ensures '\n' !in s[q + 1..q'] {
            assert s[q + 1..q'] == s[q..q'][1..];
          }
        }
        assert r.Some? ==> '\n' !in s[q..r.value.0] by {
          if r.Some? {
            assert s[q..r.value.0] == [s[q]] + s[q + 1..r.value.0];
          }
        }
        r
      else
        assert forall q' :: q < q' <= |s| ==> '\n' in s[q..q'] by {
          forall q' | q < q' <= |s| ensures '\n' in s[q..q'] {
            assert s[q..q'][0] == s[q];
          }
        }
        None
  }

  /** `BuildAfter` as a total function of the end of the first capture. */
  function BuildStep(s: string): nat -> Option<string> {
    (q: nat) => if q <= |s| then BuildAfter(s, q) else None
  }

  /** `xcodebuild_info` on the captured output: the two captures, or `nil`. */
  function ParseXcodebuildInfo(s: string): (r: Option<(string, string)>)
    ensures r.Some? ==> StartsWithIgnoringCase(s, 0, XcodePhrase) && '\n' !in r.value.0
  {
    if !StartsWithIgnoringCase(s, 0, XcodePhrase) then None
    else
      match LazyCapture(s, |XcodePhrase|, BuildStep(s))
      case None => None
      case Some((qe, b)) => Some((s[|XcodePhrase|..qe], b))
  }

  /** Four consecutive slices make up the suffix they cover. */
  lemma FourSlices(s: string, q: nat, w: nat, r: nat, e: nat)
    requires q <= w <= r <= e <= |s|
    ensures s[q..] == s[q..w] + (s[w..r] + (s[r..e] + s[e..]))
  {
    assert s[q..] == s[q..w] + s[w..];
    assert s[w..] == s[w..r] + s[r..];
    assert s[r..] == s[r..e] + s[e..];
  }

  lemma BuildAfterSound(s: string, q: nat)
    requires q <= |s| && BuildAfter(s, q).Some?
    ensures BuildTail(s[q..], BuildAfter(s, q).value)
    ensures NoTrailingSpace(BuildAfter(s, q).value)
  {
    var w := Span(s, q, IsSpace);
    var r := w + |BuildPhrase|;
    var e := SpanBack(s, r, IsSpace);
    assert BuildAfter(s, q).value == s[r..e];
    BuildShapeFromSlices(s, q, w, r, e);
  }

  /** Positions `q <= w <= r <= e` that delimit the parts after the first capture give their shape. */
  lemma BuildShapeFromSlices(s: string, q: nat, w: nat, r: nat, e: nat)
    requires q <= w <= r <= e <= |s|
    requires forall c :: q <= c < w ==> IsSpace(s[c])
    requires EqualsIgnoringCase(s[w..r], BuildPhrase)
    requires '\n' !in s[r..e]
    requires forall c :: e <= c < |s| ==> IsSpace(s[c])
    requires e == r || !IsSpace(s[e - 1])
    ensures BuildShape(s[q..], s[q..w], s[w..r], s[r..e], s[e..])
    ensures BuildTail(s[q..], s[r..e]) && NoTrailingSpace(s[r..e])
  {
    FourSlices(s, q, w, r, e);
    var gap, b, tail := s[q..w], s[r..e], s[e..];
    assert All(gap, IsSpace) by {
      forall c | 0 <= c < |gap| ensures IsSpace(gap[c]) {
        assert gap[c] == s[q + c];
      }
    }
    assert All(tail, IsSpace) by {
      forall c | 0 <= c < |tail| ensures IsSpace(tail[c]) {
        assert tail[c] == s[e + c];
      }
    }
    if e > r {
      assert b[|b| - 1] == s[e - 1];
    }
    assert BuildShape(s[q..], gap, s[w..r], b, tail);
  }

  /** A letter that folds to `b` is not blank. */
  lemma FoldsToBNotSpace(c: char)
    requires Lower(c) == 'b'
    ensures !IsSpace(c)
  {
  }

  lemma BuildAfterComplete(s: string, q: nat, b: string)
    requires q <= |s| && BuildTail(s[q..], b)
    ensures BuildAfter(s, q).Some?
    ensures NoTrailingSpace(b) ==> BuildAfter(s, q) == Some(b)
  {
    var gap, phrase, tail :| BuildShape(s[q..], gap, phrase, b, tail);
    var w := q + |gap|;
    var r := w + |phrase|;
    var e := r + |b|;
    Peel(s, q, gap, phrase + (b + tail));
    Peel(s, w, phrase, b + tail);
    Peel(s, r, b, tail);
    PhraseAt(s, w, phrase, BuildPhrase);
    assert forall k :: e <= k < |s| ==> IsSpace(s[k]) by {
      forall k | e <= k < |s| ensures IsSpace(s[k]) {
        assert s[k] == tail[k - e];
      }
    }
    BuildAfterFromSlices(s, q, gap, b);
  }

  /** The rest of the Xcode pattern laid out slice by slice from `q` is found by `BuildAfter`. */
  lemma BuildAfterFromSlices(s: string, q: nat, gap: string, b: string)
    requires q + |gap| + |BuildPhrase| + |b| <= |s|
    requires s[q..q + |gap|] == gap && All(gap, IsSpace)
    requires StartsWithIgnoringCase(s, q + |gap|, BuildPhrase)
    requires s[q + |gap| + |BuildPhrase|..q + |gap| + |BuildPhrase| + |b|] == b && '\n' !in b
    requires forall k :: q + |gap| + |BuildPhrase| + |b| <= k < |s| ==> IsSpace(s[k])
    ensures BuildAfter(s, q).Some?
    ensures NoTrailingSpace(b) ==> BuildAfter(s, q) == Some(b)
  {
    var w := q + |gap|;
    var r := w + |BuildPhrase|;
    var e := r + |b|;
    assert Lower(s[w]) == 'b' by {
      assert s[w..w + |BuildPhrase|][0] == s[w];
    }
    FoldsToBNotSpace(s[w]);
    SpanCovers(s, q, gap, IsSpace);
    var e' := SecondCaptureEnd(s, r, b);
    BuildAfterSteps(s, q, w, e');
  }

  /**
   * The lazy second capture ends within `b` when `b` is followed only by blanks,
   * and exactly at its end when `b` has no trailing blank.
   */
  lemma SecondCaptureEnd(s: string, r: nat, b: string) returns (e': nat)
    requires r + |b| <= |s| && s[r..r + |b|] == b && '\n' !in b
    requires forall k :: r + |b| <= k < |s| ==> IsSpace(s[k])
    ensures e' == SpanBack(s, r, IsSpace) && r <= e' <= r + |b|
    ensures '\n' !in s[r..e']
    ensures NoTrailingSpace(b) ==> s[r..e'] == b
  {
    var e := r + |b|;
    SpanBackAtMost(s, r, IsSpace, e);
    e' := SpanBack(s, r, IsSpace);
    assert '\n' !in s[r..e'] by {
      forall k | 0 <= k < e' - r ensures s[r..e'][k] != '\n' {
        assert s[r..e'][k] == b[k];
      }
    }
    if NoTrailingSpace(b) {
      assert e > r ==> s[e - 1] == b[|b| - 1];
      SpanBackAtLeast(s, r, IsSpace, e);
    }
  }

  /** `BuildAfter` succeeds once each of its steps does. */
  lemma BuildAfterSteps(s: string, q: nat, w: nat, e: nat)
    requires q <= |s| && Span(s, q, IsSpace) == w
    requires StartsWithIgnoringCase(s, w, BuildPhrase)
    requires SpanBack(s, w + |BuildPhrase|, IsSpace) == e
    requires '\n' !in s[w + |BuildPhrase|..e]
    ensures BuildAfter(s, q) == Some(s[w + |BuildPhrase|..e])
  {
  }

  /** The Xcode pattern, read as "`Xcode ` then `a` then the rest", position by position. */
  ghost predicate XcodebuildLayout(s: string, a: string, b: string) {
    && StartsWithIgnoringCase(s, 0, XcodePhrase)
    && |XcodePhrase| + |a| <= |s|
    && s[|XcodePhrase|..|XcodePhrase| + |a|] == a
    && '\n' !in a
    && BuildTail(s[|XcodePhrase| + |a|..], b)
  }

  lemma XcodebuildLayoutIff(s: string, a: string, b: string)
    ensures XcodebuildMatch(s, a, b) <==> XcodebuildLayout(s, a, b)
  {
    if XcodebuildMatch(s, a, b) {
      var head, rest :| XcodebuildShape(s, head, a, rest, b);
      assert s[0..] == s;
      Peel(s, 0, head, a + rest);
      Peel(s, |head|, a, rest);
      PhraseAt(s, 0, head, XcodePhrase);
    }
    if XcodebuildLayout(s, a, b) {
      var n := |XcodePhrase|;
      var head, rest := s[..n], s[n + |a|..];
      assert s == head + (a + rest) by {
        assert s == s[..n] + s[n..];
        assert s[n..] == s[n..n + |a|] + s[n + |a|..];
      }
      assert XcodebuildShape(s, head, a, rest, b);
    }
  }

  /** What `LazyCapture` found, read back through `BuildStep`. */
  lemma LazyCaptureFound(s: string)
    requires |XcodePhrase| <= |s| && LazyCapture(s, |XcodePhrase|, BuildStep(s)).Some?
    ensures var (qe, b) := LazyCapture(s, |XcodePhrase|, BuildStep(s)).value;
            |XcodePhrase| <= qe <= |s| && BuildAfter(s, qe) == Some(b)
  {
  }

  /** A match of the whole pattern gives the lazy search a place to stop. */
  lemma LazyCaptureStops(s: string, a: string, b: string)
    requires XcodebuildLayout(s, a, b)
    ensures LazyCapture(s, |XcodePhrase|, BuildStep(s)).Some?
    ensures LazyCapture(s, |XcodePhrase|, BuildStep(s)).value.0 <= |XcodePhrase| + |a|
  {
    var q' := |XcodePhrase| + |a|;
    BuildAfterComplete(s, q', b);
    assert BuildStep(s)(q').Some?;
  }

  /**
   * What `xcodebuild_info` returns is a match of the whole pattern whose
   * first capture is as short as any match allows and whose second capture
   * has no trailing blank; the output starts with `Xcode ` and contains
   * `Build version ` (both in any case).
   */
  lemma ParseXcodebuildInfoSound(s: string)
    requires ParseXcodebuildInfo(s).Some?
    ensures var (a, b) := ParseXcodebuildInfo(s).value;
            && XcodebuildMatch(s, a, b) && ShortestFirstCapture(s, a)
            && '\n' !in a && '\n' !in b && NoTrailingSpace(b)
    ensures StartsWithIgnoringCase(s, 0, XcodePhrase)
    ensures exists i: nat :: StartsWithIgnoringCase(s, i, BuildPhrase)
  {
    var (a, b) := ParseXcodebuildInfo(s).value;
    LazyCaptureFound(s);
    var qe := LazyCapture(s, |XcodePhrase|, BuildStep(s)).value.0;
    assert qe == |XcodePhrase| + |a|;
    BuildAfterSound(s, qe);
    assert StartsWithIgnoringCase(s, Span(s, qe, IsSpace), BuildPhrase);
    assert XcodebuildLayout(s, a, b);
    XcodebuildLayoutIff(s, a, b);
    var gap, phrase, tail :| BuildShape(s[qe..], gap, phrase, b, tail);
    forall a', b' | XcodebuildMatch(s, a', b') ensures |a| <= |a'| {
      XcodebuildLayoutIff(s, a', b');
      LazyCaptureStops(s, a', b');
    }
  }

  /**
   * `xcodebuild_info` returns `[a, b]` exactly when the pattern matches the
   * whole output with captures `a` and `b`, `a` is the shortest first capture
   * of any match, and `b` has no trailing blank: the choices the two lazy
   * `(.*?)` make.
   */
  lemma ParseXcodebuildInfoSpec(s: string, a: string, b: string)
    ensures ParseXcodebuildInfo(s) == Some((a, b)) <==>
            XcodebuildMatch(s, a, b) && ShortestFirstCapture(s, a) && NoTrailingSpace(b)
  {
    if ParseXcodebuildInfo(s) == Some((a, b)) {
      ParseXcodebuildInfoSound(s);
    }
    if XcodebuildMatch(s, a, b) && ShortestFirstCapture(s, a) && NoTrailingSpace(b) {
      ParseXcodebuildInfoFinds(s, a, b);
    }
  }

  /** The match with the shortest first capture and a build without trailing blank is what `xcodebuild_info` returns. */
  lemma ParseXcodebuildInfoFinds(s: string, a: string, b: string)
    requires XcodebuildMatch(s, a, b) && ShortestFirstCapture(s, a) && NoTrailingSpace(b)
    ensures ParseXcodebuildInfo(s) == Some((a, b))
  {
    XcodebuildLayoutIff(s, a, b);
    LazyCaptureStops(s, a, b);
    var qe := |XcodePhrase| + |a|;
    var (q0, b0) := LazyCapture(s, |XcodePhrase|, BuildStep(s)).value;
    assert ParseXcodebuildInfo(s) == Some((s[|XcodePhrase|..q0], b0));
    ParseXcodebuildInfoSound(s);
    assert XcodebuildMatch(s, s[|XcodePhrase|..q0], b0);
    assert q0 == qe;
    LazyCaptureFound(s);
    BuildAfterComplete(s, qe, b);
  }

  /** `xcodebuild_info` is `nil` exactly when the pattern cannot match the whole output. */
  lemma ParseXcodebuildInfoNone(s: string)
    ensures ParseXcodebuildInfo(s).None? <==> forall a, b :: !XcodebuildMatch(s, a, b)
  {
    if ParseXcodebuildInfo(s).Some? {
      ParseXcodebuildInfoSound(s);
    } else {
      forall a, b ensures !XcodebuildMatch(s, a, b) {
        XcodebuildLayoutIff(s, a, b);
        if XcodebuildLayout(s, a, b) {
          LazyCaptureStops(s, a, b);
        }
      }
    }
  }
}
