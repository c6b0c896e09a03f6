/**
 * The pieces of Ruby's String behaviour that lib/xcinvoke/xcode.rb relies on:
 * the regexp character classes, ASCII case folding, `strip` and
 * `split("\n")`.
 */
module Text {

  /** Ruby's regexp class `\s`: space, tab, line feed, vertical tab, form feed, carriage return. */
  predicate IsSpace(c: char) {
    c == ' ' || c == '\t' || c == '\n' || c == '\U{000B}' || c == '\U{000C}' || c == '\r'
  }

  /** What `String#strip` removes at either end: the `\s` characters and NUL. */
  predicate IsStripped(c: char) {
    IsSpace(c) || c == '\0'
  }

  /** Every character of `t` satisfies `p`. */
  ghost predicate All(t: string, p: char -> bool) {
    forall k :: 0 <= k < |t| ==> p(t[k])
  }

  /** ASCII lower-casing, the folding a `/i` regexp applies to the letters of its pattern. */
  function Lower(c: char): char {
    if 'A' <= c <= 'Z' then (c as int + 32) as char else c
  }

  /** `t` spells `lit` up to ASCII case. */
  predicate EqualsIgnoringCase(t: string, lit: string) {
    |t| == |lit| && forall k :: 0 <= k < |t| ==> Lower(t[k]) == Lower(lit[k])
  }

  /** `s` holds `lit`, up to ASCII case, at position `i`. */
  predicate StartsWithIgnoringCase(s: string, i: nat, lit: string) {
    i + |lit| <= |s| && EqualsIgnoringCase(s[i..i + |lit|], lit)
  }

  /** The end of the longest run of `p`-characters starting at `i` (a greedy `[...]*`). */
  function Span(s: string, i: nat, p: char -> bool): (j: nat)
    requires i <= |s|
    ensures i <= j <= |s|
    ensures forall k :: i <= k < j ==> p(s[k])
    ensures j == |s| || !p(s[j])
    decreases |s| - i
  {
    if i < |s| && p(s[i]) then Span(s, i + 1, p) else i
  }

  /** The three properties of `Span` pin its result down. */
  lemma SpanUnique(s: string, i: nat, p: char -> bool, j: nat)
    requires i <= j <= |s|
    requires forall k :: i <= k < j ==> p(s[k])
    requires j == |s| || !p(s[j])
    ensures Span(s, i, p) == j
  {
  }

  /** A run `t` of `p`-characters placed at `i` and not followed by another is what `Span` finds. */
  lemma SpanCovers(s: string, i: nat, t: string, p: char -> bool)
    requires i + |t| <= |s| && s[i..i + |t|] == t && All(t, p)
    requires i + |t| == |s| || !p(s[i + |t|])
    ensures Span(s, i, p) == i + |t|
  {
    forall k | i <= k < i + |t| ensures p(s[k]) {
      assert s[k] == t[k - i];
    }
    SpanUnique(s, i, p, i + |t|);
  }

  /** The start of the longest run of `p`-characters that ends `s`, looking no further left than `lo`. */
  function SpanBack(s: string, lo: nat, p: char -> bool): (j: nat)
    requires lo <= |s|
    ensures lo <= j <= |s|
    ensures forall k :: j <= k < |s| ==> p(s[k])
    ensures j == lo || !p(s[j - 1])
    decreases |s| - lo
  {
    if lo == |s| then lo
    else
      var j' := SpanBack(s, lo + 1, p);
      if j' == lo + 1 && p(s[lo]) then lo else j'
  }

  /** `SpanBack` stops no later than the start of any run of `p`-characters that ends `s`. */
  lemma SpanBackAtMost(s: string, lo: nat, p: char -> bool, m: nat)
    requires lo <= m <= |s|
    requires forall k :: m <= k < |s| ==> p(s[k])
    ensures SpanBack(s, lo, p) <= m
  {
  }

  /** `SpanBack` does not pass a character outside `p`. */
  lemma SpanBackAtLeast(s: string, lo: nat, p: char -> bool, m: nat)
    requires lo <= m <= |s|
    requires m > lo ==> !p(s[m - 1])
    ensures m <= SpanBack(s, lo, p)
  {
  }

  /** `String#strip`: `t` without its leading and trailing whitespace and NUL characters. */
  function Strip(t: string): (r: string)
    ensures exists i, j :: 0 <= i <= j <= |t| && r == t[i..j] && All(t[..i], IsStripped) && All(t[j..], IsStripped)
    ensures r == [] || (!IsStripped(r[0]) && !IsStripped(r[|r| - 1]))
  {
    var i := Span(t, 0, IsStripped);
    var j := SpanBack(t, i, IsStripped);
    assert All(t[..i], IsStripped) && All(t[j..], IsStripped);
    t[i..j]
  }

  /** `strip` only removes characters: whatever the result holds, `t` holds. */
  lemma StripChars(t: string)
    ensures forall c :: c in Strip(t) ==> c in t
  {
    var i, j :| 0 <= i <= j <= |t| && Strip(t) == t[i..j];
    forall c | c in Strip(t) ensures c in t {
      var k :| 0 <= k < |Strip(t)| && Strip(t)[k] == c;
      assert t[i + k] == c;
    }
  }

  /** The pieces are joined back with a line feed between each two. */
  function JoinLines(ps: seq<string>): string {
    if |ps| == 0 then ""
    else if |ps| == 1 then ps[0]
    else ps[0] + "\n" + JoinLines(ps[1..])
  }

  /** All pieces of `s` between line feeds, empty ones included: one more than there are line feeds. */
  function Pieces(s: string): (ps: seq<string>)
    ensures |ps| > 0
    ensures forall k :: 0 <= k < |ps| ==> '\n' !in ps[k]
    ensures JoinLines(ps) == s
    decreases |s|
  {
    if s == "" then [""]
    else
      var rest := Pieces(s[1..]);
      if s[0] == '\n' then
        assert ([""] + rest)[1..] == rest;
        [""] + rest
      else
        var ps := [[s[0]] + rest[0]] + rest[1..];
        assert ps[1..] == rest[1..];
        assert |rest| > 1 ==> JoinLines(rest) == rest[0] + "\n" + JoinLines(rest[1..]);
        assert s == [s[0]] + s[1..];
        ps
  }

  /** The trailing empty pieces removed, as Ruby's `split` does. */
  function DropTrailingEmpty(ps: seq<string>): (r: seq<string>)
    ensures r <= ps
    ensures forall k :: |r| <= k < |ps| ==> ps[k] == ""
    ensures r == [] || r[|r| - 1] != ""
  {
    if ps != [] && ps[|ps| - 1] == "" then DropTrailingEmpty(ps[..|ps| - 1]) else ps
  }

  /** `String#split("\n")`: the pieces between line feeds, without the trailing empty ones. */
  function SplitLines(s: string): (r: seq<string>)
    ensures r <= Pieces(s)
    ensures forall k :: |r| <= k < |Pieces(s)| ==> Pieces(s)[k] == ""
    ensures r == [] || r[|r| - 1] != ""
  {
    DropTrailingEmpty(Pieces(s))
  }

  lemma {:induction false} JoinLinesSnoc(ps: seq<string>, x: string)
    requires |ps| > 0
    ensures JoinLines(ps + [x]) == JoinLines(ps) + "\n" + x
    decreases |ps|
  {
    if |ps| == 1 {
      assert (ps + [x])[1..] == [x];
    } else {
      assert (ps + [x])[1..] == ps[1..] + [x];
      JoinLinesSnoc(ps[1..], x);
    }
  }

  /** Dropping trailing empty pieces only removes line feeds from the end of the joined text. */
  lemma {:induction false} DropTrailingEmptyJoin(ps: seq<string>)
    ensures JoinLines(DropTrailingEmpty(ps)) <= JoinLines(ps)
    ensures forall k :: |JoinLines(DropTrailingEmpty(ps))| <= k < |JoinLines(ps)| ==> JoinLines(ps)[k] == '\n'
    decreases |ps|
  {
    if ps != [] && ps[|ps| - 1] == "" {
      var init := ps[..|ps| - 1];
      assert ps == init + [""];
      DropTrailingEmptyJoin(init);
      if |init| > 0 {
        JoinLinesSnoc(init, "");
      }
    }
  }

  /**
   * `split("\n")` loses nothing but trailing line feeds: no piece holds a line
   * feed, the last piece is not empty, and joining the pieces gives `s` up to a
   * tail made only of line feeds.
   */
  lemma SplitLinesRoundTrip(s: string)
    ensures forall k :: 0 <= k < |SplitLines(s)| ==> '\n' !in SplitLines(s)[k]
    ensures SplitLines(s) == [] || SplitLines(s)[|SplitLines(s)| - 1] != ""
    ensures JoinLines(SplitLines(s)) <= s
    ensures forall k :: |JoinLines(SplitLines(s))| <= k < |s| ==> s[k] == '\n'
  {
    var ps := Pieces(s);
    DropTrailingEmptyJoin(ps);
    forall k | 0 <= k < |SplitLines(s)| ensures '\n' !in SplitLines(s)[k] {
      assert SplitLines(s)[k] == ps[k];
    }
  }
}
