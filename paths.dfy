/**
 * `Pathname#+` as lib/xcinvoke/xcode.rb uses it: a directory joined with a
 * fixed relative path. Ruby's `Pathname#plus` drops the base path's trailing
 * separators and `.` components, and then gives the suffix alone when nothing
 * of the base is kept, the kept base followed directly by the suffix when it
 * is made only of separators, and otherwise the kept base, one separator and
 * the suffix.
 */
module Paths {

  predicate AllSlashes(p: string) {
    forall k :: 0 <= k < |p| ==> p[k] == '/'
  }

  /** The last component of `q` is `.`. */
  predicate EndsWithDotComponent(q: string) {
    |q| > 0 && q[|q| - 1] == '.' && (|q| == 1 || q[|q| - 2] == '/')
  }

  /** A path that `Pathname#plus` leaves alone: it ends in a real component name. */
  predicate IsClean(p: string) {
    p != [] && p[|p| - 1] != '/' && !EndsWithDotComponent(p)
  }

  /** A relative path whose first component is an ordinary name, like both suffixes the source joins. */
  predicate IsPlainRelative(rel: string) {
    |rel| > 0 && rel[0] != '/' && rel[0] != '.'
  }

  function DropTrailingSlashes(p: string): (q: string)
    ensures q <= p
    ensures forall k :: |q| <= k < |p| ==> p[k] == '/'
    ensures q == [] || q[|q| - 1] != '/'
  {
    if p != [] && p[|p| - 1] == '/' then DropTrailingSlashes(p[..|p| - 1]) else p
  }

  /**
   * The base that `Pathname#plus` keeps: `p` without its trailing separators and
   * trailing `.` components. A base that is empty or only separators is kept as
   * it is.
   */
  function KeptBase(p: string): (q: string)
    ensures q <= p
    ensures forall k :: |q| <= k < |p| ==> p[k] == '/' || p[k] == '.'
    ensures q == [] || AllSlashes(q) || IsClean(q)
    ensures q != p && q != [] && !AllSlashes(q) ==> p[|q|] == '/'
    ensures IsClean(p) ==> q == p
    decreases |p|
  {
    var d := DropTrailingSlashes(p);
    if d == [] then p
    else if EndsWithDotComponent(d) then
      var q := KeptBase(d[..|d| - 1]);
      assert d[..|d| - 1] <= p;
      assert |d| == 1 ==> q == [];
      q
    else d
  }

  /** `Pathname(base) + rel` for a plain relative `rel`. */
  function Join(base: string, rel: string): (r: string)
    requires IsPlainRelative(rel)
    ensures |rel| <= |r| && r[|r| - |rel|..] == rel
    ensures r == rel || r[|r| - |rel| - 1] == '/'
    ensures r[..|r| - |rel|] <= base + "/"
    ensures IsClean(base) ==> r == base + "/" + rel
    ensures IsClean(rel) ==> IsClean(r)
  {
    var kept := KeptBase(base);
    if kept == [] then rel
    else if AllSlashes(kept) then kept + rel
    else kept + "/" + rel
  }

  /** The join brings in no character that is not in the base, in `rel`, or a separator. */
  lemma JoinChars(base: string, rel: string)
    requires IsPlainRelative(rel)
    ensures forall c :: c in Join(base, rel) ==> c in base || c == '/' || c in rel
  {
    var r := Join(base, rel);
    var n := |r| - |rel|;
    forall c | c in r ensures c in base || c == '/' || c in rel {
      var k :| 0 <= k < |r| && r[k] == c;
      if k < n {
        assert r[k] == r[..n][k] == (base + "/")[k];
      } else {
        assert r[k] == r[n..][k - n];
      }
    }
  }
}
