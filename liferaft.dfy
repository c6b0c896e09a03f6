/**
 * `Liferaft::Version`, a class from a library outside the repository, seen
 * only through what lib/xcinvoke/xcode.rb does with it: it is built from a
 * build-number string, compared with `==` and `<`, and given a three-way `<=>`
 * by the patch at the top of xcode.rb. How the library parses a build string
 * is not modelled: `parse` is any function, Ruby's `==` is equality of the
 * parsed values and `less` is assumed to be a strict total order.
 */
module Liferaft {

  datatype Scheme<!V> = Scheme(parse: string -> V, less: (V, V) -> bool)

  ghost predicate IsStrictTotalOrder<V(!new)>(less: (V, V) -> bool) {
    && (forall a :: !less(a, a))
    && (forall a, b, c :: less(a, b) && less(b, c) ==> less(a, c))
    && (forall a, b :: a != b ==> less(a, b) || less(b, a))
  }

  /** The patched `Version#<=>`: 0 when `==`, -1 when `<`, and 1 otherwise. */
  function Compare<V(==)>(less: (V, V) -> bool, a: V, b: V): (r: int)
    ensures r == -1 || r == 0 || r == 1
    ensures r == 0 <==> a == b
    ensures r == -1 <==> a != b && less(a, b)
    ensures r == 1 <==> a != b && !less(a, b)
  {
    if a == b then 0 else if less(a, b) then -1 else 1
  }

  /** Under a total order, swapping the operands negates the comparison. */
  lemma CompareAntisymmetric<V(!new)>(less: (V, V) -> bool, a: V, b: V)
    requires IsStrictTotalOrder(less)
    ensures Compare(less, a, b) == -Compare(less, b, a)
  {
  }

  /** Under a total order, "compares at most 0" is transitive, which is what `sort` needs. */
  lemma CompareTransitive<V(!new)>(less: (V, V) -> bool, a: V, b: V, c: V)
    requires IsStrictTotalOrder(less)
    requires Compare(less, a, b) <= 0 && Compare(less, b, c) <= 0
    ensures Compare(less, a, c) <= 0
  {
    if a != c && a != b && b != c {
      assert less(a, b) && less(b, c);
    }
  }
}
