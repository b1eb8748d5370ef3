/**
 * The effect of Firestore's `FieldValue.arrayUnion(elements...)` on an array field:
 * each element not yet present is appended at the end, in argument order; elements
 * already present, including duplicates the array held before, are left where they are.
 */
module FieldValue {

  function ArrayUnion<T(==)>(xs: seq<T>, elements: seq<T>): (r: seq<T>)
    decreases |elements|
    ensures xs <= r
    ensures forall e :: e in elements ==> e in r
    ensures forall e :: e in r ==> e in xs || e in elements
  {
    if elements == [] then xs
    else
      var ys := if elements[0] in xs then xs else xs + [elements[0]];
      var r := ArrayUnion(ys, elements[1..]);
      assert elements[0] in r by {
        assert elements[0] in ys && ys == r[..|ys|];
      }
      assert elements == [elements[0]] + elements[1..];
      r
  }

  predicate NoDuplicates<T(==)>(s: seq<T>)
  {
    forall i, j :: 0 <= i < j < |s| ==> s[i] != s[j]
  }

  /** Every element the union appends is new: it occurs nowhere before it. */
  lemma {:induction false} ArrayUnionAppendsOnlyAbsent<T>(xs: seq<T>, elements: seq<T>)
    ensures forall k :: |xs| <= k < |ArrayUnion(xs, elements)| ==>
              ArrayUnion(xs, elements)[k] !in ArrayUnion(xs, elements)[..k]
    decreases |elements|
  {
    if elements != [] {
      var ys := if elements[0] in xs then xs else xs + [elements[0]];
      ArrayUnionAppendsOnlyAbsent(ys, elements[1..]);
      var r := ArrayUnion(xs, elements);
      assert r == ArrayUnion(ys, elements[1..]);
      forall k | |xs| <= k < |r| ensures r[k] !in r[..k] {
        if k < |ys| {
          assert k == |xs| && ys == xs + [elements[0]];
          assert r[..k] == xs && r[k] == elements[0];
        }
      }
    }
  }

  /** A list without duplicates keeps that property under the union. */
  lemma ArrayUnionKeepsNoDuplicates<T>(xs: seq<T>, elements: seq<T>)
    requires NoDuplicates(xs)
    ensures NoDuplicates(ArrayUnion(xs, elements))
  {
    var r := ArrayUnion(xs, elements);
    ArrayUnionAppendsOnlyAbsent(xs, elements);
    forall i, j | 0 <= i < j < |r| ensures r[i] != r[j] {
      if j >= |xs| {
        assert r[i] in r[..j];
      } else {
        assert r[i] == xs[i] && r[j] == xs[j];
      }
    }
  }

  /** When every element is already present the array is left as it is. */
  lemma {:induction false} ArrayUnionOfPresent<T>(xs: seq<T>, elements: seq<T>)
    requires forall e :: e in elements ==> e in xs
    ensures ArrayUnion(xs, elements) == xs
    decreases |elements|
  {
    if elements != [] {
      assert elements[0] in xs;
      forall e | e in elements[1..] ensures e in xs {
        assert e in elements;
      }
      ArrayUnionOfPresent(xs, elements[1..]);
    }
  }

  /** Applying the same union twice gives the array that applying it once gives. */
  lemma ArrayUnionIdempotent<T>(xs: seq<T>, elements: seq<T>)
    ensures ArrayUnion(ArrayUnion(xs, elements), elements) == ArrayUnion(xs, elements)
  {
    ArrayUnionOfPresent(ArrayUnion(xs, elements), elements);
  }

  /** Adding one more element last is a union with the rest followed by a union with that element; with `ArrayUnionOne` this fixes the order of the appended elements. */
  lemma {:induction false} ArrayUnionSnoc<T>(xs: seq<T>, elements: seq<T>, e: T)
    ensures ArrayUnion(xs, elements + [e]) == ArrayUnion(ArrayUnion(xs, elements), [e])
    decreases |elements|
  {
    if elements == [] {
      assert elements + [e] == [e];
    } else {
      var ys := if elements[0] in xs then xs else xs + [elements[0]];
      assert (elements + [e])[0] == elements[0];
      assert (elements + [e])[1..] == elements[1..] + [e];
      ArrayUnionSnoc(ys, elements[1..], e);
    }
  }

  /** The one-element union: the element is appended exactly when it is absent. */
  lemma ArrayUnionOne<T>(xs: seq<T>, x: T)
    ensures ArrayUnion(xs, [x]) == if x in xs then xs else xs + [x]
  {
    assert [x][1..] == [];
  }
}
