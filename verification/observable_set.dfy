/**
 * `ObservableSet<T>`: a set kept as the key set of a dictionary. The set is a
 * Dafny `set<T>`; an `IEnumerable<T>` argument is a `seq<T>`, which may hold
 * duplicates, and the operations that mutate return the new set.
 *
 * Several operations do not follow set semantics as written. Each of those
 * is modelled as written, next to a corrected version with the intended
 * property proved.
 */
module ObservableSets {

  /** The distinct elements of a sequence, collected in sequence order. */
  function Elements<T(==,!new)>(xs: seq<T>): (r: set<T>)
    ensures forall x :: x in r <==> x in xs
    ensures |r| <= |xs|
  {
    if |xs| == 0 then {}
    else Elements(xs[..|xs| - 1]) + {xs[|xs| - 1]}
  }

  /** No element of `xs` occurs twice. */
  predicate NoDuplicates<T(==,!new)>(xs: seq<T>) {
    forall i, j :: 0 <= i < j < |xs| ==> xs[i] != xs[j]
  }

  /** Without duplicates, a sequence has as many distinct elements as positions. */
  lemma {:induction false} DistinctElementsCount<T(!new)>(xs: seq<T>)
    requires NoDuplicates(xs)
    ensures |Elements(xs)| == |xs|
  {
    if |xs| > 0 {
      var init := xs[..|xs| - 1];
      assert NoDuplicates(init) by {
        forall i, j | 0 <= i < j < |init| ensures init[i] != init[j] {
          assert init[i] == xs[i] && init[j] == xs[j];
        }
      }
      DistinctElementsCount(init);
      assert xs[|xs| - 1] !in init by {
        forall i | 0 <= i < |init| ensures init[i] != xs[|xs| - 1] {
          assert init[i] == xs[i];
        }
      }
    }
  }

  /** Among subsets, the proper ones are exactly the smaller ones. */
  lemma ProperSubsetBySize<T>(a: set<T>, b: set<T>)
    ensures a < b <==> a <= b && |a| < |b|
  {
    if a < b {
      var x :| x in b && x !in a;
      assert b == a + (b - a);
      assert a * (b - a) == {};
      assert x in b - a;
    }
  }

  /** `Add`: inserts and answers true exactly when the item was absent. */
  function Add<T(==,!new)>(s: set<T>, item: T): (r: (bool, set<T>))
    ensures r.0 <==> item !in s
    ensures item in r.1 && s <= r.1 && r.1 - s <= {item}
    ensures !r.0 ==> r.1 == s
    ensures r.0 ==> |r.1| == |s| + 1
  {
    if item !in s then (true, s + {item}) else (false, s)
  }

  /** `UnionWith`: `Add` for every item of `other`, in order. */
  function UnionWith<T(==,!new)>(s: set<T>, other: seq<T>): (r: set<T>)
    ensures r == s + Elements(other)
  {
    if |other| == 0 then s
    else Add(UnionWith(s, other[..|other| - 1]), other[|other| - 1]).1
  }

  /** A union grows by exactly the new elements. */
  lemma UnionSize<T>(s: set<T>, e: set<T>)
    ensures |s + e| == |s| + |e - s|
  {
    assert s + e == s + (e - s);
    assert s * (e - s) == {};
  }

  /** `AddRange`: `Add` for every item, counting those that were inserted. */
  method AddRange<T(==,!new)>(s: set<T>, items: seq<T>) returns (cnt: int, r: set<T>)
    ensures r == s + Elements(items)
    ensures cnt == |Elements(items) - s|
  {
    cnt, r := 0, s;
    var i := 0;
    while i < |items|
      invariant 0 <= i <= |items|
      invariant r == UnionWith(s, items[..i])
      invariant cnt == |r| - |s|
    {
      UnionWithStep(s, items, i);
      var step := Add(r, items[i]);
      if step.0 {
        cnt := cnt + 1;
      }
      r := step.1;
      i := i + 1;
    }
    assert items[..|items|] == items;
    AddRangeCount(s, items, r);
  }

  /** The items inserted into `s` are the distinct items it did not already hold. */
  lemma AddRangeCount<T(!new)>(s: set<T>, items: seq<T>, r: set<T>)
    requires r == UnionWith(s, items)
    ensures r == s + Elements(items)
    ensures |r| - |s| == |Elements(items) - s|
  {
    UnionSize(s, Elements(items));
  }

  /** Union with one more item of the sequence is one more `Add`. */
  lemma UnionWithStep<T(!new)>(s: set<T>, items: seq<T>, i: nat)
    requires i < |items|
    ensures UnionWith(s, items[..i + 1]) == Add(UnionWith(s, items[..i]), items[i]).1
  {
    assert items[..i + 1][..i] == items[..i];
  }

  /** `IntersectWith` as written: it removes only items that are already absent, so nothing changes. */
  function IntersectWith<T(==,!new)>(s: set<T>, other: seq<T>): (r: set<T>)
    ensures r == s
  {
    if |other| == 0 then s
    else
      var t := IntersectWith(s, other[..|other| - 1]);
      var item := other[|other| - 1];
      if item !in t then t - {item} else t
  }

  /** `IntersectWith` as the set contract intends: keep only what `other` holds. */
  function IntersectWithCorrected<T(==,!new)>(s: set<T>, other: seq<T>): (r: set<T>)
    ensures forall x :: x in r <==> x in s && x in other
  {
    set x | x in s && x in other
  }

  /** On {1, 2} and [1] the written `IntersectWith` keeps 2; the intended one drops it. */
  lemma IntersectWithKeepsEverything()
    ensures IntersectWith({1, 2}, [1]) == {1, 2}
    ensures IntersectWithCorrected({1, 2}, [1]) == {1}
  {
    assert 2 !in IntersectWithCorrected({1, 2}, [1]);
  }

  /** `IsSubsetOf`: every element of the set is somewhere in `other`. */
  function IsSubsetOf<T(==,!new)>(s: set<T>, other: seq<T>): (r: bool)
    ensures r <==> s <= Elements(other)
  {
    forall x | x in s :: x in other
  }

  /** `IsSupersetOf`: every item of `other`, in order, is contained. */
  function IsSupersetOf<T(==,!new)>(s: set<T>, other: seq<T>): (r: bool)
    ensures r <==> Elements(other) <= s
  {
    if |other| == 0 then true
    else IsSupersetOf(s, other[..|other| - 1]) && other[|other| - 1] in s
  }

  /** `Overlaps`: some item of `other` is contained. */
  function Overlaps<T(==,!new)>(s: set<T>, other: seq<T>): (r: bool)
    ensures r <==> s * Elements(other) != {}
  {
    if |other| == 0 then false
    else
      var x := other[|other| - 1];
      assert x in s * Elements(other) <==> x in s;
      Overlaps(s, other[..|other| - 1]) || x in s
  }

  /**
   * `IsProperSubsetOf` as written: compares Count with the length of
   * `other`, duplicates included, before testing for a subset. It agrees
   * with set semantics when `other` has no duplicates.
   */
  function IsProperSubsetOf<T(==,!new)>(s: set<T>, other: seq<T>): (r: bool)
    ensures r ==> s <= Elements(other)
    ensures NoDuplicates(other) ==> (r <==> s < Elements(other))
  {
    ProperSubsetWhenDistinct(s, other);
    if |other| <= |s| then false
    else IsSubsetOf(s, other)
  }

  /** Against a sequence without duplicates, comparing Count with its length decides properness. */
  lemma ProperSubsetWhenDistinct<T(!new)>(s: set<T>, other: seq<T>)
    ensures NoDuplicates(other) ==> (s < Elements(other) <==> |other| > |s| && s <= Elements(other))
  {
    ProperSubsetBySize(s, Elements(other));
    DistinctCountWhenNoDuplicates(other);
  }

  /** `DistinctElementsCount`, stated unconditionally so that function bodies can call it. */
  lemma DistinctCountWhenNoDuplicates<T(!new)>(xs: seq<T>)
    ensures NoDuplicates(xs) ==> |Elements(xs)| == |xs|
  {
    if NoDuplicates(xs) {
      DistinctElementsCount(xs);
    }
  }

  /** `IsProperSubsetOf` as intended: counts the distinct elements of `other`. */
  function IsProperSubsetOfCorrected<T(==,!new)>(s: set<T>, other: seq<T>): (r: bool)
    ensures r <==> s < Elements(other)
  {
    ProperSubsetBySize(s, Elements(other));
    if |Elements(other)| <= |s| then false
    else IsSubsetOf(s, other)
  }

  /** {1} is not a proper subset of the items [1, 1], yet the written test says it is. */
  lemma ProperSubsetCountsDuplicates()
    ensures IsProperSubsetOf({1}, [1, 1])
    ensures !({1} < Elements([1, 1]))
    ensures !IsProperSubsetOfCorrected({1}, [1, 1])
  {
    assert Elements([1, 1]) == {1} by {
      assert [1, 1][..1] == [1];
    }
  }

  /**
   * `IsProperSupersetOf` as written: Count must exceed the length of
   * `other`, duplicates included. It agrees with set semantics when `other`
   * has no duplicates.
   */
  function IsProperSupersetOf<T(==,!new)>(s: set<T>, other: seq<T>): (r: bool)
    ensures r ==> Elements(other) < s
    ensures NoDuplicates(other) ==> (r <==> Elements(other) < s)
  {
    ProperSubsetBySize(Elements(other), s);
    DistinctCountWhenNoDuplicates(other);
    if |s| <= |other| then false
    else IsSupersetOf(s, other)
  }

  /** `IsProperSupersetOf` as intended: counts the distinct elements of `other`. */
  function IsProperSupersetOfCorrected<T(==,!new)>(s: set<T>, other: seq<T>): (r: bool)
    ensures r <==> Elements(other) < s
  {
    ProperSubsetBySize(Elements(other), s);
    if |s| <= |Elements(other)| then false
    else IsSupersetOf(s, other)
  }

  /** {1, 2} is a proper superset of the items [1, 1], yet the written test says it is not. */
  lemma ProperSupersetCountsDuplicates()
    ensures !IsProperSupersetOf({1, 2}, [1, 1])
    ensures Elements([1, 1]) < {1, 2}
    ensures IsProperSupersetOfCorrected({1, 2}, [1, 1])
  {
    assert Elements([1, 1]) == {1} by {
      assert [1, 1][..1] == [1];
    }
  }

  /**
   * `SetEquals` as written: Count must equal the length of `other`,
   * duplicates included, and every item of `other` must be contained. It
   * agrees with set equality when `other` has no duplicates.
   */
  function SetEquals<T(==,!new)>(s: set<T>, other: seq<T>): (r: bool)
    ensures r ==> Elements(other) <= s
    ensures NoDuplicates(other) ==> (r <==> s == Elements(other))
  {
    ProperSubsetBySize(Elements(other), s);
    DistinctCountWhenNoDuplicates(other);
    if |s| != |other| then false
    else IsSupersetOf(s, other)
  }

  /** `SetEquals` as intended: the set and the elements of `other` coincide. */
  function SetEqualsCorrected<T(==,!new)>(s: set<T>, other: seq<T>): (r: bool)
    ensures r <==> s == Elements(other)
  {
    ProperSubsetBySize(Elements(other), s);
    if |s| != |Elements(other)| then false
    else IsSupersetOf(s, other)
  }

  /** The written `SetEquals` is wrong both ways once `other` repeats an item. */
  lemma SetEqualsCountsDuplicates()
    ensures {1} == Elements([1, 1]) && !SetEquals({1}, [1, 1])
    ensures {1, 2} != Elements([1, 1]) && SetEquals({1, 2}, [1, 1])
    ensures SetEqualsCorrected({1}, [1, 1]) && !SetEqualsCorrected({1, 2}, [1, 1])
  {
    assert Elements([1, 1]) == {1} by {
      assert [1, 1][..1] == [1];
    }
  }
}
