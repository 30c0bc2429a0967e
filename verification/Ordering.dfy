/** The order of texts (packages/compiler/src/artifact-serialization.ts, compareText) and stable sorting. */
module Ordering {
  import opened Text

  predicate Less(a: Text, b: Text) {
    if b == [] then false
    else if a == [] then true
    else if a[0] != b[0] then a[0] < b[0]
    else Less(a[1..], b[1..])
  }

  lemma {:induction false} LessIsTotal(a: Text, b: Text)
    ensures a != b ==> Less(a, b) || Less(b, a)
    ensures !(Less(a, b) && Less(b, a)) && !Less(a, a)
  {
    if a != [] {
      LessIsTotal(a[1..], if b == [] then [] else b[1..]);
    }
    if a != [] && b != [] && a[0] == b[0] {
      assert a == [a[0]] + a[1..] && b == [b[0]] + b[1..];
    }
  }

  lemma {:induction false} LessIsTransitive(a: Text, b: Text, c: Text)
    requires Less(a, b) && Less(b, c)
    ensures Less(a, c)
  {
    if a != [] && b != [] && c != [] && a[0] == b[0] == c[0] {
      LessIsTransitive(a[1..], b[1..], c[1..]);
    }
  }

  lemma NotLessIsTransitive(a: Text, b: Text, c: Text)
    requires !Less(b, a) && !Less(c, b)
    ensures !Less(c, a)
  {
    LessIsTotal(a, b);
    LessIsTotal(b, c);
    if a != b && b != c {
      LessIsTransitive(a, b, c);
      LessIsTotal(a, c);
    }
  }

  /** Put `x` behind the last item it does not come before: what a stable sort does with the next item. */
  function Insert<T>(items: seq<T>, x: T, comesBefore: (T, T) -> bool): (r: seq<T>)
    ensures multiset(r) == multiset(items) + multiset{x}
  {
    if items == [] || !comesBefore(x, items[|items| - 1]) then items + [x]
    else
      assert items == items[..|items| - 1] + [items[|items| - 1]];
      Insert(items[..|items| - 1], x, comesBefore) + [items[|items| - 1]]
  }

  /** A stable sort. */
  function Sort<T>(items: seq<T>, comesBefore: (T, T) -> bool): (r: seq<T>)
    ensures multiset(r) == multiset(items)
  {
    if items == [] then []
    else
      assert items == items[..|items| - 1] + [items[|items| - 1]];
      Insert(Sort(items[..|items| - 1], comesBefore), items[|items| - 1], comesBefore)
  }

  /** No item comes before the one in front of it. */
  ghost predicate InOrder<T>(items: seq<T>, comesBefore: (T, T) -> bool) {
    forall i :: 0 < i < |items| ==> NotBefore(items, i, comesBefore)
  }

  ghost predicate NotBefore<T>(items: seq<T>, i: nat, comesBefore: (T, T) -> bool)
    requires 0 < i < |items|
  {
    !comesBefore(items[i], items[i - 1])
  }

  lemma InsertLast<T>(items: seq<T>, x: T, comesBefore: (T, T) -> bool)
    requires items == [] || !comesBefore(x, items[|items| - 1])
    ensures Insert(items, x, comesBefore) == items + [x]
  {
  }

  lemma {:induction false} SortOfSorted<T>(items: seq<T>, comesBefore: (T, T) -> bool)
    requires InOrder(items, comesBefore)
    ensures Sort(items, comesBefore) == items
  {
    if items != [] {
      var front, last := items[..|items| - 1], items[|items| - 1];
      FrontInOrder(items, comesBefore);
      SortOfSorted(front, comesBefore);
      InsertLast(front, last, comesBefore);
      assert items == front + [last];
    }
  }

  lemma FrontInOrder<T>(items: seq<T>, comesBefore: (T, T) -> bool)
    requires InOrder(items, comesBefore) && items != []
    ensures InOrder(items[..|items| - 1], comesBefore)
    ensures |items| > 1 ==> !comesBefore(items[|items| - 1], items[|items| - 2])
  {
    var front := items[..|items| - 1];
    forall i | 0 < i < |front| ensures NotBefore(front, i, comesBefore) {
      assert NotBefore(items, i, comesBefore);
    }
    assert |items| > 1 ==> NotBefore(items, |items| - 1, comesBefore);
  }

  /** The items to keep, in order. */
  function With<T>(items: seq<T>, keep: T -> bool): (kept: seq<T>)
    ensures forall i :: 0 <= i < |kept| ==> kept[i] in items && keep(kept[i])
    ensures forall i :: 0 <= i < |items| && keep(items[i]) ==> items[i] in kept
  {
    if items == [] then []
    else
      With(items[..|items| - 1], keep) + if keep(items[|items| - 1]) then [items[|items| - 1]] else []
  }

  lemma {:induction false} InsertIsStable<T>(items: seq<T>, x: T, comesBefore: (T, T) -> bool, keep: T -> bool)
    requires keep(x) ==> forall y :: y in items && keep(y) ==> !comesBefore(x, y)
    ensures With(Insert(items, x, comesBefore), keep) == With(items + [x], keep)
  {
    assert (items + [x])[..|items|] == items;
    if items != [] && comesBefore(x, items[|items| - 1]) {
      var front, last := items[..|items| - 1], items[|items| - 1];
      InsertIsStable(front, x, comesBefore, keep);
      assert (front + [x])[..|front|] == front;
      var inserted := Insert(front, x, comesBefore);
      assert (inserted + [last])[..|inserted|] == inserted;
    }
  }

  /** Items none of which comes before another keep their order. */
  lemma {:induction false} SortIsStable<T(!new)>(items: seq<T>, comesBefore: (T, T) -> bool, keep: T -> bool)
    requires forall x, y :: keep(x) && keep(y) ==> !comesBefore(x, y)
    ensures With(Sort(items, comesBefore), keep) == With(items, keep)
  {
    if items != [] {
      var front, last := items[..|items| - 1], items[|items| - 1];
      SortIsStable(front, comesBefore, keep);
      var sorted := Sort(front, comesBefore);
      InsertIsStable(sorted, last, comesBefore, keep);
      assert (sorted + [last])[..|sorted|] == sorted;
    }
  }

  /** No item comes before an earlier one. */
  ghost predicate Ascends<T>(items: seq<T>, comesBefore: (T, T) -> bool) {
    forall i, j :: 0 <= i < j < |items| ==> !comesBefore(items[j], items[i])
  }

  /** Never both ways, and not being before is transitive. */
  ghost predicate IsOrder<T(!new)>(comesBefore: (T, T) -> bool) {
    && (forall x, y :: comesBefore(x, y) ==> !comesBefore(y, x))
    && forall x, y, z :: !comesBefore(x, y) && !comesBefore(y, z) ==> !comesBefore(x, z)
  }

  lemma {:induction false} InsertAscends<T(!new)>(items: seq<T>, x: T, comesBefore: (T, T) -> bool)
    requires IsOrder(comesBefore) && Ascends(items, comesBefore)
    ensures Ascends(Insert(items, x, comesBefore), comesBefore)
    ensures forall y :: y in Insert(items, x, comesBefore) ==> y in items || y == x
  {
    if items != [] {
      var front, last := items[..|items| - 1], items[|items| - 1];
      if comesBefore(x, last) {
        InsertAscends(front, x, comesBefore);
        var inserted := Insert(front, x, comesBefore);
        forall i | 0 <= i < |inserted| ensures !comesBefore(last, inserted[i]) {
          assert inserted[i] in inserted;
        }
      } else {
        forall i | 0 <= i < |items| ensures !comesBefore(x, items[i]) {
          assert i < |items| - 1 ==> !comesBefore(last, items[i]);
        }
      }
    }
  }

  /** A sort by an order leaves nothing out of order. */
  lemma {:induction false} SortAscends<T(!new)>(items: seq<T>, comesBefore: (T, T) -> bool)
    requires IsOrder(comesBefore)
    ensures Ascends(Sort(items, comesBefore), comesBefore)
  {
    if items != [] {
      SortAscends(items[..|items| - 1], comesBefore);
      InsertAscends(Sort(items[..|items| - 1], comesBefore), items[|items| - 1], comesBefore);
    }
  }
}
