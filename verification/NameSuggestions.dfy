/** The bounded edit distance behind "did you mean" suggestions (packages/core/src/name-suggestions.ts). */
module NameSuggestions {
  import opened Text

  // ---------------------------------------------------------------------------
  // What an edit distance is: the cheapest script that rewrites one text into the other
  // ---------------------------------------------------------------------------

  datatype Edit = Keep | Replace(unit: Unit) | Insert(unit: Unit) | Delete

  /** Runs a script over the whole of `s`; None when the script does not consume `s` exactly. */
  function Apply(script: seq<Edit>, s: Text): Option<Text> {
    if script == [] then
      if s == [] then Some([]) else None
    else
      var front, edit := script[..|script| - 1], script[|script| - 1];
      if edit.Insert? then
        match Apply(front, s)
        case None => None
        case Some(t) => Some(t + [edit.unit])
      else if s == [] then None
      else
        match Apply(front, s[..|s| - 1])
        case None => None
        case Some(t) =>
          match edit
          case Delete => Some(t)
          case Replace(unit) => Some(t + [unit])
          case _ => Some(t + [s[|s| - 1]])
  }

  function Cost(script: seq<Edit>): nat {
    if script == [] then 0
    else Cost(script[..|script| - 1]) + if script[|script| - 1].Keep? then 0 else 1
  }

  // ---------------------------------------------------------------------------
  // The textbook table
  // ---------------------------------------------------------------------------

  /** Entry (i, j): the distance between the first i units of `left` and the first j units of `right`. */
  function Cell(left: Text, right: Text, i: nat, j: nat): nat
    requires i <= |left| && j <= |right|
  {
    if i == 0 then j
    else if j == 0 then i
    else Least(Cell(left, right, i, j - 1) + 1,
               Cell(left, right, i - 1, j) + 1,
               Cell(left, right, i - 1, j - 1) + if left[i - 1] == right[j - 1] then 0 else 1)
  }

  function Least(a: nat, b: nat, c: nat): nat {
    Min(Min(a, b), c)
  }

  function Distance(left: Text, right: Text): nat {
    Cell(left, right, |left|, |right|)
  }

  /** An entry is at most what each of its three neighbours allows, and exactly what one of them does. */
  lemma Neighbours(left: Text, right: Text, i: nat, j: nat)
    requires i <= |left| && j <= |right|
    ensures j > 0 ==> Cell(left, right, i, j) <= Cell(left, right, i, j - 1) + 1
    ensures i > 0 ==> Cell(left, right, i, j) <= Cell(left, right, i - 1, j) + 1
    ensures i > 0 && j > 0 ==>
      var change := if left[i - 1] == right[j - 1] then 0 else 1;
      && Cell(left, right, i, j) <= Cell(left, right, i - 1, j - 1) + change
      && (Cell(left, right, i, j) < Cell(left, right, i, j - 1) + 1
          && Cell(left, right, i, j) < Cell(left, right, i - 1, j) + 1
          ==> Cell(left, right, i, j) == Cell(left, right, i - 1, j - 1) + change)
  {
  }

  /** No script is cheaper than the table entry. */
  lemma {:induction false} CellIsLowerBound(left: Text, right: Text, i: nat, j: nat, script: seq<Edit>)
    requires i <= |left| && j <= |right|
    requires Apply(script, left[..i]) == Some(right[..j])
    ensures Cell(left, right, i, j) <= Cost(script)
    decreases |script|
  {
    if script != [] {
      var front, edit := script[..|script| - 1], script[|script| - 1];
      var s := left[..i];
      Neighbours(left, right, i, j);
      if edit.Insert? {
        assert Apply(front, s).value == right[..j][..j - 1] == right[..j - 1];
        CellIsLowerBound(left, right, i, j - 1, front);
      } else {
        assert s[..i - 1] == left[..i - 1];
        var t := Apply(front, left[..i - 1]).value;
        if edit.Delete? {
          CellIsLowerBound(left, right, i - 1, j, front);
        } else {
          assert t == right[..j][..j - 1] == right[..j - 1];
          CellIsLowerBound(left, right, i - 1, j - 1, front);
        }
      }
    }
  }

  /** Running one more edit, at the end of both texts. */
  lemma ApplyOneMore(script: seq<Edit>, edit: Edit, s: Text, t: Text)
    requires edit.Insert? ==> Apply(script, s) == Some(t)
    requires !edit.Insert? ==> s != [] && Apply(script, s[..|s| - 1]) == Some(t)
    ensures Apply(script + [edit], s) ==
      match edit
      case Delete => Some(t)
      case Keep => Some(t + [s[|s| - 1]])
      case Replace(unit) => Some(t + [unit])
      case Insert(unit) => Some(t + [unit])
    ensures Cost(script + [edit]) == Cost(script) + if edit.Keep? then 0 else 1
  {
    var longer := script + [edit];
    assert longer[..|longer| - 1] == script && longer[|longer| - 1] == edit;
  }

  /** Some script costs exactly the table entry. */
  lemma {:induction false} CellIsReached(left: Text, right: Text, i: nat, j: nat) returns (script: seq<Edit>)
    requires i <= |left| && j <= |right|
    ensures Apply(script, left[..i]) == Some(right[..j])
    ensures Cost(script) == Cell(left, right, i, j)
    decreases i + j
  {
    var s, t := left[..i], right[..j];
    assert i > 0 ==> s[..i - 1] == left[..i - 1];
    assert j > 0 ==> t == right[..j - 1] + [right[j - 1]];
    Neighbours(left, right, i, j);
    if i == 0 && j == 0 {
      script := [];
    } else if j > 0 && (i == 0 || Cell(left, right, i, j) == Cell(left, right, i, j - 1) + 1) {
      script := CellIsReached(left, right, i, j - 1);
      ApplyOneMore(script, Insert(right[j - 1]), s, right[..j - 1]);
      script := script + [Insert(right[j - 1])];
    } else if j == 0 || Cell(left, right, i, j) == Cell(left, right, i - 1, j) + 1 {
      script := CellIsReached(left, right, i - 1, j);
      ApplyOneMore(script, Delete, s, t);
      script := script + [Delete];
    } else {
      script := CellIsReached(left, right, i - 1, j - 1);
      var edit := if left[i - 1] == right[j - 1] then Keep else Replace(right[j - 1]);
      ApplyOneMore(script, edit, s, right[..j - 1]);
      script := script + [edit];
    }
  }

  /** Distance is the least cost over all scripts turning `left` into `right`, and is attained. */
  lemma DistanceIsCheapestScript(left: Text, right: Text)
    ensures forall script :: Apply(script, left) == Some(right) ==> Distance(left, right) <= Cost(script)
    ensures exists script :: Apply(script, left) == Some(right) && Cost(script) == Distance(left, right)
  {
    assert left[..|left|] == left && right[..|right|] == right;
    forall script | Apply(script, left) == Some(right)
      ensures Distance(left, right) <= Cost(script)
    {
      CellIsLowerBound(left, right, |left|, |right|, script);
    }
    var script := CellIsReached(left, right, |left|, |right|);
  }

  // ---------------------------------------------------------------------------
  // Why the band and the early exit lose nothing
  // ---------------------------------------------------------------------------

  lemma LeastIsAtLeast(a: nat, b: nat, c: nat, k: int)
    requires k <= a && k <= b && k <= c
    ensures k <= Least(a, b, c)
  {
  }

  /** An entry is at least as far from zero as it is from the diagonal. */
  lemma {:induction false} OffDiagonal(left: Text, right: Text, i: nat, j: nat)
    requires i <= |left| && j <= |right|
    ensures Cell(left, right, i, j) >= i - j && Cell(left, right, i, j) >= j - i
    decreases i + j
  {
    if i > 0 && j > 0 {
      OffDiagonal(left, right, i, j - 1);
      OffDiagonal(left, right, i - 1, j);
      OffDiagonal(left, right, i - 1, j - 1);
      var before, above, diagonal :=
        Cell(left, right, i, j - 1), Cell(left, right, i - 1, j), Cell(left, right, i - 1, j - 1);
      var change := if left[i - 1] == right[j - 1] then 0 else 1;
      LeastIsAtLeast(before + 1, above + 1, diagonal + change, i - j);
      LeastIsAtLeast(before + 1, above + 1, diagonal + change, j - i);
    }
  }

  ghost predicate ColumnAbove(left: Text, right: Text, j: nat, limit: nat)
    requires j <= |right|
  {
    forall i :: 0 <= i <= |left| ==> Cell(left, right, i, j) > limit
  }

  lemma {:induction false} NextEntryAbove(left: Text, right: Text, i: nat, j: nat, limit: nat)
    requires i <= |left| && j < |right| && ColumnAbove(left, right, j, limit)
    ensures Cell(left, right, i, j + 1) > limit
  {
    assert Cell(left, right, i, j) > limit;
    if i > 0 {
      NextEntryAbove(left, right, i - 1, j, limit);
      assert Cell(left, right, i - 1, j) > limit;
    }
  }

  /** Once a whole column is over the limit, so is the final answer. */
  lemma {:induction false} ColumnStaysAbove(left: Text, right: Text, j: nat, limit: nat)
    requires j <= |right| && ColumnAbove(left, right, j, limit)
    ensures Distance(left, right) > limit
    decreases |right| - j
  {
    if j < |right| {
      var next := j + 1;
      forall i | 0 <= i <= |left| ensures Cell(left, right, i, next) > limit {
        NextEntryAbove(left, right, i, j, limit);
      }
      ColumnStaysAbove(left, right, next, limit);
    }
  }

  // ---------------------------------------------------------------------------
  // What the banded table holds
  // ---------------------------------------------------------------------------

  /** Entry (i, j) as the band knows it: everything further than the limit from the diagonal counts as limit + 1. */
  function Band(left: Text, right: Text, limit: nat, i: nat, j: nat): nat
    requires i <= |left| && j <= |right|
  {
    if i > j + limit || j > i + limit then limit + 1
    else if i == 0 then j
    else if j == 0 then i
    else Least(Band(left, right, limit, i, j - 1) + 1,
               Band(left, right, limit, i - 1, j) + 1,
               Band(left, right, limit, i - 1, j - 1) + if left[i - 1] == right[j - 1] then 0 else 1)
  }

  /** A value stands for a table entry: equal to it up to the limit, and over the limit otherwise. */
  predicate Agrees(stored: int, cell: nat, limit: nat) {
    if cell <= limit then stored == cell else stored > limit
  }

  lemma LeastAgrees(a: nat, b: nat, c: nat, x: nat, y: nat, z: nat, same: bool, limit: nat)
    requires Agrees(a, x, limit) && Agrees(b, y, limit) && Agrees(c, z, limit)
    ensures Agrees(Least(a + 1, b + 1, c + if same then 0 else 1), Least(x + 1, y + 1, z + if same then 0 else 1),
                   limit)
  {
  }

  predicate EntryAgrees(left: Text, right: Text, limit: nat, i: nat, j: nat)
    requires i <= |left| && j <= |right|
  {
    Agrees(Band(left, right, limit, i, j), Cell(left, right, i, j), limit)
  }

  lemma NeighboursAgree(left: Text, right: Text, limit: nat, i: nat, j: nat)
    requires 0 < i <= |left| && 0 < j <= |right| && i <= j + limit && j <= i + limit
    requires EntryAgrees(left, right, limit, i, j - 1) && EntryAgrees(left, right, limit, i - 1, j)
    requires EntryAgrees(left, right, limit, i - 1, j - 1)
    ensures EntryAgrees(left, right, limit, i, j)
  {
    LeastAgrees(Band(left, right, limit, i, j - 1), Band(left, right, limit, i - 1, j),
                Band(left, right, limit, i - 1, j - 1), Cell(left, right, i, j - 1), Cell(left, right, i - 1, j),
                Cell(left, right, i - 1, j - 1), left[i - 1] == right[j - 1], limit);
  }

  /** The band loses nothing: its entries stand for those of the whole table. */
  lemma {:induction false} BandAgrees(left: Text, right: Text, limit: nat, i: nat, j: nat)
    requires i <= |left| && j <= |right|
    ensures EntryAgrees(left, right, limit, i, j)
    decreases i + j
  {
    if i > j + limit || j > i + limit {
      OffDiagonal(left, right, i, j);
    } else if i > 0 && j > 0 {
      BandAgrees(left, right, limit, i, j - 1);
      BandAgrees(left, right, limit, i - 1, j);
      BandAgrees(left, right, limit, i - 1, j - 1);
      NeighboursAgree(left, right, limit, i, j);
    }
  }

  /** The search gives up at a column that is over the limit from top to bottom. */
  ghost predicate GivesUpAt(left: Text, right: Text, limit: nat, j: nat)
    requires j <= |right|
  {
    forall i :: 0 <= i <= |left| ==> Band(left, right, limit, i, j) > limit
  }

  ghost predicate GivesUp(left: Text, right: Text, limit: nat) {
    exists j :: 0 < j <= |right| && GivesUpAt(left, right, limit, j)
  }

  /** What the search returns. */
  ghost function Bounded(left: Text, right: Text, limit: nat): nat {
    if GivesUp(left, right, limit) then limit + 1 else Band(left, right, limit, |left|, |right|)
  }

  /** The result stands for the distance, although the search may have given up before the last column. */
  lemma BoundedAgrees(left: Text, right: Text, limit: nat)
    ensures Agrees(Bounded(left, right, limit), Distance(left, right), limit)
    ensures Bounded(left, right, limit) == limit + 1 <==>
            GivesUp(left, right, limit) || Band(left, right, limit, |left|, |right|) == limit + 1
  {
    BandAgrees(left, right, limit, |left|, |right|);
    if j :| 0 < j <= |right| && GivesUpAt(left, right, limit, j) {
      forall i | 0 <= i <= |left| ensures Cell(left, right, i, j) > limit {
        BandAgrees(left, right, limit, i, j);
      }
      ColumnStaysAbove(left, right, j, limit);
    }
  }

  /** Over the limit, the result need not be limit + 1: for "abb" and "ca" and a limit of one it is 3. */
  lemma LimitPlusOneIsNotReturned()
    ensures Bounded([0x61, 0x62, 0x62], [0x63, 0x61], 1) == 3
  {
    var left, right := [0x61, 0x62, 0x62], [0x63, 0x61];
    assert Band(left, right, 1, 0, 0) == 0 && Band(left, right, 1, 0, 1) == 1 && Band(left, right, 1, 1, 0) == 1;
    assert Band(left, right, 1, 1, 1) == 1;
    assert Band(left, right, 1, 2, 1) == 2;
    assert Band(left, right, 1, 1, 2) == 1;
    assert Band(left, right, 1, 2, 2) == 2;
    assert !GivesUpAt(left, right, 1, 1) && !GivesUpAt(left, right, 1, 2);
  }

  // ---------------------------------------------------------------------------
  // The in-place algorithm
  // ---------------------------------------------------------------------------

  /** Column j of the band. */
  ghost function Column(left: Text, right: Text, limit: nat, j: nat): (column: seq<nat>)
    requires j <= |right|
    ensures |column| == |left| + 1
  {
    seq(|left| + 1, i requires 0 <= i <= |left| => Band(left, right, limit, i, j))
  }

  /** How a column of the band follows from the one before it. */
  ghost predicate Follows(left: Text, unit: Unit, previous: seq<nat>, current: seq<nat>, i: nat)
    requires |previous| == |current| == |left| + 1 && 0 < i <= |left|
  {
    current[i] == Least(previous[i] + 1, current[i - 1] + 1, previous[i - 1] + if left[i - 1] == unit then 0 else 1)
  }

  ghost predicate FollowsFrom(left: Text, unit: Unit, previous: seq<nat>, current: seq<nat>, start: nat, end: nat)
    requires |previous| == |current| == |left| + 1 && 0 < start && end <= |left|
  {
    forall i :: start <= i <= end ==> Follows(left, unit, previous, current, i)
  }

  lemma ColumnFollows(left: Text, right: Text, limit: nat, j: nat, start: nat, end: nat)
    requires 0 < j <= |right| && start == Max(1, j - limit) && end == Min(|left|, j + limit)
    ensures FollowsFrom(left, right[j - 1], Column(left, right, limit, j - 1), Column(left, right, limit, j),
                        start, end)
  {
  }

  /** The row stores entries lo..hi of a column. */
  ghost predicate Stores(row: array<int>, column: seq<nat>, lo: int, hi: int)
    requires 0 <= lo && hi < row.Length == |column|
    reads row
  {
    forall i :: lo <= i <= hi ==> row[i] == column[i]
  }

  /** The least of `column` and the entries of the band. */
  ghost predicate IsMinimum(minimum: int, column: nat, current: seq<nat>, start: nat, end: int)
    requires end < |current|
  {
    && minimum <= column && (forall i :: start <= i <= end ==> minimum <= current[i])
    && (minimum == column || exists i :: start <= i <= end && minimum == current[i])
  }

  /**
   * One turn of the outer loop: overwrites the band of one column with the next column's, and returns the least of
   * what it wrote; the outer loop then closes the band with `row[end + 1]`.
   */
  method FillColumn(left: Text, unit: Unit, limit: nat, column: nat, row: array<int>, start: nat, end: nat,
                    ghost previous: seq<nat>, ghost current: seq<nat>)
    returns (minimum: int)
    requires row.Length == |left| + 1 == |previous| == |current|
    requires 0 < start <= end + 1 && end <= |left|
    requires current[start - 1] == if start > 1 then limit + 1 else column
    requires FollowsFrom(left, unit, previous, current, start, end)
    requires Stores(row, previous, start - 1, end)
    modifies row
    ensures Stores(row, current, start - 1, end)
    ensures forall i :: end < i <= |left| ==> row[i] == old(row[i])
    ensures IsMinimum(minimum, column, current, start, end)
  {
    var diagonal := row[start - 1];
    row[0] := column;
    if start > 1 {
      row[start - 1] := limit + 1;
    }
    minimum := row[0];
    var index := start;
    while index <= end
      invariant start <= index <= end + 1
      invariant Stores(row, current, start - 1, index - 1)
      invariant Stores(row, previous, index, end)
      invariant forall i :: end < i <= |left| ==> row[i] == old(row[i])
      invariant diagonal == previous[index - 1]
      invariant IsMinimum(minimum, column, current, start, index - 1)
    {
      var above := row[index];
      assert Follows(left, unit, previous, current, index);
      row[index] := Min(Min(above + 1, row[index - 1] + 1), diagonal + if left[index - 1] == unit then 0 else 1);
      diagonal := above;
      minimum := Min(minimum, row[index]);
      index := index + 1;
    }
  }

  /** The minimum decides whether to give up. */
  lemma MinimumDecides(left: Text, right: Text, limit: nat, j: nat, minimum: int, start: nat, end: nat)
    requires 0 < j <= |right| && start == Max(1, j - limit) && end == Min(|left|, j + limit)
    requires IsMinimum(minimum, j, Column(left, right, limit, j), start, end)
    ensures minimum > limit <==> GivesUpAt(left, right, limit, j)
  {
    var current := Column(left, right, limit, j);
    if minimum > limit {
      forall i | 0 <= i <= |left| ensures Band(left, right, limit, i, j) > limit {
        if start <= i <= end {
          assert minimum <= current[i];
        }
      }
    } else if minimum == j {
      assert Band(left, right, limit, 0, j) == j;
    } else {
      var i :| start <= i <= end && minimum == current[i];
      assert Band(left, right, limit, i, j) == current[i];
    }
  }

  /** The row stores the band of column j with the entries that close it. */
  ghost predicate StoresBand(row: array<int>, left: Text, right: Text, limit: nat, j: nat)
    requires row.Length == |left| + 1 && j <= |right|
    reads row
  {
    Stores(row, Column(left, right, limit, j), Max(0, j - limit), Min(|left|, j + limit + 1))
  }

  method NextColumn(left: Text, right: Text, limit: nat, column: nat, row: array<int>) returns (minimum: int)
    requires row.Length == |left| + 1 && 0 < column <= |right| && column - limit <= |left| + 1
    requires StoresBand(row, left, right, limit, column - 1)
    modifies row
    ensures StoresBand(row, left, right, limit, column)
    ensures minimum > limit <==> GivesUpAt(left, right, limit, column)
  {
    var start, end := Max(1, column - limit), Min(|left|, column + limit);
    ColumnFollows(left, right, limit, column, start, end);
    ghost var previous, current := Column(left, right, limit, column - 1), Column(left, right, limit, column);
    minimum := FillColumn(left, right[column - 1], limit, column, row, start, end, previous, current);
    if end < |left| {
      row[end + 1] := limit + 1;
    }
    MinimumDecides(left, right, limit, column, minimum, start, end);
  }

  lemma FirstColumnIsStored(row: array<int>, left: Text, right: Text, limit: nat)
    requires row.Length == |left| + 1 && forall i :: 0 <= i <= |left| ==> row[i] == i
    ensures StoresBand(row, left, right, limit, 0)
  {
  }

  method BoundedDistance(left: Text, right: Text, limit: nat) returns (d: int)
    ensures d == Bounded(left, right, limit)
    ensures Agrees(d, Distance(left, right), limit)
  {
    BoundedAgrees(left, right, limit);
    var n, m := |left|, |right|;
    if n - m > limit || m - n > limit {
      return limit + 1;
    }
    var row := new int[n + 1](i => i);
    FirstColumnIsStored(row, left, right, limit);
    var column := 1;
    while column <= m
      invariant 1 <= column <= m + 1
      invariant StoresBand(row, left, right, limit, column - 1)
      invariant forall j :: 0 < j < column ==> !GivesUpAt(left, right, limit, j)
    {
      var minimum := NextColumn(left, right, limit, column, row);
      if minimum > limit {
        return limit + 1;
      }
      column := column + 1;
    }
    return row[n];
  }

  // ---------------------------------------------------------------------------
  // The closest name
  // ---------------------------------------------------------------------------

  function Radius(name: Text): nat {
    Max(2, |name| / 2)
  }

  /** The radius is the largest number that is two at most, or half the name at most. */
  lemma RadiusIsTwoOrHalf(name: Text, k: nat)
    ensures k <= Radius(name) <==> k <= 2 || 2 * k <= |name|
  {
  }

  /** `k` is the first candidate that no other candidate beats, and it is near enough to suggest. */
  ghost predicate IsFirstNearest(name: Text, candidates: seq<Text>, k: nat) {
    && k < |candidates|
    && Distance(name, candidates[k]) <= Radius(name)
    && (forall j :: 0 <= j < |candidates| ==> Distance(name, candidates[k]) <= Distance(name, candidates[j]))
    && (forall j :: 0 <= j < k ==> Distance(name, candidates[k]) < Distance(name, candidates[j]))
  }

  method ClosestName(name: Text, candidates: seq<Text>) returns (closest: Option<Text>)
    ensures closest.None? <==> forall j :: 0 <= j < |candidates| ==> Distance(name, candidates[j]) > Radius(name)
    ensures closest.Some? ==> exists k: nat :: IsFirstNearest(name, candidates, k) && candidates[k] == closest.value
  {
    closest := None;
    var limit: nat := Radius(name);
    ghost var best: nat := 0;
    var next := 0;
    while next < |candidates|
      invariant next <= |candidates|
      invariant closest.None? ==> limit == Radius(name)
      invariant closest.None? ==> forall j :: 0 <= j < next ==> Distance(name, candidates[j]) > limit
      invariant closest.Some? ==> IsFirstNearest(name, candidates[..next], best) && candidates[best] == closest.value
      invariant closest.Some? ==> limit + 1 == Distance(name, candidates[best])
    {
      var candidate := candidates[next];
      var distance := BoundedDistance(name, candidate, limit);
      next := next + 1;
      if distance > limit {
        continue;
      }
      closest := Some(candidate);
      best := next - 1;
      if distance == 0 {
        assert IsFirstNearest(name, candidates, best);
        return;
      }
      limit := distance - 1;
    }
    assert candidates[..next] == candidates;
  }
}
