/** Line and column of an offset (packages/compiler/src/scanner.ts), and the naive count they must agree with. */
module Positions {
  import opened Text

  const LF: Unit := 0x0A
  const MAX_ENTRIES := 8

  /** Where the lines that start within the first `n` units start. */
  function StartsWithin(source: Text, n: nat): (starts: seq<nat>)
    requires n <= |source|
    ensures |starts| > 0 && starts[0] == 0 && starts[|starts| - 1] <= n
    ensures forall i, j :: 0 <= i < j < |starts| ==> starts[i] < starts[j]
  {
    if n == 0 then [0]
    else StartsWithin(source, n - 1) + if source[n - 1] == LF then [n] else []
  }

  function LineStartsOf(source: Text): seq<nat> {
    StartsWithin(source, |source|)
  }

  /** `prefix.split("\n").length` */
  function NaiveLine(prefix: Text): nat {
    if prefix == [] then 1
    else NaiveLine(prefix[..|prefix| - 1]) + if prefix[|prefix| - 1] == LF then 1 else 0
  }

  /** `prefix.lastIndexOf("\n")` */
  function LastNewline(prefix: Text): int {
    if prefix == [] then -1
    else if prefix[|prefix| - 1] == LF then |prefix| - 1
    else LastNewline(prefix[..|prefix| - 1])
  }

  datatype Range = Range(start: nat, end: nat, line: nat, column: int)

  /** The order of a least-recently-used table of at most eight sources after one more use. */
  function UsedOrder(order: seq<Text>, source: Text): seq<Text> {
    var used := Without(order, source) + [source];
    if |used| > MAX_ENTRIES then used[|used| - MAX_ENTRIES..] else used
  }

  function Without(order: seq<Text>, source: Text): (r: seq<Text>)
    ensures source !in r && |r| <= |order|
    ensures forall t :: t in r <==> t in order && t != source
    ensures source !in order ==> r == order
  {
    if order == [] then []
    else
      var front, last := order[..|order| - 1], order[|order| - 1];
      assert order == front + [last];
      assert forall t :: t in order <==> t in front || t == last;
      if last == source then Without(front, source) else Without(front, source) + [last]
  }

  lemma {:induction false} WithoutIsShorter(order: seq<Text>, source: Text)
    requires Distinct(order)
    ensures Distinct(Without(order, source))
    ensures source in order ==> |Without(order, source)| + 1 == |order|
  {
    if order != [] {
      var front, last := order[..|order| - 1], order[|order| - 1];
      WithoutIsShorter(front, source);
      assert order == front + [last];
      assert last !in front;
    }
  }

  ghost predicate Distinct(order: seq<Text>) {
    forall i, j :: 0 <= i < j < |order| ==> order[i] != order[j]
  }

  method Scan(source: Text) returns (result: seq<nat>)
    ensures result == LineStartsOf(source)
  {
    result := [0];
    for index := 0 to |source|
      invariant result == StartsWithin(source, index)
    {
      if source[index] == LF {
        result := result + [index + 1];
      }
    }
  }

  class LineStartCache {
    /** Least recently used first. */
    var order: seq<Text>
    var starts: map<Text, seq<nat>>

    ghost predicate Valid()
      reads this
    {
      && Distinct(order) && |order| <= MAX_ENTRIES
      && (forall t :: t in order <==> t in starts)
      && (forall t :: t in starts ==> starts[t] == LineStartsOf(t))
    }

    constructor ()
      ensures Valid() && order == []
    {
      order, starts := [], map[];
    }

    method LineStarts(source: Text) returns (result: seq<nat>)
      requires Valid()
      modifies this
      ensures Valid()
      ensures result == LineStartsOf(source)
      ensures order == UsedOrder(old(order), source)
    {
      WithoutIsShorter(order, source);
      if source in starts {
        order := Without(order, source) + [source];
        return starts[source];
      }
      result := Scan(source);
      order, starts := order + [source], starts[source := result];
      if |order| > MAX_ENTRIES {
        Evict();
      }
    }

    /**
     * Forgets the least recently used source; the original's loop runs at most once, one source being added at a time.
     */
    method Evict()
      requires Distinct(order) && |order| == MAX_ENTRIES + 1
      requires forall t :: t in order <==> t in starts
      requires forall t :: t in starts ==> starts[t] == LineStartsOf(t)
      modifies this
      ensures Valid() && order == old(order)[1..]
    {
      var oldest := order[0];
      assert order == [oldest] + order[1..];
      order, starts := order[1..], starts - {oldest};
    }

    /** The line and column of `start`. */
    method PositionRange(source: Text, start: nat, end: nat) returns (range: Range)
      requires Valid()
      modifies this
      ensures Valid()
      ensures range.start == start && range.end == end
      ensures start <= |source| ==> range.line == NaiveLine(source[..start])
      ensures start <= |source| ==> range.column == start - LastNewline(source[..start])
    {
      var lines := LineStarts(source);
      var low := LinesStartedBy(lines, start);
      var lineIndex := Max(0, low - 1);
      if start <= |source| {
        LineOf(source, start, low);
      }
      return Range(start, end, lineIndex + 1, start - lines[lineIndex] + 1);
    }
  }

  /** Binary search: how many lines start at or before `start`. */
  method LinesStartedBy(lines: seq<nat>, start: nat) returns (low: nat)
    requires forall i, j :: 0 <= i < j < |lines| ==> lines[i] < lines[j]
    ensures low <= |lines|
    ensures low > 0 ==> lines[low - 1] <= start
    ensures low < |lines| ==> lines[low] > start
  {
    low := 0;
    var high := |lines|;
    while low < high
      invariant 0 <= low <= high <= |lines|
      invariant low > 0 ==> lines[low - 1] <= start
      invariant high < |lines| ==> lines[high] > start
    {
      var middle := (low + high) / 2;
      if lines[middle] <= start {
        low := middle + 1;
      } else {
        high := middle;
      }
    }
  }

  lemma {:induction false} StartsSplit(source: Text, n: nat, m: nat)
    requires n <= m <= |source|
    ensures var few, many := StartsWithin(source, n), StartsWithin(source, m);
      few <= many && forall i :: |few| <= i < |many| ==> many[i] > n
  {
    if n < m {
      StartsSplit(source, n, m - 1);
    }
  }

  lemma {:induction false} NaiveAgrees(source: Text, n: nat)
    requires n <= |source|
    ensures NaiveLine(source[..n]) == |StartsWithin(source, n)|
    ensures LastNewline(source[..n]) + 1 == StartsWithin(source, n)[|StartsWithin(source, n)| - 1]
  {
    if n > 0 {
      NaiveAgrees(source, n - 1);
      assert source[..n][..n - 1] == source[..n - 1];
    }
  }

  /** The number of lines starting at or before an offset is the naive line count of the text before it. */
  lemma LineOf(source: Text, start: nat, low: nat)
    requires start <= |source| && low <= |LineStartsOf(source)|
    requires low > 0 ==> LineStartsOf(source)[low - 1] <= start
    requires low < |LineStartsOf(source)| ==> LineStartsOf(source)[low] > start
    ensures low > 0 && NaiveLine(source[..start]) == low
    ensures LastNewline(source[..start]) + 1 == LineStartsOf(source)[low - 1]
  {
    StartsSplit(source, start, |source|);
    NaiveAgrees(source, start);
    BoundaryIsThere(LineStartsOf(source), StartsWithin(source, start), start, low);
  }

  lemma BoundaryIsThere(lines: seq<nat>, few: seq<nat>, start: nat, low: nat)
    requires forall i, j :: 0 <= i < j < |lines| ==> lines[i] < lines[j]
    requires few != [] && few <= lines && few[|few| - 1] <= start && (|few| < |lines| ==> lines[|few|] > start)
    requires low <= |lines| && (low > 0 ==> lines[low - 1] <= start) && (low < |lines| ==> lines[low] > start)
    ensures low == |few| && lines[low - 1] == few[|few| - 1]
  {
    var last := |few| - 1;
    assert lines[last] == few[last];
    BoundaryIsUnique(lines, start, low, |few|);
  }

  /** A strictly increasing list crosses a value in one place. */
  lemma BoundaryIsUnique(lines: seq<nat>, value: nat, a: nat, b: nat)
    requires forall i, j :: 0 <= i < j < |lines| ==> lines[i] < lines[j]
    requires a <= |lines| && (a > 0 ==> lines[a - 1] <= value) && (a < |lines| ==> lines[a] > value)
    requires b <= |lines| && (b > 0 ==> lines[b - 1] <= value) && (b < |lines| ==> lines[b] > value)
    ensures a == b
  {
  }
}
