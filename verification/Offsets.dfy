/**
 * Inserting generated text into a source, and mapping offsets there and back
 * (packages/compiler/src/source-mapping.ts, native-check.ts, compiler.ts, javascript.ts).
 */
module Offsets {
  import opened Text

  datatype Insertion = Insertion(position: nat, text: Text)

  ghost predicate Ascending(insertions: seq<Insertion>) {
    forall i, j :: 0 <= i < j < |insertions| ==> insertions[i].position <= insertions[j].position
  }

  ghost predicate Descending(insertions: seq<Insertion>) {
    forall i, j :: 0 <= i < j < |insertions| ==> insertions[i].position >= insertions[j].position
  }

  ghost predicate Within(insertions: seq<Insertion>, low: nat, high: nat) {
    forall i :: 0 <= i < |insertions| ==> low <= insertions[i].position <= high
  }

  // ---------------------------------------------------------------------------
  // The forward map
  // ---------------------------------------------------------------------------

  /** How much text is inserted at positions before `position`. */
  function Shift(insertions: seq<Insertion>, position: nat): nat {
    if insertions == [] then 0
    else (if insertions[0].position < position then |insertions[0].text| else 0) + Shift(insertions[1..], position)
  }

  function Total(insertions: seq<Insertion>): nat {
    if insertions == [] then 0 else |insertions[0].text| + Total(insertions[1..])
  }

  /** Prefix sums: entry k is the length of the first k insertions. */
  method Sums(insertions: seq<Insertion>) returns (sums: seq<nat>)
    ensures |sums| == |insertions| + 1
    ensures forall k :: 0 <= k <= |insertions| ==> sums[k] == Total(insertions[..k])
  {
    sums := [0];
    for k := 0 to |insertions|
      invariant |sums| == k + 1
      invariant forall j :: 0 <= j <= k ==> sums[j] == Total(insertions[..j])
    {
      TotalSnoc(insertions, k);
      sums := sums + [sums[|sums| - 1] + |insertions[k].text|];
    }
  }

  lemma {:induction false} TotalSnoc(insertions: seq<Insertion>, k: nat)
    requires k < |insertions|
    ensures Total(insertions[..k + 1]) == Total(insertions[..k]) + |insertions[k].text|
    decreases k
  {
    if k > 0 {
      TotalSnoc(insertions[1..], k - 1);
      assert insertions[..k + 1][1..] == insertions[1..][..k];
      assert insertions[..k][1..] == insertions[1..][..k - 1];
    } else {
      assert insertions[..1][1..] == [];
    }
  }

  /** Binary search over the sorted positions. */
  method ShiftBefore(insertions: seq<Insertion>, sums: seq<nat>, position: nat) returns (shift: nat)
    requires Ascending(insertions) && |sums| == |insertions| + 1
    requires forall k :: 0 <= k <= |insertions| ==> sums[k] == Total(insertions[..k])
    ensures shift == Shift(insertions, position)
  {
    var low, high := 0, |insertions|;
    while low < high
      invariant 0 <= low <= high <= |insertions|
      invariant forall i :: 0 <= i < low ==> insertions[i].position < position
      invariant forall i :: high <= i < |insertions| ==> insertions[i].position >= position
    {
      var middle := (low + high) / 2;
      if insertions[middle].position < position {
        low := middle + 1;
      } else {
        high := middle;
      }
    }
    ShiftIsPrefixTotal(insertions, position, low);
    return sums[low];
  }

  lemma {:induction false} ShiftIsPrefixTotal(insertions: seq<Insertion>, position: nat, k: nat)
    requires k <= |insertions|
    requires forall i :: 0 <= i < k ==> insertions[i].position < position
    requires forall i :: k <= i < |insertions| ==> insertions[i].position >= position
    ensures Shift(insertions, position) == Total(insertions[..k])
    decreases |insertions|
  {
    if insertions != [] {
      if k > 0 {
        ShiftIsPrefixTotal(insertions[1..], position, k - 1);
        assert insertions[..k][1..] == insertions[1..][..k - 1];
      } else {
        ShiftIsPrefixTotal(insertions[1..], position, 0);
        assert insertions[1..][..0] == insertions[..0];
      }
    }
  }

  // ---------------------------------------------------------------------------
  // The backward map
  // ---------------------------------------------------------------------------

  /** The source offset for an offset of the transformed text, `shift` units of insertions having been passed. */
  function OriginalFrom(insertions: seq<Insertion>, length: nat, offset: int, shift: nat): nat {
    if insertions == [] then Min(length, Max(0, offset - shift))
    else
      var start := insertions[0].position + shift;
      if offset <= start then Min(length, Max(0, offset - shift))
      else if offset <= start + |insertions[0].text| then insertions[0].position
      else OriginalFrom(insertions[1..], length, offset, shift + |insertions[0].text|)
  }

  method OriginalOffset(insertions: seq<Insertion>, length: nat, offset: int) returns (original: nat)
    ensures original == OriginalFrom(insertions, length, offset, 0)
  {
    var shift: nat := 0;
    for i := 0 to |insertions|
      invariant OriginalFrom(insertions[i..], length, offset, shift) == OriginalFrom(insertions, length, offset, 0)
    {
      var insertion := insertions[i];
      var start := insertion.position + shift;
      assert insertions[i..][0] == insertion && insertions[i..][1..] == insertions[i + 1..];
      if offset <= start {
        break;
      }
      if offset <= start + |insertion.text| {
        return insertion.position;
      }
      shift := shift + |insertion.text|;
    }
    return Min(length, Max(0, offset - shift));
  }

  lemma {:induction false} ShiftOfLater(insertions: seq<Insertion>, position: nat)
    requires forall i :: 0 <= i < |insertions| ==> insertions[i].position >= position
    ensures Shift(insertions, position) == 0
  {
    if insertions != [] {
      ShiftOfLater(insertions[1..], position);
    }
  }

  /**
   * The offsets from which the backward map leads to `position` include everything from the end of the text before it
   * to the start of its own unit: that is, all the text inserted there and both of its ends.
   */
  lemma {:induction false} OriginalOfInterval(insertions: seq<Insertion>, length: nat, position: nat, offset: nat,
                                              shift: nat)
    requires Ascending(insertions) && Within(insertions, 0, length) && position <= length
    requires position + shift + Shift(insertions, position) <= offset
    requires offset <= position + shift + Shift(insertions, position + 1)
    ensures OriginalFrom(insertions, length, offset, shift) == position
    decreases |insertions|
  {
    if insertions != [] {
      var first, rest := insertions[0], insertions[1..];
      if first.position > position {
        ShiftOfLater(insertions, position);
        ShiftOfLater(insertions, position + 1);
      } else if first.position == position {
        ShiftOfLater(insertions, position);
        ShiftOfLater(rest, position);
        if offset > position + shift + |first.text| {
          OriginalOfInterval(rest, length, position, offset, shift + |first.text|);
        }
      } else {
        OriginalOfInterval(rest, length, position, offset, shift + |first.text|);
      }
    }
  }

  /** Forward and back is the identity, wherever in the text inserted at a position one lands. */
  lemma BackwardUndoesForward(insertions: seq<Insertion>, length: nat, position: nat)
    requires Ascending(insertions) && Within(insertions, 0, length) && position <= length
    ensures OriginalFrom(insertions, length, position + Shift(insertions, position), 0) == position
    ensures forall offset :: Shift(insertions, position) <= offset - position <= Shift(insertions, position + 1) ==>
      OriginalFrom(insertions, length, offset, 0) == position
  {
    ShiftGrows(insertions, position, position + 1);
    forall offset | Shift(insertions, position) <= offset - position <= Shift(insertions, position + 1)
      ensures OriginalFrom(insertions, length, offset, 0) == position
    {
      OriginalOfInterval(insertions, length, position, offset, 0);
    }
    var start := position + Shift(insertions, position);
    assert Shift(insertions, position) <= start - position <= Shift(insertions, position + 1);
  }

  lemma {:induction false} ShiftGrows(insertions: seq<Insertion>, p: nat, q: nat)
    requires p <= q
    ensures Shift(insertions, p) <= Shift(insertions, q)
  {
    if insertions != [] {
      ShiftGrows(insertions[1..], p, q);
    }
  }

  /** The backward map never goes backwards, over all offsets. */
  lemma {:induction false} BackwardIsMonotone(insertions: seq<Insertion>, length: nat, a: int, b: int, shift: nat,
                                              low: nat)
    requires Ascending(insertions) && Within(insertions, low, length) && low <= length && a <= b
    ensures OriginalFrom(insertions, length, a, shift) <= OriginalFrom(insertions, length, b, shift)
    ensures a >= low + shift ==> low <= OriginalFrom(insertions, length, a, shift)
    decreases |insertions|
  {
    if insertions != [] {
      var first, rest := insertions[0], insertions[1..];
      BackwardIsMonotone(rest, length, a, b, shift + |first.text|, first.position);
      BackwardIsMonotone(rest, length, b, b, shift + |first.text|, first.position);
    }
  }

  // ---------------------------------------------------------------------------
  // Splicing
  // ---------------------------------------------------------------------------

  /** In order, and between two offsets. */
  ghost predicate Placed(insertions: seq<Insertion>, low: nat, high: nat) {
    insertions == []
    || (low <= insertions[0].position <= high && Placed(insertions[1..], insertions[0].position, high))
  }

  lemma {:induction false} PlacedIsAscending(insertions: seq<Insertion>, low: nat, high: nat)
    ensures Placed(insertions, low, high) <==> Ascending(insertions) && Within(insertions, low, high)
  {
    if insertions != [] {
      var first, rest := insertions[0], insertions[1..];
      PlacedIsAscending(rest, first.position, high);
      assert insertions == [first] + rest;
      if Ascending(insertions) && Within(insertions, low, high) {
        assert forall i :: 0 <= i < |rest| ==> rest[i] == insertions[i + 1];
      }
    }
  }

  /** The text from `cursor` on, with each insertion in its place. */
  function Built(source: Text, cursor: nat, insertions: seq<Insertion>): Text
    requires cursor <= |source| && Placed(insertions, cursor, |source|)
    decreases |insertions|
  {
    if insertions == [] then source[cursor..]
    else
      var first := insertions[0];
      source[cursor..first.position] + first.text + Built(source, first.position, insertions[1..])
  }

  /** Builds front to back over ascending edits. */
  method BuildForward(source: Text, edits: seq<Insertion>) returns (transformed: Text)
    requires Placed(edits, 0, |source|)
    ensures transformed == Built(source, 0, edits)
  {
    var chunks: Text := [];
    var cursor := 0;
    assert edits[0..] == edits;
    for i := 0 to |edits|
      invariant cursor <= |source| && Placed(edits[i..], cursor, |source|)
      invariant chunks + Built(source, cursor, edits[i..]) == Built(source, 0, edits)
    {
      BuildOne(chunks, source, cursor, edits[i..]);
      assert edits[i..][1..] == edits[i + 1..];
      var position := edits[i].position;
      chunks := chunks + source[cursor..position] + edits[i].text;
      cursor := position;
    }
    return chunks + source[cursor..];
  }

  lemma BuildOne(chunks: Text, source: Text, cursor: nat, edits: seq<Insertion>)
    requires edits != [] && cursor <= |source| && Placed(edits, cursor, |source|)
    ensures Placed(edits[1..], edits[0].position, |source|)
    ensures chunks + Built(source, cursor, edits)
            == chunks + source[cursor..edits[0].position] + edits[0].text + Built(source, edits[0].position, edits[1..])
  {
    var gap, text, after :=
      source[cursor..edits[0].position], edits[0].text, Built(source, edits[0].position, edits[1..]);
    Associate(chunks, gap + text, after);
    Associate(chunks, gap, text);
  }

  function Reversed(insertions: seq<Insertion>): (r: seq<Insertion>)
    ensures |r| == |insertions|
    ensures forall i :: 0 <= i < |r| ==> r[i] == insertions[|insertions| - 1 - i]
  {
    seq(|insertions|, i requires 0 <= i < |insertions| => insertions[|insertions| - 1 - i])
  }

  lemma ReversedSnoc(insertions: seq<Insertion>, last: Insertion)
    ensures Reversed(insertions + [last]) == [last] + Reversed(insertions)
  {
  }

  /** The part of the text before every insertion is untouched. */
  lemma BuiltStart(source: Text, cursor: nat, insertions: seq<Insertion>, position: nat)
    requires cursor <= position <= |source| && Placed(insertions, position, |source|)
    ensures Built(source, cursor, insertions) == source[cursor..position] + Built(source, position, insertions)
  {
    if insertions == [] {
      assert source[cursor..] == source[cursor..position] + source[position..];
    } else {
      var first := insertions[0];
      var front, middle := source[cursor..position], source[position..first.position];
      var after := Built(source, first.position, insertions[1..]);
      assert source[cursor..first.position] == front + middle;
      Associate(front, middle, first.text);
      Associate(front, middle + first.text, after);
    }
  }

  lemma {:induction false} ReversedIsPlaced(insertions: seq<Insertion>, low: nat, high: nat)
    requires Descending(insertions) && Within(insertions, low, high)
    ensures Placed(Reversed(insertions), low, high)
  {
    PlacedIsAscending(Reversed(insertions), low, high);
  }

  /** One splice in front of all that has been inserted. */
  lemma SpliceOne(source: Text, done: seq<Insertion>, insertion: Insertion)
    requires insertion.position <= |source| && Placed(done, insertion.position, |source|)
    ensures Placed([insertion] + done, 0, |source|) && Placed(done, 0, |source|)
    ensures var before, p := Built(source, 0, done), insertion.position;
      |before| >= p && Built(source, 0, [insertion] + done) == before[..p] + insertion.text + before[p..]
  {
    var longer, p := [insertion] + done, insertion.position;
    assert longer[1..] == done;
    BuiltStart(source, 0, done, p);
    var before := Built(source, 0, done);
    assert before[..p] == source[0..p] && before[p..] == Built(source, p, done);
  }

  /** Splices back to front over descending insertions, as the compiler does: the forward build of the reversed list. */
  method SpliceBackward(source: Text, insertions: seq<Insertion>) returns (transformed: Text)
    requires Descending(insertions) && Within(insertions, 0, |source|)
    ensures Placed(Reversed(insertions), 0, |source|)
    ensures transformed == Built(source, 0, Reversed(insertions))
  {
    ReversedIsPlaced(insertions, 0, |source|);
    transformed := source;
    for i := 0 to |insertions|
      invariant Placed(Reversed(insertions[..i]), 0, |source|)
      invariant transformed == Built(source, 0, Reversed(insertions[..i]))
    {
      var insertion := insertions[i];
      ghost var done := Reversed(insertions[..i]);
      assert insertions[..i + 1] == insertions[..i] + [insertion];
      ReversedSnoc(insertions[..i], insertion);
      ReversedIsPlaced(insertions[..i], insertion.position, |source|);
      SpliceOne(source, done, insertion);
      transformed := transformed[..insertion.position] + insertion.text + transformed[insertion.position..];
    }
    assert insertions[..|insertions|] == insertions;
  }

  /** The texts inserted at one position, in order. */
  function TextsAt(insertions: seq<Insertion>, position: nat): Text {
    if insertions == [] then []
    else (if insertions[0].position == position then insertions[0].text else []) + TextsAt(insertions[1..], position)
  }

  lemma {:induction false} TextsAtLength(insertions: seq<Insertion>, position: nat)
    ensures |TextsAt(insertions, position)| == Shift(insertions, position + 1) - Shift(insertions, position)
  {
    if insertions != [] {
      TextsAtLength(insertions[1..], position);
    }
  }

  lemma {:induction false} TextsAtEarlier(insertions: seq<Insertion>, position: nat)
    requires forall i :: 0 <= i < |insertions| ==> insertions[i].position > position
    ensures TextsAt(insertions, position) == []
  {
    if insertions != [] {
      TextsAtEarlier(insertions[1..], position);
    }
  }

  /** From `from` to `to` stands the text, and behind it the unit, if there is one. */
  ghost predicate Stands(built: Text, from: int, to: int, text: Text, next: Option<Unit>) {
    && 0 <= from <= to <= |built|
    && built[from..to] == text
    && (next.Some? ==> to < |built| && built[to] == next.value)
  }

  lemma StandsBehind(built: Text, front: Text, after: Text, from: int, to: int, k: int, l: int, text: Text,
                     next: Option<Unit>)
    requires built == front + after && Stands(after, from, to, text, next)
    requires k == |front| + from && l == |front| + to
    ensures Stands(built, k, l, text, next)
  {
    SliceOfTail(front, after, from, to);
  }

  lemma StandsLonger(built: Text, front: Text, first: Text, after: Text, to: int, k: int, l: int, text: Text,
                     next: Option<Unit>)
    requires built == front + (first + after) && Stands(after, 0, to, text, next)
    requires k == |front| && l == |front| + |first| + to
    ensures Stands(built, k, l, first + text, next)
  {
    var m := |first| + to;
    assert (first + after)[0..m] == first + text;
    StandsBehind(built, front, first + after, 0, m, k, l, first + text, next);
  }

  /** Takes out of `text`, which starts at source offset `cursor`, what each insertion has put there. */
  function Erase(text: Text, cursor: nat, insertions: seq<Insertion>): Text
    decreases |insertions|
  {
    if insertions == [] then text
    else
      var first := insertions[0];
      var from := Min(|text|, Max(0, first.position - cursor));
      var to := Min(|text|, from + |first.text|);
      text[..from] + Erase(text[to..], first.position, insertions[1..])
  }

  lemma EraseFirst(text: Text, front: Text, after: Text, cursor: nat, insertions: seq<Insertion>)
    requires insertions != [] && insertions[0].position == cursor + |front|
    requires text == front + insertions[0].text + after
    ensures Erase(text, cursor, insertions) == front + Erase(after, insertions[0].position, insertions[1..])
  {
    assert text[..|front|] == front;
    assert text[|front| + |insertions[0].text|..] == after;
  }

  /** Erasing the insertions from the spliced text gives the source back. */
  lemma {:induction false} ErasingGivesTheSource(source: Text, cursor: nat, insertions: seq<Insertion>)
    requires cursor <= |source| && Placed(insertions, cursor, |source|)
    ensures Erase(Built(source, cursor, insertions), cursor, insertions) == source[cursor..]
    decreases |insertions|
  {
    if insertions != [] {
      var next := insertions[0].position;
      var front, after := source[cursor..next], Built(source, next, insertions[1..]);
      EraseFirst(Built(source, cursor, insertions), front, after, cursor, insertions);
      ErasingGivesTheSource(source, next, insertions[1..]);
      assert front + source[next..] == source[cursor..];
    }
  }

  /** What a spliced text is, position by position: the texts inserted there, then the source's own unit. */
  lemma {:induction false} BuiltHoldsEverything(source: Text, cursor: nat, insertions: seq<Insertion>, position: nat,
                                                from: int, to: int)
    requires cursor <= position <= |source| && Placed(insertions, cursor, |source|)
    requires from == position - cursor + Shift(insertions, position)
    requires to == position - cursor + Shift(insertions, position + 1)
    ensures Stands(Built(source, cursor, insertions), from, to, TextsAt(insertions, position), At(source, position))
    decreases |insertions|
  {
    if insertions == [] {
      SourceStands(source[cursor..], [], source, cursor, |source|, position, from);
      assert source[cursor..] + [] == source[cursor..];
    } else {
      var first, rest := insertions[0], insertions[1..];
      var front, after := source[cursor..first.position], Built(source, first.position, rest);
      var built, texts, unit := Built(source, cursor, insertions), TextsAt(rest, position), At(source, position);
      Associate(front, first.text, after);
      if position < first.position {
        NothingStandsEarlier(insertions, position, cursor, |source|);
        SourceStands(built, first.text + after, source, cursor, first.position, position, from);
      } else {
        var k := position - first.position + Shift(rest, position);
        var l := position - first.position + Shift(rest, position + 1);
        BuiltHoldsEverything(source, first.position, rest, position, k, l);
        if first.position < position {
          StandsBehind(built, front + first.text, after, k, l, from, to, texts, unit);
        } else {
          NothingIsShifted(rest, position, |source|);
          StandsLonger(built, front, first.text, after, l, from, to, texts, unit);
        }
      }
    }
  }

  lemma NothingStandsEarlier(insertions: seq<Insertion>, position: nat, low: nat, high: nat)
    requires Placed(insertions, low, high) && insertions != [] && position < insertions[0].position
    ensures Shift(insertions, position) == Shift(insertions, position + 1) == 0 && TextsAt(insertions, position) == []
  {
    PlacedIsAscending(insertions, low, high);
    ShiftOfLater(insertions, position);
    ShiftOfLater(insertions, position + 1);
    TextsAtEarlier(insertions, position);
  }

  lemma NothingIsShifted(insertions: seq<Insertion>, position: nat, high: nat)
    requires Placed(insertions, position, high)
    ensures Shift(insertions, position) == 0
  {
    PlacedIsAscending(insertions, position, high);
    ShiftOfLater(insertions, position);
  }

  /** Before the first insertion stands the source. */
  lemma SourceStands(built: Text, after: Text, source: Text, cursor: nat, end: nat, position: nat, from: int)
    requires cursor <= position <= end <= |source| && built == source[cursor..end] + after
    requires from == position - cursor && (position == end ==> end == |source|)
    ensures Stands(built, from, from, [], At(source, position))
  {
    if position < end {
      assert source[cursor..end][from] == source[position];
    }
  }

  lemma {:induction false} BuiltLength(source: Text, cursor: nat, insertions: seq<Insertion>)
    requires cursor <= |source| && Placed(insertions, cursor, |source|)
    ensures |Built(source, cursor, insertions)| == |source| - cursor + Total(insertions)
    decreases |insertions|
  {
    if insertions != [] {
      BuiltLength(source, insertions[0].position, insertions[1..]);
    }
  }
}
