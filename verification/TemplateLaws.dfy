/** What extraction promises: offset maps, placeholder slices, renumbering, and printed literals read back. */
module TemplateLaws {
  import opened Text
  import opened Scanner

  // ---------------------------------------------------------------------------
  // Offset maps
  // ---------------------------------------------------------------------------

  ghost predicate Ascending(origins: seq<nat>, low: nat, high: nat) {
    && (forall i :: 0 <= i < |origins| ==> low <= origins[i] < high)
    && (forall i, j :: 0 <= i < j < |origins| ==> origins[i] <= origins[j])
  }

  lemma AscendingAdd(a: seq<nat>, b: seq<nat>, low: nat, middle: nat, high: nat)
    requires low <= middle <= high
    requires Ascending(a, low, middle) && Ascending(b, middle, high)
    ensures Ascending(a + b, low, high)
  {
  }

  lemma {:induction false} RenderPrependText(text: Mapped, end: nat, rest: Template, placeholder: Placeholder,
                                              offset: nat, k: nat)
    requires k <= |rest.segments|
    ensures RenderFirst(Prepend(Cooked(text, end), rest), placeholder, offset, k)
            == text + RenderFirst(rest, placeholder, offset, k)
  {
    if k > 0 {
      RenderPrependText(text, end, rest, placeholder, offset, k - 1);
      Associate(text, RenderFirst(rest, placeholder, offset, k - 1),
                RenderSegment(rest.segments[k - 1], placeholder(offset + k)));
    }
  }

  lemma {:induction false} RenderPrependHole(hole: Hole, rest: Template, placeholder: Placeholder, offset: nat,
                                              next: nat, k: nat, marker: Mapped)
    requires k <= |rest.segments| && next == offset + 1 && marker == Mark(placeholder(next), hole.start)
    ensures RenderFirst(Prepend(Interpolated(hole), rest), placeholder, offset, k + 1)
            == marker + RenderFirst(rest, placeholder, next, k)
  {
    var t := Prepend(Interpolated(hole), rest);
    RenderOneMore(t, placeholder, offset, k, placeholder(next + k));
    if k == 0 {
      assert RenderFirst(t, placeholder, offset, 0) == [];
    } else {
      RenderPrependHole(hole, rest, placeholder, offset, next, k - 1, marker);
      assert t.segments[k] == rest.segments[k - 1];
      Associate(marker, RenderFirst(rest, placeholder, next, k - 1),
                RenderSegment(rest.segments[k - 1], placeholder(next + k)));
    }
  }

  lemma PieceOriginsAscend(source: Text, i: nat)
    requires i < |source| && source[i] != BACKTICK && PieceAt(source, i).Some?
    ensures var piece := PieceAt(source, i).value;
      piece.Cooked? ==> Ascending(Origins(piece.text), i, PieceEnd(piece))
  {
  }

  lemma PrependAscends(piece: Piece, rest: Template, placeholder: Placeholder, offset: nat, i: nat, end: nat)
    requires i < PieceEnd(piece) <= end
    requires piece.Cooked? ==> Ascending(Origins(piece.text), i, PieceEnd(piece))
    requires piece.Interpolated? ==> piece.hole.start == i
    requires var next := if piece.Cooked? then offset else offset + 1;
      Ascending(Origins(Render(rest, placeholder, next)), PieceEnd(piece), end)
    ensures Ascending(Origins(Render(Prepend(piece, rest), placeholder, offset)), i, end)
  {
    var next := if piece.Cooked? then offset else offset + 1;
    var first := if piece.Cooked? then piece.text else Mark(placeholder(offset + 1), piece.hole.start);
    var tail := Render(rest, placeholder, next);
    if piece.Cooked? {
      RenderPrependText(piece.text, piece.end, rest, placeholder, offset, |rest.segments|);
    } else {
      RenderPrependHole(piece.hole, rest, placeholder, offset, next, |rest.segments|, first);
    }
    UnitsAndOriginsAdd(first, tail);
    AscendingAdd(Origins(first), Origins(tail), i, PieceEnd(piece), end);
  }

  /** The origins of an extracted literal never go backwards and stay inside it. */
  lemma {:induction false} LexedOriginsAscend(source: Text, i: nat, lexed: Lexed, placeholder: Placeholder, offset: nat)
    requires Lex(source, i) == Some(lexed)
    ensures Ascending(Origins(Render(lexed.template, placeholder, offset)), i, lexed.end)
    decreases |source| - i
  {
    if source[i] != BACKTICK {
      var piece := PieceAt(source, i).value;
      var rest := Lex(source, PieceEnd(piece)).value;
      PieceOriginsAscend(source, i);
      LexedOriginsAscend(source, PieceEnd(piece), rest, placeholder, if piece.Cooked? then offset else offset + 1);
      PrependAscends(piece, rest.template, placeholder, offset, i, rest.end);
    }
  }

  lemma {:induction false} RenderFirstIsPrefix(t: Template, placeholder: Placeholder, offset: nat, k: nat, n: nat)
    requires k <= n <= |t.segments|
    ensures RenderFirst(t, placeholder, offset, k) <= RenderFirst(t, placeholder, offset, n)
  {
    if k < n {
      RenderFirstIsPrefix(t, placeholder, offset, k, n - 1);
    }
  }

  /** Around its k-th placeholder a rendering reads: everything before, the placeholder, the literal text after. */
  lemma RenderAroundHole(t: Template, placeholder: Placeholder, offset: nat, k: nat)
    requires k < |t.segments|
    ensures var rendered := Render(t, placeholder, offset);
      var start := |RenderFirst(t, placeholder, offset, k)|;
      var end := start + |placeholder(offset + k + 1)|;
      var next := end + |t.segments[k].after|;
      && next <= |rendered|
      && rendered[..start] == RenderFirst(t, placeholder, offset, k)
      && rendered[start..end] == Mark(placeholder(offset + k + 1), t.segments[k].hole.start)
      && rendered[end..next] == t.segments[k].after
      && next == |RenderFirst(t, placeholder, offset, k + 1)|
  {
    var before := RenderFirst(t, placeholder, offset, k);
    var marker := Mark(placeholder(offset + k + 1), t.segments[k].hole.start);
    var upTo := RenderFirst(t, placeholder, offset, k + 1);
    RenderOneMore(t, placeholder, offset, k, placeholder(offset + k + 1));
    var rendered := Render(t, placeholder, offset);
    RenderFirstIsPrefix(t, placeholder, offset, k + 1, |t.segments|);
    assert rendered[..|upTo|] == upTo;
    var start, end := |before|, |before| + |marker|;
    assert rendered[..start] == upTo[..start] == before;
    assert rendered[start..end] == upTo[start..end] == marker;
    assert rendered[end..|upTo|] == upTo[end..] == t.segments[k].after;
  }

  /** The k-th interpolation's slice of the SQL is its placeholder, and all of it maps to the interpolation. */
  ghost predicate HoleIsMapped(query: ExtractedQuery, placeholder: Placeholder, offset: nat, k: nat)
    requires k < |query.interpolations| && |query.sqlOffsetMap| == |query.sql|
  {
    var hole := query.interpolations[k];
    && hole.index == k + 1
    && hole.sqlStart <= hole.sqlEnd <= |query.sql|
    && query.sql[hole.sqlStart..hole.sqlEnd] == placeholder(offset + hole.index)
    && (forall p :: hole.sqlStart <= p < hole.sqlEnd ==> query.sqlOffsetMap[p] == hole.sourceStart)
    && (k > 0 ==> query.interpolations[k - 1].sqlEnd <= hole.sqlStart)
  }

  lemma SliceIsMapped(rendered: Mapped, from: nat, to: nat, text: Text, origin: nat)
    requires from <= to <= |rendered| && rendered[from..to] == Mark(text, origin)
    ensures Units(rendered)[from..to] == text
    ensures forall p :: from <= p < to ==> Origins(rendered)[p] == origin
  {
    MarkParts(text, origin);
    assert Units(rendered)[from..to] == Units(rendered[from..to]);
    forall p | from <= p < to ensures rendered[p].1 == origin {
      assert rendered[p] == rendered[from..to][p - from];
    }
  }

  lemma QueryHoleIsMapped(tagName: Text, tagStart: nat, lexed: Lexed, placeholder: Placeholder, offset: nat, k: nat)
    requires k < |lexed.template.segments|
    ensures HoleIsMapped(QueryOf(tagName, tagStart, lexed, placeholder, offset), placeholder, offset, k)
  {
    var t := lexed.template;
    var hole := InterpolationAt(t, placeholder, offset, k);
    RenderAroundHole(t, placeholder, offset, k);
    SliceIsMapped(Render(t, placeholder, offset), hole.sqlStart, hole.sqlEnd, placeholder(offset + k + 1),
                  hole.sourceStart);
    if k > 0 {
      RenderAroundHole(t, placeholder, offset, k - 1);
    }
  }

  /**
   * Every template that extracts: one non-decreasing source offset per unit of SQL, and each interpolation's SQL
   * slice is its own placeholder, numbered left to right, in order and without overlap.
   */
  lemma ExtractionIsMapped(source: Text, tagName: Text, tagStart: nat, backtick: nat, placeholder: Placeholder,
                           offset: nat, query: ExtractedQuery)
    requires Extract(source, tagName, tagStart, backtick, placeholder, offset) == Some(query)
    ensures |query.sqlOffsetMap| == |query.sql|
    ensures Ascending(query.sqlOffsetMap, backtick + 1, query.end)
    ensures |query.interpolations| == query.parameterCount
    ensures forall k :: 0 <= k < query.parameterCount ==> HoleIsMapped(query, placeholder, offset, k)
  {
    var lexed := Lex(source, backtick + 1).value;
    LexedOriginsAscend(source, backtick + 1, lexed, placeholder, offset);
    forall k | 0 <= k < query.parameterCount ensures HoleIsMapped(query, placeholder, offset, k) {
      QueryHoleIsMapped(tagName, tagStart, lexed, placeholder, offset, k);
    }
  }

  // ---------------------------------------------------------------------------
  // Where the expressions are
  // ---------------------------------------------------------------------------

  /** Code that ends before the source does ends with the brace that closes it. */
  lemma {:induction false} CodeEndsWithBrace(source: Text, i: nat, depth: nat)
    requires depth > 0 && i <= |source| && CodeEnd(source, i, depth) < |source|
    ensures i < CodeEnd(source, i, depth) && source[CodeEnd(source, i, depth) - 1] == CLOSE_BRACE
    decreases |source| - i
  {
    if !(source[i] == CLOSE_BRACE && depth == 1) {
      var next := TokenEnd(source, i);
      CodeEndsWithBrace(source, next, if source[i] == OPEN_BRACE then depth + 1
                                      else if source[i] == CLOSE_BRACE then depth - 1 else depth);
    }
  }

  /** The hole is `${`, code, and the brace that closes it. */
  ghost predicate IsInterpolation(source: Text, hole: Hole) {
    && hole.start + 2 < hole.end < |source|
    && source[hole.start] == DOLLAR && source[hole.start + 1] == OPEN_BRACE && source[hole.end - 1] == CLOSE_BRACE
    && CodeEnd(source, hole.start + 2, 1) == hole.end
  }

  lemma {:induction false} HolesAreInterpolations(source: Text, i: nat, k: nat)
    requires Lex(source, i).Some? && k < |Lex(source, i).value.template.segments|
    ensures IsInterpolation(source, Lex(source, i).value.template.segments[k].hole)
    decreases |source| - i
  {
    if source[i] != BACKTICK {
      var piece := PieceAt(source, i).value;
      match piece
      case Cooked(_, end) => HolesAreInterpolations(source, end, k);
      case Interpolated(hole) =>
        if k > 0 {
          HolesAreInterpolations(source, hole.end, k - 1);
        } else {
          CodeEndsWithBrace(source, i + 2, 1);
        }
    }
  }

  /** A record whose expression is the code between `${` and the brace that closes it. */
  ghost predicate StandsBetweenBraces(source: Text, p: Interpolation) {
    && p.sourceStart + 2 == p.expressionStart <= p.expressionEnd == p.sourceEnd - 1 < |source|
    && source[p.sourceStart] == DOLLAR && source[p.sourceStart + 1] == OPEN_BRACE
    && source[p.expressionEnd] == CLOSE_BRACE && CodeEnd(source, p.expressionStart, 1) == p.sourceEnd
  }

  lemma DescribedStands(source: Text, index: nat, hole: Hole, sqlStart: nat, sqlEnd: nat)
    requires IsInterpolation(source, hole)
    ensures StandsBetweenBraces(source, Described(index, hole, sqlStart, sqlEnd))
  {
  }

  lemma RecordStands(source: Text, t: Template, placeholder: Placeholder, offset: nat, k: nat)
    requires k < |t.segments| && IsInterpolation(source, t.segments[k].hole)
    ensures StandsBetweenBraces(source, Interpolations(t, placeholder, offset)[k])
  {
    var p := InterpolationAt(t, placeholder, offset, k);
    DescribedStands(source, k + 1, t.segments[k].hole, p.sqlStart, p.sqlEnd);
  }

  /** What is kept of every interpolation. */
  lemma ExpressionsStandBetweenBraces(source: Text, tagName: Text, tagStart: nat, backtick: nat,
                                      placeholder: Placeholder, offset: nat, query: ExtractedQuery, k: nat)
    requires Extract(source, tagName, tagStart, backtick, placeholder, offset) == Some(query)
    requires k < |query.interpolations|
    ensures StandsBetweenBraces(source, query.interpolations[k])
  {
    var t := Lex(source, backtick + 1).value.template;
    assert query.interpolations == Interpolations(t, placeholder, offset);
    HolesAreInterpolations(source, backtick + 1, k);
    RecordStands(source, t, placeholder, offset, k);
  }

  // ---------------------------------------------------------------------------
  // Printed literals read back
  // ---------------------------------------------------------------------------

  /** `text.replaceAll(needle, replacement)`. */
  function ReplaceAll(text: Text, needle: Text, replacement: Text): Text
    requires needle != []
  {
    if |text| < |needle| then text
    else if text[..|needle|] == needle then replacement + ReplaceAll(text[|needle|..], needle, replacement)
    else [text[0]] + ReplaceAll(text[1..], needle, replacement)
  }

  /** How the conformance suite prints a text as the body of a template literal: three passes. */
  function TemplateLiteralText(text: Text): Text {
    var slashed := ReplaceAll(text, [BACKSLASH], [BACKSLASH, BACKSLASH]);
    var ticked := ReplaceAll(slashed, [BACKTICK], [BACKSLASH, BACKTICK]);
    ReplaceAll(ticked, [DOLLAR, OPEN_BRACE], [BACKSLASH, DOLLAR, OPEN_BRACE])
  }

  /** The same in one pass. */
  function Escaped(text: Text): Text {
    if text == [] then []
    else if text[0] == DOLLAR && |text| > 1 && text[1] == OPEN_BRACE then
      [BACKSLASH, DOLLAR, OPEN_BRACE] + Escaped(text[2..])
    else EscapedUnit(text[0]) + Escaped(text[1..])
  }

  function EscapedUnit(unit: Unit): Text {
    if unit == BACKSLASH || unit == BACKTICK then [BACKSLASH, unit] else [unit]
  }

  /** Line endings as template literals see them. */
  function Normalized(text: Text): Text {
    if text == [] then []
    else if text[0] == CR then
      [LF] + Normalized(if |text| > 1 && text[1] == LF then text[2..] else text[1..])
    else [text[0]] + Normalized(text[1..])
  }

  lemma {:induction false} ReplaceUnitAdds(a: Text, b: Text, unit: Unit, replacement: Text)
    ensures ReplaceAll(a + b, [unit], replacement)
      == ReplaceAll(a, [unit], replacement) + ReplaceAll(b, [unit], replacement)
  {
    if a == [] {
      assert a + b == b;
    } else {
      ReplaceUnitAdds(a[1..], b, unit, replacement);
      assert (a + b)[1..] == a[1..] + b;
      assert (a + b)[..1] == a[..1] == [a[0]];
      assert [a[0]] == [unit] <==> a[0] == unit;
    }
  }

  /** The first two passes escape unit by unit. */
  function Ticked(text: Text): Text {
    ReplaceAll(ReplaceAll(text, [BACKSLASH], [BACKSLASH, BACKSLASH]), [BACKTICK], [BACKSLASH, BACKTICK])
  }

  lemma TickedStep(text: Text)
    requires text != []
    ensures Ticked(text) == EscapedUnit(text[0]) + Ticked(text[1..])
  {
    var unit := text[0];
    assert text == [unit] + text[1..];
    ReplaceUnitAdds([unit], text[1..], BACKSLASH, [BACKSLASH, BACKSLASH]);
    var first := ReplaceAll([unit], [BACKSLASH], [BACKSLASH, BACKSLASH]);
    assert [unit][..1] == [unit] && [unit][1..] == [];
    assert first == if unit == BACKSLASH then [BACKSLASH, BACKSLASH] else [unit];
    ReplaceUnitAdds(first, ReplaceAll(text[1..], [BACKSLASH], [BACKSLASH, BACKSLASH]), BACKTICK, [BACKSLASH, BACKTICK]);
    if unit == BACKSLASH {
      ReplaceUnitAdds([BACKSLASH], [BACKSLASH], BACKTICK, [BACKSLASH, BACKTICK]);
      assert [BACKSLASH] + [BACKSLASH] == [BACKSLASH, BACKSLASH];
      assert ReplaceAll([BACKSLASH], [BACKTICK], [BACKSLASH, BACKTICK]) == [BACKSLASH];
    }
  }

  /** The third pass. */
  function Opened(text: Text): Text {
    ReplaceAll(text, [DOLLAR, OPEN_BRACE], [BACKSLASH, DOLLAR, OPEN_BRACE])
  }

  lemma OpenedKeeps(unit: Unit, rest: Text)
    requires unit == DOLLAR ==> rest == [] || rest[0] != OPEN_BRACE
    ensures Opened([unit] + rest) == [unit] + Opened(rest)
  {
    var text := [unit] + rest;
    assert text[1..] == rest;
    if |text| >= 2 {
      assert text[..2][0] == unit && text[..2][1] == rest[0];
    }
  }

  lemma OpenedEscapes(rest: Text)
    ensures Opened([DOLLAR] + ([OPEN_BRACE] + rest)) == [BACKSLASH, DOLLAR, OPEN_BRACE] + Opened(rest)
  {
    var text := [DOLLAR] + ([OPEN_BRACE] + rest);
    assert text[..2] == [DOLLAR, OPEN_BRACE] && text[2..] == rest;
  }

  lemma OpenedKeepsEscapes(unit: Unit, rest: Text)
    requires unit != DOLLAR
    ensures Opened(EscapedUnit(unit) + rest) == EscapedUnit(unit) + Opened(rest)
  {
    OpenedKeeps(unit, rest);
    if |EscapedUnit(unit)| == 2 {
      assert EscapedUnit(unit) + rest == [BACKSLASH] + ([unit] + rest);
      OpenedKeeps(BACKSLASH, [unit] + rest);
      assert EscapedUnit(unit) + Opened(rest) == [BACKSLASH] + ([unit] + Opened(rest));
    }
  }

  lemma {:induction false} ThreePassesAreOne(text: Text)
    ensures TemplateLiteralText(text) == Escaped(text)
    decreases |text|
  {
    assert TemplateLiteralText(text) == Opened(Ticked(text));
    if text != [] {
      var unit, rest := text[0], text[1..];
      TickedStep(text);
      ThreePassesAreOne(rest);
      if unit != DOLLAR {
        OpenedKeepsEscapes(unit, Ticked(rest));
      } else if rest == [] {
        OpenedKeeps(DOLLAR, Ticked(rest));
      } else {
        var later := rest[1..];
        TickedStep(rest);
        if rest[0] == OPEN_BRACE {
          ThreePassesAreOne(later);
          OpenedEscapes(Ticked(later));
          assert text[2..] == later;
        } else {
          OpenedKeeps(DOLLAR, Ticked(rest));
        }
      }
    }
  }

  /** How many leading units of a text its reader takes in one step: a carriage return takes its line feed along. */
  function StepLength(text: Text): (n: nat)
    requires text != []
    ensures 1 <= n <= |text|
  {
    if text[0] == CR && |text| > 1 && text[1] == LF then 2 else 1
  }

  /** The printed form of those units. */
  function StepPrinted(text: Text): Text
    requires text != []
  {
    if text[0] == DOLLAR && |text| > 1 && text[1] == OPEN_BRACE then [BACKSLASH, DOLLAR]
    else if StepLength(text) == 2 then [CR, LF]
    else EscapedUnit(text[0])
  }

  /** The unit they stand for. */
  function StepRead(text: Text): Unit
    requires text != []
  {
    if text[0] == CR then LF else text[0]
  }

  lemma StepSplits(text: Text)
    requires text != []
    ensures Escaped(text) == StepPrinted(text) + Escaped(text[StepLength(text)..])
    ensures Normalized(text) == [StepRead(text)] + Normalized(text[StepLength(text)..])
  {
    if |text| > 1 {
      var rest, later := text[1..], text[2..];
      assert rest[1..] == later;
      if text[0] == DOLLAR && text[1] == OPEN_BRACE {
        assert Escaped(rest) == [OPEN_BRACE] + Escaped(later);
        Associate([BACKSLASH, DOLLAR], [OPEN_BRACE], Escaped(later));
        assert [BACKSLASH, DOLLAR] + [OPEN_BRACE] == [BACKSLASH, DOLLAR, OPEN_BRACE];
      } else if StepLength(text) == 2 {
        assert Escaped(rest) == [LF] + Escaped(later);
        Associate([CR], [LF], Escaped(later));
        assert [CR] + [LF] == [CR, LF];
      }
    }
  }

  /** What comes first in the printed form of a text. */
  lemma EscapedStart(text: Text)
    ensures text == [] <==> Escaped(text) == []
    ensures text != [] && text[0] != LF ==> Escaped(text)[0] != LF
    ensures text != [] && text[0] != OPEN_BRACE ==> Escaped(text)[0] != OPEN_BRACE
    ensures text != [] ==> Escaped(text)[0] != BACKTICK
  {
  }

  lemma StepIsRead(source: Text, i: nat, text: Text)
    requires text != []
    requires i + |StepPrinted(text)| < |source|
    requires source[i..i + |StepPrinted(text)|] == StepPrinted(text)
    requires text[0] == CR && StepLength(text) == 1 ==> source[i + 1] != LF
    requires text[0] == DOLLAR && StepPrinted(text) == [DOLLAR] ==> source[i + 1] != OPEN_BRACE
    ensures source[i] != BACKTICK
    ensures PieceAt(source, i) == Some(Cooked(Mark([StepRead(text)], i), i + |StepPrinted(text)|))
  {
    var printed := StepPrinted(text);
    assert forall k :: 0 <= k < |printed| ==> source[i + k] == source[i..i + |printed|][k] == printed[k];
    assert source[i] == printed[0];
    if |printed| == 2 {
      assert source[i + 1] == printed[1];
    }
  }

  /** What is read from `i` to the closing backtick: this text and no interpolation. */
  ghost predicate ReadsAs(source: Text, i: nat, end: nat, text: Text) {
    match Lex(source, i)
    case None => false
    case Some(lexed) =>
      lexed.end == end && lexed.template.segments == [] && Units(lexed.template.head) == text
  }

  lemma OneMoreIsRead(source: Text, i: nat, next: nat, end: nat, unit: Unit, text: Text)
    requires i < |source| && source[i] != BACKTICK && PieceAt(source, i) == Some(Cooked(Mark([unit], i), next))
    requires ReadsAs(source, next, end, text)
    ensures ReadsAs(source, i, end, [unit] + text)
  {
    var rest := Lex(source, next).value;
    UnitsAndOriginsAdd(Mark([unit], i), rest.template.head);
    MarkParts([unit], i);
  }

  lemma PrintedStands(source: Text, i: nat, printed: Text, later: Text)
    requires i <= |source| && source[i..] == printed + later && later != []
    ensures i + |printed| < |source| && source[i..i + |printed|] == printed && source[i + |printed|..] == later
    ensures source[i + |printed|] == later[0]
  {
    var stretch := source[i..];
    assert source[i..i + |printed|] == stretch[..|printed|] == printed;
    assert source[i + |printed|..] == stretch[|printed|..] == later;
    assert source[i + |printed|] == stretch[|printed|];
  }

  lemma EscapedStepIsRead(source: Text, i: nat, text: Text, rest: Text, tail: Text) returns (next: nat)
    requires i <= |source| && source[i..] == Escaped(text) + tail && tail != [] && tail[0] == BACKTICK
    requires text != [] && rest == text[StepLength(text)..]
    ensures i < next <= |source| && source[next..] == Escaped(rest) + tail
    ensures next + |Escaped(rest)| == i + |Escaped(text)|
    ensures source[i] != BACKTICK && PieceAt(source, i) == Some(Cooked(Mark([StepRead(text)], i), next))
  {
    var printed, later := StepPrinted(text), Escaped(rest) + tail;
    next := i + |printed|;
    StepSplits(text);
    Associate(printed, Escaped(rest), tail);
    PrintedStands(source, i, printed, later);
    EscapedStart(rest);
    assert later[0] == if rest == [] then BACKTICK else Escaped(rest)[0];
    StepIsRead(source, i, text);
  }

  /** Reading an escaped text up to its closing backtick gives the normalized text and no interpolation. */
  lemma {:induction false} EscapedReadsBack(source: Text, i: nat, text: Text, tail: Text, end: nat)
    requires i <= |source| && source[i..] == Escaped(text) + tail && tail != [] && tail[0] == BACKTICK
    requires end == i + |Escaped(text)| + 1
    ensures ReadsAs(source, i, end, Normalized(text))
    decreases |text|
  {
    if text == [] {
      assert source[i] == source[i..][0] == BACKTICK;
    } else {
      var rest := text[StepLength(text)..];
      StepSplits(text);
      var next := EscapedStepIsRead(source, i, text, rest, tail);
      EscapedReadsBack(source, next, rest, tail, end);
      OneMoreIsRead(source, i, next, end, StepRead(text), Normalized(rest));
    }
  }

  /** Normalizing removes carriage returns and touches nothing else. */
  lemma {:induction false} NormalizedIsFreeOfReturns(text: Text)
    ensures CR !in Normalized(text)
    ensures CR !in text ==> Normalized(text) == text
    decreases |text|
  {
    if text != [] {
      NormalizedIsFreeOfReturns(text[1..]);
      if |text| > 1 {
        NormalizedIsFreeOfReturns(text[2..]);
      }
      assert text == [text[0]] + text[1..];
    }
  }

  /**
   * The literal printed for a text extracts, wherever it stands in a source, to that text with its line endings
   * normalized: no parameters, and the extraction ends right after the closing backtick.
   */
  lemma PrintedLiteralReadsBack(before: Text, text: Text, after: Text, tagName: Text, tagStart: nat,
                                placeholder: Placeholder, offset: nat)
    ensures var source := before + [BACKTICK] + TemplateLiteralText(text) + [BACKTICK] + after;
      var query := Extract(source, tagName, tagStart, |before|, placeholder, offset);
      && query.Some?
      && query.value.sql == Normalized(text)
      && query.value.parameterCount == 0 && query.value.interpolations == []
      && query.value.end == |before| + |TemplateLiteralText(text)| + 2
  {
    ThreePassesAreOne(text);
    var source := before + [BACKTICK] + TemplateLiteralText(text) + [BACKTICK] + after;
    assert source[|before| + 1..] == Escaped(text) + ([BACKTICK] + after);
    EscapedReadsBack(source, |before| + 1, text, [BACKTICK] + after, |before| + |Escaped(text)| + 2);
  }

  // ---------------------------------------------------------------------------
  // Ranges of the extracted SQL, mapped back to the source
  // ---------------------------------------------------------------------------

  /** Where a range of the SQL starts and ends in the source. */
  function MapSqlRange(query: ExtractedQuery, start: nat, end: nat): (nat, nat) {
    var from := if start < |query.sqlOffsetMap| then query.sqlOffsetMap[start] else query.start;
    (from, (if start < end <= |query.sqlOffsetMap| then query.sqlOffsetMap[end - 1] else from) + 1)
  }

  /**
   * A range within the SQL maps to a nonempty range within the literal, a range inside it to one inside that, and a
   * placeholder to the first unit of its interpolation.
   */
  lemma SqlRangesMapIntoTheLiteral(source: Text, tagName: Text, tagStart: nat, backtick: nat, placeholder: Placeholder,
                                   offset: nat, query: ExtractedQuery, start: nat, end: nat)
    requires Extract(source, tagName, tagStart, backtick, placeholder, offset) == Some(query)
    requires start < end <= |query.sql|
    ensures var (from, to) := MapSqlRange(query, start, end); backtick + 1 <= from < to <= query.end
    ensures forall inner, innerEnd :: start <= inner < innerEnd <= end ==>
      var (from, to) := MapSqlRange(query, inner, innerEnd);
      MapSqlRange(query, start, end).0 <= from < to <= MapSqlRange(query, start, end).1
    ensures forall k | 0 <= k < |query.interpolations|
                       && query.interpolations[k].sqlStart < query.interpolations[k].sqlEnd ::
      var hole := query.interpolations[k];
      MapSqlRange(query, hole.sqlStart, hole.sqlEnd) == (hole.sourceStart, hole.sourceStart + 1)
  {
    ExtractionIsMapped(source, tagName, tagStart, backtick, placeholder, offset, query);
    forall k | 0 <= k < |query.interpolations| && query.interpolations[k].sqlStart < query.interpolations[k].sqlEnd
      ensures var hole := query.interpolations[k];
        MapSqlRange(query, hole.sqlStart, hole.sqlEnd) == (hole.sourceStart, hole.sourceStart + 1)
    {
      assert HoleIsMapped(query, placeholder, offset, k);
    }
  }
}
