/** The loop that expands fragment lists (packages/compiler/src/repeated-fragments.ts). */
module RepeatedExpansion {
  import opened Text
  import opened Scanner
  import opened TemplateLaws
  import opened Operands
  import opened Structural
  import opened StructuralLaws
  import opened RepeatedFragments

  /** The accumulators of the loop. */
  datatype Walk = Walk(sql: seq<Text>, sqlOffsets: seq<seq<nat>>, parameterCount: nat,
                       interpolations: seq<Interpolation>, sites: seq<Site>, fragments: seq<Placed>, tooLong: nat)

  ghost predicate HasSql(w: Walk, t: Template, placeholder: Placeholder) {
    && Flatten(w.sql) == Units(Render(t, placeholder, 0))
    && Flatten(w.sqlOffsets) == Origins(Render(t, placeholder, 0))
    && w.parameterCount == |t.segments|
  }

  ghost predicate Tracks(w: Walk, p: Progress, placeholder: Placeholder) {
    && HasSql(w, p.template, placeholder)
    && w.interpolations == p.interpolations && w.sites == p.sites && w.fragments == p.fragments
      && w.tooLong == p.tooLong
  }

  method Push(w: Walk, text: Text, origins: seq<nat>, ghost t: Template, ghost more: Mapped, placeholder: Placeholder)
    returns (next: Walk)
    requires HasSql(w, t, placeholder) && Units(more) == text && Origins(more) == origins
    ensures HasSql(next, Join(t, LiteralTemplate(more)), placeholder)
    ensures next == w.(sql := next.sql, sqlOffsets := next.sqlOffsets)
  {
    FlattenAppend(w.sql, text);
    FlattenAppend(w.sqlOffsets, origins);
    RenderJoin(t, LiteralTemplate(more), placeholder, 0);
    UnitsAndOriginsAdd(Render(t, placeholder, 0), more);
    return w.(sql := w.sql + [text], sqlOffsets := w.sqlOffsets + [origins]);
  }

  method PushFragment(w: Walk, query: ExtractedQuery, ghost t: Template, ghost lexed: Lexed, placeholder: Placeholder)
    returns (next: Walk)
    requires HasSql(w, t, placeholder)
    requires query == QueryOf(query.tagName, query.start, lexed, placeholder, w.parameterCount)
    ensures HasSql(next, Join(t, lexed.template), placeholder)
    ensures next == w.(sql := next.sql, sqlOffsets := next.sqlOffsets, parameterCount := next.parameterCount,
                       fragments := w.fragments + [Placed(query, w.parameterCount)])
  {
    FlattenAppend(w.sql, query.sql);
    FlattenAppend(w.sqlOffsets, query.sqlOffsetMap);
    RenderJoin(t, lexed.template, placeholder, 0);
    UnitsAndOriginsAdd(Render(t, placeholder, 0), Render(lexed.template, placeholder, |t.segments|));
    return w.(sql := w.sql + [query.sql], sqlOffsets := w.sqlOffsets + [query.sqlOffsetMap],
              parameterCount := w.parameterCount + query.parameterCount,
              fragments := w.fragments + [Placed(query, w.parameterCount)]);
  }

  /** The items of one list. */
  method ExpandItems(lists: Lists, d: Discovery, itemCount: nat, before: Walk, ghost t: Template)
    returns (w: Walk, first: Option<ExtractedQuery>)
    requires d.Fragments? && d.elements != [] && (d.dynamic || itemCount <= |d.elements|)
    requires HasSql(before, t, lists.placeholder)
    ensures HasSql(w, WithItems(lists, d, t, itemCount), lists.placeholder)
    ensures w == before.(sql := w.sql, sqlOffsets := w.sqlOffsets, parameterCount := w.parameterCount,
                         fragments := before.fragments + ItemFragments(lists, d, t, itemCount))
    ensures var items := ItemFragments(lists, d, t, itemCount);
      first == if items == [] then None else Some(items[0].query)
  {
    w, first := before, None;
    assert before.fragments + [] == before.fragments;
    for itemIndex := 0 to itemCount
      invariant HasSql(w, WithItems(lists, d, t, itemIndex), lists.placeholder)
      invariant w == before.(sql := w.sql, sqlOffsets := w.sqlOffsets, parameterCount := w.parameterCount,
                             fragments := before.fragments + ItemFragments(lists, d, t, itemIndex))
      invariant first == if ItemFragments(lists, d, t, itemIndex) == [] then None
                         else Some(ItemFragments(lists, d, t, itemIndex)[0].query)
    {
      ghost var grown, items := WithItems(lists, d, t, itemIndex), ItemFragments(lists, d, t, itemIndex);
      var operand := ItemOperand(d, itemIndex);
      var fragment := None;
      if operand.Fragment? {
        fragment := ExtractTemplate(lists.source, lists.tagName + DOT_FRAGMENT, operand.start, operand.backtick,
                                    lists.placeholder, w.parameterCount);
      }
      if fragment.None? {
        continue;
      }
      ghost var lexed := lists.LexItem(operand).value;
      if itemIndex > 0 {
        MarkParts(SEPARATOR, d.start);
        w := Push(w, SEPARATOR, Repeat(d.start, 2), grown, Mark(SEPARATOR, d.start), lists.placeholder);
        grown := Join(grown, LiteralTemplate(Mark(SEPARATOR, d.start)));
      }
      w := PushFragment(w, fragment.value, grown, lexed, lists.placeholder);
      Associate(before.fragments, items, [Placed(fragment.value, |WithItems(lists, d, t, itemIndex).segments|)]);
      if first.None? {
        first := fragment;
      }
    }
  }

  method AddAlternatives(lists: Lists, d: Discovery, offset: nat) returns (others: seq<Placed>)
    requires d.Fragments? && d.elements != []
    ensures others == Alternatives(lists, d, offset, |d.elements|)
  {
    others := [];
    for n := 1 to |d.elements|
      invariant others == Alternatives(lists, d, offset, n)
    {
      var operand := d.elements[n];
      if operand.Fragment? {
        var fragment := ExtractTemplate(lists.source, lists.tagName + DOT_FRAGMENT, operand.start, operand.backtick,
                                        lists.placeholder, offset);
        if fragment.Some? {
          others := others + [Placed(fragment.value, offset)];
        }
      }
    }
  }

  method ExpandList(lists: Lists, d: Discovery, before: Walk, ghost p: Progress) returns (w: Walk)
    requires d.Fragments? && d.elements != [] && Tracks(before, p, lists.placeholder)
    ensures Tracks(w, WithList(lists, p, d), lists.placeholder)
  {
    var itemCount := lists.ItemCount(d);
    if itemCount > lists.maximumItems {
      return before.(tooLong := before.tooLong + 1);
    }
    var siteOffset, sqlStart := before.parameterCount, |Flatten(before.sql)|;
    var first;
    w, first := ExpandItems(lists, d, itemCount, before, p.template);
    if d.dynamic {
      var others := AddAlternatives(lists, d, siteOffset);
      w := w.(fragments := w.fragments + others);
    } else {
      assert w.fragments + [] == w.fragments;
    }
    if first.Some? {
      w := w.(sites := w.sites + [Site(d.start, d.end, sqlStart, |Flatten(w.sql)|, d.dynamic, lists.DynamicItems(d),
                                       first.value, siteOffset)]);
    }
  }

  method ExpandValue(lists: Lists, interpolation: Interpolation, before: Walk, ghost p: Progress, ghost hole: Hole)
    returns (w: Walk)
    requires Tracks(before, p, lists.placeholder)
    requires interpolation == Described(interpolation.index, hole, interpolation.sqlStart, interpolation.sqlEnd)
    ensures Tracks(w, WithValue(lists, p, hole), lists.placeholder)
  {
    var parameterCount := before.parameterCount + 1;
    var marker := lists.placeholder(parameterCount);
    var sqlStart := |Flatten(before.sql)|;
    ghost var one := Template([], [Segment(hole, [])]);
    RenderJoin(p.template, one, lists.placeholder, 0);
    assert RenderFirst(one, lists.placeholder, before.parameterCount, 1)
        == RenderFirst(one, lists.placeholder, before.parameterCount, 0) + RenderSegment(one.segments[0], marker);
    assert Render(one, lists.placeholder, before.parameterCount) == Mark(marker, hole.start);
    UnitsAndOriginsAdd(Render(p.template, lists.placeholder, 0), Mark(marker, hole.start));
    MarkParts(marker, hole.start);
    FlattenAppend(before.sql, marker);
    FlattenAppend(before.sqlOffsets, Repeat(interpolation.sourceStart, |marker|));
    return before.(sql := before.sql + [marker],
                   sqlOffsets := before.sqlOffsets + [Repeat(interpolation.sourceStart, |marker|)],
                   parameterCount := parameterCount,
                   interpolations := before.interpolations
                     + [interpolation.(index := parameterCount, sqlStart := sqlStart, sqlEnd := sqlStart + |marker|)]);
  }

  /** The literal text in front of interpolation k, or after the last one. */
  method PushLiteral(query: ExtractedQuery, before: Walk, cursor: nat, k: nat, ghost p: Progress, ghost lexed: Lexed,
                     placeholder: Placeholder)
    returns (w: Walk)
    requires ExtractedFrom(query, lexed, placeholder) && k <= |lexed.template.segments|
    requires cursor == |Through(lexed.template, placeholder, 0, k)| && Tracks(before, p, placeholder)
    ensures Tracks(w, p.(template := Join(p.template, LiteralTemplate(Literal(lexed.template, k)))), placeholder)
    ensures cursor <= |query.sql|
  {
    SliceBetweenHoles(lexed.template, placeholder, 0, k);
    var end := if k < |query.interpolations| then query.interpolations[k].sqlStart else |query.sql|;
    w := Push(before, query.sql[cursor..end], query.sqlOffsetMap[cursor..end], p.template, Literal(lexed.template, k),
              placeholder);
  }

  /** One turn of the loop, past the literal text. */
  method ExpandInterpolation(lists: Lists, index: nat, interpolation: Interpolation, before: Walk, ghost p: Progress)
    returns (w: Walk)
    requires lists.Valid() && index < |lists.discoveries| && p == BeforeList(lists, index)
    requires Tracks(before, p, lists.placeholder)
    requires interpolation == InterpolationAt(lists.template, lists.placeholder, 0, index)
    ensures Tracks(w, ExpandedFirst(lists, index + 1), lists.placeholder)
  {
    ExpandedStep(lists, index, index + 1);
    var d := lists.discoveries[index];
    if d.Value? {
      w := ExpandValue(lists, interpolation, before, p, lists.template.segments[index].hole);
    } else {
      w := ExpandList(lists, d, before, p);
    }
  }

  /** What the expansion returns, given what the walk amounts to. */
  ghost predicate IsExpansion(result: Expansion, query: ExtractedQuery, lists: Lists)
    requires lists.Valid()
  {
    var p := Expanded(lists);
    && result.query == query.(sql := Units(Render(p.template, lists.placeholder, 0)),
                              sqlOffsetMap := Origins(Render(p.template, lists.placeholder, 0)),
                              parameterCount := |p.template.segments|,
                              interpolations := p.interpolations)
    && result.sites == p.sites && result.fragments == p.fragments && result.tooLong == p.tooLong
  }

  lemma WalkIsExpansion(query: ExtractedQuery, lists: Lists, w: Walk, result: Expansion)
    requires lists.Valid() && Tracks(w, Expanded(lists), lists.placeholder)
    requires result == Expansion(
      query.(sql := Flatten(w.sql), sqlOffsetMap := Flatten(w.sqlOffsets), parameterCount := w.parameterCount,
             interpolations := w.interpolations), w.sites, w.fragments, w.tooLong)
    ensures IsExpansion(result, query, lists)
  {
  }

  method ExpandRepeatedFragments(query: ExtractedQuery, lists: Lists, ghost lexed: Lexed)
    returns (result: Option<Expansion>)
    requires ExtractedFrom(query, lexed, lists.placeholder) && lists.template == lexed.template && lists.Valid()
    ensures result.None? <==> forall k :: 0 <= k < |lists.discoveries| ==> lists.discoveries[k].Value?
    ensures result.Some? ==> IsExpansion(result.value, query, lists)
  {
    if forall k :: 0 <= k < |lists.discoveries| ==> lists.discoveries[k].Value? {
      return None;
    }
    ghost var t := lexed.template;
    var w := Walk([], [], 0, [], [], [], 0);
    var cursor := 0;
    for index := 0 to |query.interpolations|
      invariant cursor == |Through(t, lists.placeholder, 0, index)|
      invariant Tracks(w, ExpandedFirst(lists, index), lists.placeholder)
    {
      var interpolation := query.interpolations[index];
      w := PushLiteral(query, w, cursor, index, ExpandedFirst(lists, index), lexed, lists.placeholder);
      cursor := interpolation.sqlEnd;
      w := ExpandInterpolation(lists, index, interpolation, w, BeforeList(lists, index));
    }
    var last := |query.interpolations|;
    w := PushLiteral(query, w, cursor, last, ExpandedFirst(lists, last), lexed, lists.placeholder);
    result := Some(Expansion(
      query.(sql := Flatten(w.sql), sqlOffsetMap := Flatten(w.sqlOffsets), parameterCount := w.parameterCount,
             interpolations := w.interpolations), w.sites, w.fragments, w.tooLong));
    WalkIsExpansion(query, lists, w, result.value);
  }

  // ---------------------------------------------------------------------------
  // A list that expands with a stray separator
  // ---------------------------------------------------------------------------

  const SQL: Text := [0x73, 0x71, 0x6C]

  /** A query whose one interpolation is [sql.fragment`\1`, sql.fragment`b`]: the escape of the first is malformed. */
  const STRAY: Text :=
    SQL + [BACKTICK, DOLLAR, OPEN_BRACE, 0x5B]
    + (SQL + DOT_FRAGMENT) + [BACKTICK, BACKSLASH, 0x31, BACKTICK, 0x2C, 0x20]
    + (SQL + DOT_FRAGMENT) + [BACKTICK, 0x62, BACKTICK, 0x5D, CLOSE_BRACE, BACKTICK]

  /** Code in which nothing but its own units begins. */
  ghost predicate PlainCode(source: Text, from: nat, to: nat) {
    to <= |source|
    && forall i :: from <= i < to ==>
      source[i] !in {DOUBLE_QUOTE, SINGLE_QUOTE, BACKTICK, SLASH, OPEN_BRACE, CLOSE_BRACE}
  }

  lemma {:induction false} PlainCodeIsPassed(source: Text, from: nat, to: nat, depth: nat)
    requires from <= to && depth > 0 && PlainCode(source, from, to)
    ensures CodeEnd(source, from, depth) == CodeEnd(source, to, depth)
    decreases |source| - from
  {
    if from < to {
      assert TokenEnd(source, from) == from + 1;
      PlainCodeIsPassed(source, from + 1, to, depth);
    }
  }

  /** What matters of that query: where its parts stand. */
  ghost predicate IsStray(source: Text) {
    && |source| == 43 && source[3] == BACKTICK && source[4] == DOLLAR && source[5] == OPEN_BRACE
    && PlainCode(source, 6, 19) && source[7..19] == SQL + DOT_FRAGMENT
    && source[19] == BACKTICK && source[20] == BACKSLASH && source[21] == 0x31 && source[22] == BACKTICK
    && PlainCode(source, 23, 37) && source[25..37] == SQL + DOT_FRAGMENT
    && source[37] == BACKTICK && source[38] == 0x62 && source[39] == BACKTICK
    && PlainCode(source, 40, 41) && source[41] == CLOSE_BRACE && source[42] == BACKTICK
  }

  lemma TagIsPlain(tag: Text)
    requires tag == SQL + DOT_FRAGMENT
    ensures |tag| == 12 && PlainCode(tag, 0, 12)
  {
    assert tag == [0x73, 0x71, 0x6C, 0x2E, 0x66, 0x72, 0x61, 0x67, 0x6D, 0x65, 0x6E, 0x74];
  }

  lemma PlainCodeWithin(source: Text, at: nat, text: Text)
    requires at + |text| <= |source| && source[at..at + |text|] == text && PlainCode(text, 0, |text|)
    ensures PlainCode(source, at, at + |text|)
  {
    forall i | at <= i < at + |text|
      ensures source[i] !in {DOUBLE_QUOTE, SINGLE_QUOTE, BACKTICK, SLASH, OPEN_BRACE, CLOSE_BRACE}
    {
      assert source[i] == text[i - at];
    }
  }

  lemma StrayIsStray(source: Text, tag: Text)
    requires tag == SQL + DOT_FRAGMENT && source == STRAY
    ensures IsStray(source)
  {
    TagIsPlain(tag);
    var head, middle := SQL + [BACKTICK, DOLLAR, OPEN_BRACE, 0x5B], [BACKTICK, BACKSLASH, 0x31, BACKTICK, 0x2C, 0x20];
    var tail := [BACKTICK, 0x62, BACKTICK, 0x5D, CLOSE_BRACE, BACKTICK];
    assert source == head + tag + middle + tag + tail;
    assert source[..7] == head && source[7..19] == tag && source[19..25] == middle;
    assert source[25..37] == tag && source[37..43] == tail;
    PlainCodeWithin(source, 7, tag);
    PlainCodeWithin(source, 25, tag);
    assert forall i :: 19 <= i < 25 ==> source[i] == source[19..25][i - 19];
    assert forall i :: 37 <= i < 43 ==> source[i] == source[37..43][i - 37];
  }

  lemma StrayTemplates(source: Text)
    requires IsStray(source)
    ensures TemplateEnd(source, 20) == 23 && TemplateEnd(source, 38) == 40
    ensures Lex(source, 20).None?
    ensures Lex(source, 38) == Some(Lexed(Template(Mark([0x62], 38), []), 40))
  {
    assert TemplateEnd(source, 22) == 23 && TemplateEnd(source, 39) == 40;
    assert PieceAt(source, 20).None?;
    assert PieceAt(source, 38) == Some(Cooked(Mark([0x62], 38), 39));
    assert Lex(source, 39) == Some(Lexed(Template([], []), 40));
    assert Mark([0x62], 38) + [] == Mark([0x62], 38);
  }

  lemma StrayInterpolationEnds(source: Text)
    requires IsStray(source)
    ensures CodeEnd(source, 6, 1) == 42
  {
    StrayTemplates(source);
    PlainCodeIsPassed(source, 6, 19, 1);
    assert TokenEnd(source, 19) == 23;
    PlainCodeIsPassed(source, 23, 37, 1);
    assert TokenEnd(source, 37) == 40;
    PlainCodeIsPassed(source, 40, 41, 1);
  }

  /** A fragment operand stands where its tag and its template do. */
  lemma OperandStands(source: Text, start: nat, backtick: nat, end: nat)
    requires start + 12 == backtick < end <= |source| && source[start..backtick] == SQL + DOT_FRAGMENT
    requires source[backtick] == BACKTICK && source[end - 1] == BACKTICK && TemplateEnd(source, backtick + 1) == end
    ensures StructuralOperand(source, start, end, SQL, false) == Some(Fragment(start, end, backtick))
  {
    var tag := SQL + DOT_FRAGMENT;
    assert |tag| == 12 && tag[0] == 0x73;
    assert source[start] == source[start..backtick][0];
    assert TrimStart(source, start, end) == start && TrimEnd(source, start, end) == end;
    assert source[start..][..12] == source[start..backtick];
    assert BacktickAfter(source, SQL, start) == backtick;
    assert |source[start..end]| > |SQL + DOT_EMPTY|;
  }

  const STRAY_TEMPLATE := Template([], [Segment(Hole(4, 42), [])])

  lemma StrayExtracts(source: Text)
    requires IsStray(source)
    ensures Lex(source, 4) == Some(Lexed(STRAY_TEMPLATE, 43))
    ensures StructuralOperand(source, 7, 23, SQL, false) == Some(Fragment(7, 23, 19))
    ensures StructuralOperand(source, 25, 40, SQL, false) == Some(Fragment(25, 40, 37))
  {
    StrayTemplates(source);
    StrayInterpolationEnds(source);
    assert PieceAt(source, 4) == Some(Interpolated(Hole(4, 42)));
    assert Lex(source, 42) == Some(Lexed(Template([], []), 43));
    var rest: seq<Segment> := [];
    assert [Segment(Hole(4, 42), [])] + rest == [Segment(Hole(4, 42), [])];
    OperandStands(source, 7, 19, 23);
    OperandStands(source, 25, 37, 40);
  }

  /** The list of that query: its two operands as the parser reads them. */
  const STRAY_LIST := Discovery.Fragments(false, 1, [Fragment(7, 23, 19), Fragment(25, 40, 37)], 6, 41)

  lemma StrayItems(lists: Lists)
    requires IsStray(lists.source)
    ensures Units(Render(WithItems(lists, STRAY_LIST, Template([], []), 2), lists.placeholder, 0)) == SEPARATOR + [0x62]
  {
    var t := Template([], []);
    var item := Template(Mark([0x62], 38), []);
    StrayTemplates(lists.source);
    assert lists.LexItem(ItemOperand(STRAY_LIST, 0)).None?;
    assert WithItems(lists, STRAY_LIST, t, 1) == WithItems(lists, STRAY_LIST, t, 0) == t;
    assert lists.LexItem(ItemOperand(STRAY_LIST, 1)) == Some(Lexed(item, 40));
    AppendItemText(lists, STRAY_LIST, t, item, true);
    MarkParts([0x62], 38);
  }

  /** Joining no text changes nothing. */
  lemma JoinNoText(t: Template)
    ensures Join(t, LiteralTemplate([])) == t
  {
    if t.segments != [] {
      assert t.segments[|t.segments| - 1].after + [] == t.segments[|t.segments| - 1].after;
    }
  }

  /**
   * The query [sql.fragment`\1`, sql.fragment`b`] extracts, both elements are accepted as operands, and expanding it
   * gives ", b".
   */
  lemma StraySeparatorHappens(placeholder: Placeholder, maximumItems: nat)
    requires maximumItems >= 2
    ensures var lists := Lists(STRAY, SQL, STRAY_TEMPLATE, [STRAY_LIST], placeholder, maximumItems, None);
      && Extract(STRAY, SQL, 0, 3, placeholder, 0)
         == Some(QueryOf(SQL, 0, Lexed(STRAY_TEMPLATE, 43), placeholder, 0))
      && StructuralOperand(STRAY, 7, 23, SQL, false) == Some(STRAY_LIST.elements[0])
      && StructuralOperand(STRAY, 25, 40, SQL, false) == Some(STRAY_LIST.elements[1])
      && lists.Valid()
      && Units(Render(Expanded(lists).template, placeholder, 0)) == SEPARATOR + [0x62]
  {
    var source := STRAY;
    StrayIsStray(source, SQL + DOT_FRAGMENT);
    StrayExtracts(source);
    var lists := Lists(source, SQL, STRAY_TEMPLATE, [STRAY_LIST], placeholder, maximumItems, None);
    StrayItems(lists);
    StrayExpands(lists);
  }

  lemma StrayExpands(lists: Lists)
    requires lists.template == STRAY_TEMPLATE && lists.discoveries == [STRAY_LIST]
    requires lists.maximumItems >= 2 && lists.representative.None?
    ensures lists.Valid()
    ensures Expanded(lists).template == WithItems(lists, STRAY_LIST, Template([], []), 2)
  {
    assert Literal(STRAY_TEMPLATE, 0) == [] && Literal(STRAY_TEMPLATE, 1) == [];
    JoinNoText(Template([], []));
    JoinNoText(WithItems(lists, STRAY_LIST, Template([], []), 2));
    assert lists.ItemCount(STRAY_LIST) == 2;
    var start := ExpandedFirst(lists, 0);
    assert start.template == Template([], []);
    assert ExpandedFirst(lists, 1) == WithList(lists, start, STRAY_LIST);
  }
}
