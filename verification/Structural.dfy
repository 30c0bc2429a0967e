/** Expansion of conditional SQL structure into numbered variants (packages/compiler/src/structural.ts). */
module Structural {
  import opened Text
  import opened Scanner
  import opened TemplateLaws
  import opened Operands

  /** What parsing an interpolation yields: one operand, or a condition with an operand on each side. */
  datatype Structure = Plain(truthy: Operand) | Conditional(condition: Text, truthy: Operand, falsy: Operand)

  // ---------------------------------------------------------------------------
  // How many variants
  // ---------------------------------------------------------------------------

  function Power2(n: nat): nat {
    if n == 0 then 1 else 2 * Power2(n - 1)
  }

  /** Counts up to the limit without overflowing past it: exact within the limit, one more beyond. */
  method VariantCount(conditionCount: nat, maximum: int) returns (count: int)
    ensures Power2(conditionCount) <= maximum ==> count == Power2(conditionCount)
    ensures Power2(conditionCount) > maximum ==> count > maximum
  {
    count := 1;
    for index := 0 to conditionCount
      invariant count == Power2(index)
    {
      if count as real > maximum as real / 2.0 {
        Power2Grows(index + 1, conditionCount);
        return maximum + 1;
      }
      count := count * 2;
    }
  }

  lemma {:induction false} Power2Grows(m: nat, n: nat)
    requires m <= n
    ensures Power2(m) <= Power2(n)
  {
    if m < n {
      Power2Grows(m, n - 1);
    }
  }

  // ---------------------------------------------------------------------------
  // Renumbering a fragment
  // ---------------------------------------------------------------------------

  lemma FlattenAppendTwo<T>(chunks: seq<seq<T>>, first: seq<T>, second: seq<T>)
    ensures Flatten(chunks + [first, second]) == Flatten(chunks) + first + second
  {
    assert chunks + [first, second] == chunks + [first] + [second];
    FlattenAppend(chunks + [first], second);
    FlattenAppend(chunks, first);
  }

  /** The literal text in front of interpolation k, or after the last one. */
  function Literal(t: Template, k: nat): Mapped
    requires k <= |t.segments|
  {
    if k == 0 then t.head else t.segments[k - 1].after
  }

  /** The rendering through placeholder k, without the literal text that follows it. */
  function Through(t: Template, placeholder: Placeholder, offset: nat, k: nat): Mapped
    requires k <= |t.segments|
  {
    if k == 0 then []
    else RenderFirst(t, placeholder, offset, k - 1) + Mark(placeholder(offset + k), t.segments[k - 1].hole.start)
  }

  lemma ThroughThenLiteral(t: Template, placeholder: Placeholder, offset: nat, k: nat)
    requires k <= |t.segments|
    ensures RenderFirst(t, placeholder, offset, k) == Through(t, placeholder, offset, k) + Literal(t, k)
  {
    if k > 0 {
      var before := RenderFirst(t, placeholder, offset, k - 1);
      var marker := Mark(placeholder(offset + k), t.segments[k - 1].hole.start);
      assert before + (marker + Literal(t, k)) == before + marker + Literal(t, k);
    }
  }

  /** Slicing an extracted query between two placeholders gives the literal text between them. */
  lemma SliceBetweenHoles(t: Template, placeholder: Placeholder, offset: nat, k: nat)
    requires k <= |t.segments|
    ensures var rendered := Render(t, placeholder, offset);
      var from, to := |Through(t, placeholder, offset, k)|, |RenderFirst(t, placeholder, offset, k)|;
      && from <= to <= |rendered|
      && Units(rendered)[from..to] == Units(Literal(t, k))
      && Origins(rendered)[from..to] == Origins(Literal(t, k))
      && (k == |t.segments| ==> to == |rendered|)
  {
    var through, literal := Through(t, placeholder, offset, k), Literal(t, k);
    var upTo, rendered := RenderFirst(t, placeholder, offset, k), Render(t, placeholder, offset);
    RenderFirstIsPrefix(t, placeholder, offset, k, |t.segments|);
    ThroughThenLiteral(t, placeholder, offset, k);
    SliceOfMiddle(through, literal, rendered[|upTo|..]);
    assert rendered == upTo + rendered[|upTo|..];
    UnitsAndOriginsSlice(rendered, |through|, |upTo|);
  }

  lemma UnitsAndOriginsSlice(m: Mapped, from: nat, to: nat)
    requires from <= to <= |m|
    ensures Units(m)[from..to] == Units(m[from..to])
    ensures Origins(m)[from..to] == Origins(m[from..to])
  {
  }

  /** A fragment extracted at offset 0 and then renumbered: everything moves but the interpolation records. */
  function Renumbered(tagName: Text, tagStart: nat, lexed: Lexed, placeholder: Placeholder,
                      offset: nat): ExtractedQuery {
    QueryOf(tagName, tagStart, lexed, placeholder, offset).(
      interpolations := Interpolations(lexed.template, placeholder, 0))
  }

  ghost predicate ExtractedFrom(query: ExtractedQuery, lexed: Lexed, placeholder: Placeholder) {
    query == QueryOf(query.tagName, query.start, lexed, placeholder, 0)
  }

  /** Moves an extracted query to another offset: all but its interpolation records is as if extracted there. */
  method WithParameterOffset(query: ExtractedQuery, offset: nat, placeholder: Placeholder, ghost source: Text,
                             ghost backtick: nat)
    returns (adjusted: ExtractedQuery)
    requires Extract(source, query.tagName, query.start, backtick, placeholder, 0) == Some(query)
    ensures Extract(source, query.tagName, query.start, backtick, placeholder, offset).Some?
    ensures adjusted == Extract(source, query.tagName, query.start, backtick, placeholder, offset).value.(
      interpolations := query.interpolations)
  {
    ghost var lexed := Lex(source, backtick + 1).value;
    adjusted := Renumber(query, offset, placeholder, lexed);
  }

  lemma ExtendThrough(t: Template, placeholder: Placeholder, offset: nat, k: nat, sqlChunks: seq<Text>,
                      offsetChunks: seq<seq<nat>>, marker: Text)
    requires k < |t.segments| && marker == placeholder(offset + (k + 1))
    requires Flatten(sqlChunks) == Units(Through(t, placeholder, offset, k))
    requires Flatten(offsetChunks) == Origins(Through(t, placeholder, offset, k))
    ensures Flatten(sqlChunks + [Units(Literal(t, k)), marker]) == Units(Through(t, placeholder, offset, k + 1))
    ensures Flatten(offsetChunks + [Origins(Literal(t, k)), Repeat(t.segments[k].hole.start, |marker|)])
            == Origins(Through(t, placeholder, offset, k + 1))
  {
    var mark := Mark(marker, t.segments[k].hole.start);
    var through, literal := Through(t, placeholder, offset, k), Literal(t, k);
    ThroughThenLiteral(t, placeholder, offset, k);
    MarkParts(marker, t.segments[k].hole.start);
    UnitsAndOriginsAdd(through, literal);
    UnitsAndOriginsAdd(through + literal, mark);
    FlattenAppendTwo(sqlChunks, Units(literal), marker);
    FlattenAppendTwo(offsetChunks, Origins(literal), Repeat(t.segments[k].hole.start, |marker|));
  }

  /** What the slices of an extracted query are. */
  lemma SliceOfQuery(query: ExtractedQuery, lexed: Lexed, placeholder: Placeholder, k: nat, cursor: nat)
    requires ExtractedFrom(query, lexed, placeholder) && k < |query.interpolations|
    requires cursor == |Through(lexed.template, placeholder, 0, k)|
    ensures var t, interpolation := lexed.template, query.interpolations[k];
      && |t.segments| == |query.interpolations| && |query.sql| == |query.sqlOffsetMap|
      && interpolation.index == k + 1 && interpolation.sourceStart == t.segments[k].hole.start
      && cursor <= interpolation.sqlStart <= interpolation.sqlEnd <= |query.sql|
      && interpolation.sqlEnd == |Through(t, placeholder, 0, k + 1)|
      && query.sql[cursor..interpolation.sqlStart] == Units(Literal(t, k))
      && query.sqlOffsetMap[cursor..interpolation.sqlStart] == Origins(Literal(t, k))
  {
    var t := lexed.template;
    assert query.interpolations[k] == InterpolationAt(t, placeholder, 0, k);
    SliceBetweenHoles(t, placeholder, 0, k);
    RenderAroundHole(t, placeholder, 0, k);
  }

  lemma LastSliceOfQuery(query: ExtractedQuery, lexed: Lexed, placeholder: Placeholder, cursor: nat)
    requires ExtractedFrom(query, lexed, placeholder)
    requires cursor == |Through(lexed.template, placeholder, 0, |lexed.template.segments|)|
    ensures var t := lexed.template;
      && |t.segments| == |query.interpolations| && cursor <= |query.sql| == |query.sqlOffsetMap|
      && query.sql[cursor..] == Units(Literal(t, |t.segments|))
      && query.sqlOffsetMap[cursor..] == Origins(Literal(t, |t.segments|))
  {
    SliceBetweenHoles(lexed.template, placeholder, 0, |lexed.template.segments|);
  }

  lemma FinishThrough(t: Template, placeholder: Placeholder, offset: nat, sqlChunks: seq<Text>,
                      offsetChunks: seq<seq<nat>>)
    requires Flatten(sqlChunks) == Units(Through(t, placeholder, offset, |t.segments|))
    requires Flatten(offsetChunks) == Origins(Through(t, placeholder, offset, |t.segments|))
    ensures Flatten(sqlChunks + [Units(Literal(t, |t.segments|))]) == Units(Render(t, placeholder, offset))
    ensures Flatten(offsetChunks + [Origins(Literal(t, |t.segments|))]) == Origins(Render(t, placeholder, offset))
  {
    var literal := Literal(t, |t.segments|);
    FlattenAppend(sqlChunks, Units(literal));
    FlattenAppend(offsetChunks, Origins(literal));
    ThroughThenLiteral(t, placeholder, offset, |t.segments|);
    UnitsAndOriginsAdd(Through(t, placeholder, offset, |t.segments|), literal);
  }

  lemma NothingToRenumber(query: ExtractedQuery, lexed: Lexed, placeholder: Placeholder, offset: nat)
    requires ExtractedFrom(query, lexed, placeholder) && (offset == 0 || query.parameterCount == 0)
    ensures query == Renumbered(query.tagName, query.start, lexed, placeholder, offset)
  {
    var t := lexed.template;
    if |t.segments| == 0 {
      assert Render(t, placeholder, offset) == Render(t, placeholder, 0);
    }
  }

  /** The chunks of the renumbered query up to its last placeholder, and where that ends. */
  method RenumberedChunks(query: ExtractedQuery, offset: nat, placeholder: Placeholder, ghost lexed: Lexed)
    returns (sqlChunks: seq<Text>, offsetChunks: seq<seq<nat>>, cursor: nat)
    requires ExtractedFrom(query, lexed, placeholder)
    ensures var t := lexed.template; var n := |t.segments|;
      && cursor == |Through(t, placeholder, 0, n)|
      && Flatten(sqlChunks) == Units(Through(t, placeholder, offset, n))
      && Flatten(offsetChunks) == Origins(Through(t, placeholder, offset, n))
  {
    ghost var t := lexed.template;
    sqlChunks, offsetChunks, cursor := [], [], 0;
    for k := 0 to |query.interpolations|
      invariant |t.segments| == |query.interpolations| && cursor == |Through(t, placeholder, 0, k)|
      invariant Flatten(sqlChunks) == Units(Through(t, placeholder, offset, k))
      invariant Flatten(offsetChunks) == Origins(Through(t, placeholder, offset, k))
    {
      var interpolation := query.interpolations[k];
      SliceOfQuery(query, lexed, placeholder, k, cursor);
      var marker := placeholder(offset + interpolation.index);
      ExtendThrough(t, placeholder, offset, k, sqlChunks, offsetChunks, marker);
      sqlChunks := sqlChunks + [query.sql[cursor..interpolation.sqlStart], marker];
      offsetChunks :=
        offsetChunks
          + [query.sqlOffsetMap[cursor..interpolation.sqlStart], Repeat(interpolation.sourceStart, |marker|)];
      cursor := interpolation.sqlEnd;
    }
  }

  method Renumber(query: ExtractedQuery, offset: nat, placeholder: Placeholder, ghost lexed: Lexed)
    returns (adjusted: ExtractedQuery)
    requires ExtractedFrom(query, lexed, placeholder)
    ensures adjusted == Renumbered(query.tagName, query.start, lexed, placeholder, offset)
  {
    if offset == 0 || query.parameterCount == 0 {
      NothingToRenumber(query, lexed, placeholder, offset);
      return query;
    }
    var sqlChunks, offsetChunks, cursor := RenumberedChunks(query, offset, placeholder, lexed);
    LastSliceOfQuery(query, lexed, placeholder, cursor);
    FinishThrough(lexed.template, placeholder, offset, sqlChunks, offsetChunks);
    return query.(sql := Flatten(sqlChunks + [query.sql[cursor..]]),
                  sqlOffsetMap := Flatten(offsetChunks + [query.sqlOffsetMap[cursor..]]));
  }

  /** The interpolation records agree with re-extraction exactly when every placeholder keeps its length. */
  lemma RecordsAgreeIffLengthsDo(t: Template, placeholder: Placeholder, offset: nat)
    ensures Interpolations(t, placeholder, offset) == Interpolations(t, placeholder, 0)
       <==> forall k :: 1 <= k <= |t.segments| ==> |placeholder(offset + k)| == |placeholder(k)|
  {
    var there, here := Interpolations(t, placeholder, offset), Interpolations(t, placeholder, 0);
    if there == here {
      forall k | 1 <= k <= |t.segments| ensures |placeholder(offset + k)| == |placeholder(k)| {
        assert there[k - 1] == InterpolationAt(t, placeholder, offset, k - 1);
        assert here[k - 1] == InterpolationAt(t, placeholder, 0, k - 1);
      }
    }
    if forall k :: 1 <= k <= |t.segments| ==> |placeholder(offset + k)| == |placeholder(k)| {
      forall k | 0 <= k < |t.segments| ensures there[k] == here[k] {
        SameLengths(t, placeholder, offset, k);
        assert |placeholder(offset + (k + 1))| == |placeholder(k + 1)|;
      }
    }
  }

  lemma {:induction false} SameLengths(t: Template, placeholder: Placeholder, offset: nat, k: nat)
    requires k <= |t.segments|
    requires forall j :: 1 <= j <= |t.segments| ==> |placeholder(offset + j)| == |placeholder(j)|
    ensures |RenderFirst(t, placeholder, offset, k)| == |RenderFirst(t, placeholder, 0, k)|
  {
    if k > 0 {
      SameLengths(t, placeholder, offset, k - 1);
      assert |placeholder(offset + k)| == |placeholder(k)|;
    }
  }

  /** They do not always agree: moving the first parameter of a fragment to position 10 makes its marker longer. */
  lemma RecordsCanGoStale()
    ensures var placeholder: Placeholder := (n: nat) => if n < 10 then [36, 48 + n] else [36, 49, 48];
      var t := Template([], [Segment(Hole(0, 3), [])]);
      Interpolations(t, placeholder, 9) != Interpolations(t, placeholder, 0)
  {
    var placeholder: Placeholder := (n: nat) => if n < 10 then [36, 48 + n] else [36, 49, 48];
    var t := Template([], [Segment(Hole(0, 3), [])]);
    assert |placeholder(9 + 1)| != |placeholder(1)|;
    RecordsAgreeIffLengthsDo(t, placeholder, 9);
  }

  // ---------------------------------------------------------------------------
  // The specification: rendering a template directly under a truth assignment
  // ---------------------------------------------------------------------------

  type Choices = map<Text, bool>

  /** Everything the expansion reads. */
  datatype Scene = Scene(source: Text, tagName: Text, template: Template, parsed: seq<Option<Structure>>,
                         placeholder: Placeholder)
  {
    predicate Valid() {
      && |parsed| == |template.segments|
      && forall k :: 0 <= k < |parsed| && parsed[k].Some? ==> Parsed(parsed[k].value)
    }

    /** Both operands are as the operand parser returns them. */
    predicate Parsed(structure: Structure) {
      && IsOperand(structure.truthy)
      && (structure.Conditional? ==> IsOperand(structure.falsy))
    }

    predicate IsOperand(operand: Operand) {
      operand.Fragment? ==> operand.backtick == BacktickAfter(source, tagName, operand.start)
    }

    function FragmentTag(): Text {
      tagName + DOT_FRAGMENT
    }

    /** The fragment starting at `start`, read once, or nothing when its template is malformed. */
    function FragmentAt(start: nat): Option<Lexed> {
      Lex(source, BacktickAfter(source, tagName, start) + 1)
    }
  }

  datatype Placed = Placed(query: ExtractedQuery, parameterOffset: nat)

  /** SQL so far, the source offset of each of its units, how many parameters it has, and the fragments used. */
  datatype Partial = Partial(sql: Text, origins: seq<nat>, count: nat, fragments: seq<Placed>)

  /** Appends a fragment by extracting it afresh, numbering from the parameters already present. */
  function WithOperand(scene: Scene, partial: Partial, operand: Operand): Partial {
    if operand.Empty? then partial
    else
      match Extract(scene.source, scene.FragmentTag(), operand.start, operand.backtick, scene.placeholder,
                    partial.count)
      case None => partial
      case Some(query) =>
        var lexed := Lex(scene.source, operand.backtick + 1).value;
        Partial(partial.sql + query.sql, partial.origins + query.sqlOffsetMap, partial.count + query.parameterCount,
                partial.fragments
                  + [Placed(query.(interpolations := Interpolations(lexed.template, scene.placeholder, 0)),
                            partial.count)])
  }

  function WithLiteral(partial: Partial, literal: Mapped): Partial {
    partial.(sql := partial.sql + Units(literal), origins := partial.origins + Origins(literal))
  }

  function WithMarker(scene: Scene, partial: Partial, origin: nat): Partial {
    var marker := scene.placeholder(partial.count + 1);
    partial.(sql := partial.sql + marker, origins := partial.origins + Repeat(origin, |marker|),
             count := partial.count + 1)
  }

  function ConditionsFirst(parsed: seq<Option<Structure>>, k: nat): set<Text>
    requires k <= |parsed|
  {
    if k == 0 then {} else ConditionsFirst(parsed, k - 1) + ConditionOf(parsed[k - 1])
  }

  function ConditionOf(structure: Option<Structure>): set<Text> {
    if structure.Some? && structure.value.Conditional? then {structure.value.condition} else {}
  }

  function ConditionsOf(parsed: seq<Option<Structure>>): set<Text> {
    ConditionsFirst(parsed, |parsed|)
  }

  /** What the assignment makes of interpolation k. */
  function WithInterpolation(scene: Scene, partial: Partial, k: nat, choices: Choices): Partial
    requires scene.Valid() && k < |scene.parsed| && ConditionOf(scene.parsed[k]) <= choices.Keys
  {
    match scene.parsed[k]
    case None => WithMarker(scene, partial, scene.template.segments[k].hole.start)
    case Some(Plain(operand)) => WithOperand(scene, partial, operand)
    case Some(Conditional(condition, truthy, falsy)) =>
      WithOperand(scene, partial, if choices[condition] then truthy else falsy)
  }

  function RenderedFirst(scene: Scene, choices: Choices, k: nat): Partial
    requires scene.Valid() && k <= |scene.parsed| && ConditionsFirst(scene.parsed, k) <= choices.Keys
  {
    if k == 0 then Partial([], [], 0, [])
    else WithInterpolation(scene, WithLiteral(RenderedFirst(scene, choices, k - 1), Literal(scene.template, k - 1)),
                           k - 1, choices)
  }

  /** The whole template under the assignment. */
  function Rendered(scene: Scene, choices: Choices): Partial
    requires scene.Valid() && ConditionsOf(scene.parsed) <= choices.Keys
  {
    WithLiteral(RenderedFirst(scene, choices, |scene.parsed|), Literal(scene.template, |scene.parsed|))
  }

  lemma {:induction false} ConditionsGrow(parsed: seq<Option<Structure>>, k: nat, n: nat)
    requires k <= n <= |parsed|
    ensures ConditionsFirst(parsed, k) <= ConditionsFirst(parsed, n)
  {
    if k < n {
      ConditionsGrow(parsed, k, n - 1);
    }
  }

  /** Only the conditions met so far matter. */
  lemma {:induction false} LaterChoicesDoNotMatter(scene: Scene, a: Choices, b: Choices, k: nat)
    requires scene.Valid() && k <= |scene.parsed|
    requires ConditionsFirst(scene.parsed, k) <= a.Keys && ConditionsFirst(scene.parsed, k) <= b.Keys
    requires forall c :: c in ConditionsFirst(scene.parsed, k) ==> a[c] == b[c]
    ensures RenderedFirst(scene, a, k) == RenderedFirst(scene, b, k)
  {
    if k > 0 {
      LaterChoicesDoNotMatter(scene, a, b, k - 1);
    }
  }

  // ---------------------------------------------------------------------------
  // The assignments the expansion runs through
  // ---------------------------------------------------------------------------

  /** Each assignment taken both ways at a new condition. */
  function Split(assignments: seq<Choices>, condition: Text): seq<Choices> {
    if assignments == [] then []
    else
      var last := assignments[|assignments| - 1];
      Split(assignments[..|assignments| - 1], condition) + [last[condition := true], last[condition := false]]
  }

  function Assignments(parsed: seq<Option<Structure>>, k: nat): seq<Choices>
    requires k <= |parsed|
  {
    if k == 0 then [map[]]
    else
      var before := Assignments(parsed, k - 1);
      if ConditionOf(parsed[k - 1]) <= ConditionsFirst(parsed, k - 1) then before
      else Split(before, parsed[k - 1].value.condition)
  }

  lemma {:induction false} SplitAt(assignments: seq<Choices>, condition: Text)
    ensures |Split(assignments, condition)| == 2 * |assignments|
    ensures forall i :: 0 <= i < |assignments| ==>
      && Split(assignments, condition)[2 * i] == assignments[i][condition := true]
      && Split(assignments, condition)[2 * i + 1] == assignments[i][condition := false]
  {
    if assignments != [] {
      SplitAt(assignments[..|assignments| - 1], condition);
    }
  }

  lemma SplitEntry(assignments: seq<Choices>, condition: Text, i: nat)
    requires i < |Split(assignments, condition)|
    ensures i / 2 < |assignments|
    ensures Split(assignments, condition)[i] == assignments[i / 2][condition := i % 2 == 0]
  {
    SplitAt(assignments, condition);
    assert i == 2 * (i / 2) + i % 2;
  }

  ghost predicate AllOver(assignments: seq<Choices>, conditions: set<Text>) {
    forall i :: 0 <= i < |assignments| ==> assignments[i].Keys == conditions
  }

  ghost predicate Distinct(assignments: seq<Choices>) {
    forall i, j :: 0 <= i < j < |assignments| ==> assignments[i] != assignments[j]
  }

  ghost predicate Complete(assignments: seq<Choices>, conditions: set<Text>) {
    forall choices: Choices :: choices.Keys == conditions ==> choices in assignments
  }

  /** Every assignment of the conditions, once each. */
  ghost predicate ExactlyOnce(assignments: seq<Choices>, conditions: set<Text>) {
    AllOver(assignments, conditions) && Distinct(assignments) && Complete(assignments, conditions)
  }

  lemma SplitIsAllOver(assignments: seq<Choices>, conditions: set<Text>, condition: Text)
    requires AllOver(assignments, conditions)
    ensures AllOver(Split(assignments, condition), conditions + {condition})
  {
    var split := Split(assignments, condition);
    forall i | 0 <= i < |split| ensures split[i].Keys == conditions + {condition} {
      SplitEntry(assignments, condition, i);
      assert assignments[i / 2].Keys == conditions;
    }
  }

  lemma UpdatesDiffer(a: Choices, b: Choices, condition: Text, left: bool, right: bool)
    requires a != b && a.Keys == b.Keys && condition !in a
    ensures a[condition := left] != b[condition := right]
  {
    var c :| c in a.Keys && a[c] != b[c];
    assert a[condition := left][c] == a[c] && b[condition := right][c] == b[c];
  }

  lemma SplitIsDistinct(assignments: seq<Choices>, conditions: set<Text>, condition: Text)
    requires condition !in conditions && AllOver(assignments, conditions) && Distinct(assignments)
    ensures Distinct(Split(assignments, condition))
  {
    var split := Split(assignments, condition);
    forall i, j | 0 <= i < j < |split| ensures split[i] != split[j] {
      SplitEntry(assignments, condition, i);
      SplitEntry(assignments, condition, j);
      if i / 2 == j / 2 {
        assert split[i][condition] != split[j][condition];
      } else {
        assert assignments[i / 2].Keys == conditions == assignments[j / 2].Keys;
        UpdatesDiffer(assignments[i / 2], assignments[j / 2], condition, i % 2 == 0, j % 2 == 0);
      }
    }
  }

  lemma SplitIsComplete(assignments: seq<Choices>, conditions: set<Text>, condition: Text)
    requires condition !in conditions && Complete(assignments, conditions)
    ensures Complete(Split(assignments, condition), conditions + {condition})
  {
    var split := Split(assignments, condition);
    SplitAt(assignments, condition);
    forall choices: Choices | choices.Keys == conditions + {condition} ensures choices in split {
      var shorter := choices - {condition};
      assert shorter.Keys == conditions;
      var i :| 0 <= i < |assignments| && assignments[i] == shorter;
      assert choices == shorter[condition := choices[condition]];
      assert split[if choices[condition] then 2 * i else 2 * i + 1] == choices;
    }
  }

  lemma {:induction false} AssignmentsAreExactlyOnce(parsed: seq<Option<Structure>>, k: nat)
    requires k <= |parsed|
    ensures ExactlyOnce(Assignments(parsed, k), ConditionsFirst(parsed, k))
    ensures |Assignments(parsed, k)| == Power2(|ConditionsFirst(parsed, k)|)
  {
    if k == 0 {
      forall choices: Choices | choices.Keys == {} ensures choices in [map[]] {
        assert choices == map[];
      }
    } else {
      AssignmentsAreExactlyOnce(parsed, k - 1);
      AssignmentsStep(parsed, k);
    }
  }

  lemma ConditionsStep(parsed: seq<Option<Structure>>, k: nat)
    requires 0 < k <= |parsed|
    ensures var met := ConditionsFirst(parsed, k - 1);
      if ConditionOf(parsed[k - 1]) <= met then ConditionsFirst(parsed, k) == met
      else var condition := parsed[k - 1].value.condition;
        condition !in met && ConditionsFirst(parsed, k) == met + {condition}
        && |ConditionsFirst(parsed, k)| == |met| + 1
  {
  }

  lemma AssignmentsStep(parsed: seq<Option<Structure>>, k: nat)
    requires 0 < k <= |parsed|
    requires ExactlyOnce(Assignments(parsed, k - 1), ConditionsFirst(parsed, k - 1))
    requires |Assignments(parsed, k - 1)| == Power2(|ConditionsFirst(parsed, k - 1)|)
    ensures ExactlyOnce(Assignments(parsed, k), ConditionsFirst(parsed, k))
    ensures |Assignments(parsed, k)| == Power2(|ConditionsFirst(parsed, k)|)
  {
    var before, met := Assignments(parsed, k - 1), ConditionsFirst(parsed, k - 1);
    ConditionsStep(parsed, k);
    if !(ConditionOf(parsed[k - 1]) <= met) {
      var condition := parsed[k - 1].value.condition;
      SplitIsExactlyOnce(before, met, condition);
      SplitAt(before, condition);
    }
  }

  lemma SplitIsExactlyOnce(assignments: seq<Choices>, conditions: set<Text>, condition: Text)
    requires condition !in conditions && ExactlyOnce(assignments, conditions)
    ensures ExactlyOnce(Split(assignments, condition), conditions + {condition})
  {
    SplitIsAllOver(assignments, conditions, condition);
    SplitIsDistinct(assignments, conditions, condition);
    SplitIsComplete(assignments, conditions, condition);
  }
}
