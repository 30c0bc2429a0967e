/** The expansion itself: parallel states, memoised fragments (packages/compiler/src/structural.ts). */
module Expansion {
  import opened Text
  import opened Scanner
  import opened Operands
  import opened Structural

  datatype State = State(sqlChunks: seq<Text>, offsetChunks: seq<seq<nat>>, count: nat, cursor: nat, choices: Choices,
                         fragments: seq<Placed>)

  datatype Variant = Variant(query: ExtractedQuery, choices: Choices, fragments: seq<Placed>)

  datatype Result = Limit(conditionCount: nat, variantCount: int) | Variants(variants: seq<Variant>)

  ghost predicate Holds(state: State, partial: Partial) {
    && Flatten(state.sqlChunks) == partial.sql
    && Flatten(state.offsetChunks) == partial.origins
    && state.count == partial.count
    && state.fragments == partial.fragments
  }

  /** A state has rendered the first `k` interpolations under `choices`. */
  ghost predicate HasRendered(state: State, scene: Scene, choices: Choices, k: nat)
    requires scene.Valid() && k <= |scene.parsed| && ConditionsFirst(scene.parsed, k) <= choices.Keys
  {
    && Holds(state, RenderedFirst(scene, choices, k))
    && state.cursor == |Through(scene.template, scene.placeholder, 0, k)|
    && state.choices == choices
  }

  /** The fragment starting at `start`, renumbered for an offset. */
  ghost predicate IsFragment(scene: Scene, start: nat, offset: nat, query: ExtractedQuery) {
    && scene.FragmentAt(start).Some?
    && query == Renumbered(scene.FragmentTag(), start, scene.FragmentAt(start).value, scene.placeholder, offset)
  }

  /** The fragment table holds fragments extracted at offset 0, by where they start. */
  ghost predicate LocalsHold(scene: Scene, locals: map<nat, ExtractedQuery>) {
    forall start :: start in locals ==> IsFragment(scene, start, 0, locals[start])
  }

  ghost predicate IsRegistered(scene: Scene, locals: map<nat, ExtractedQuery>, operand: Operand) {
    operand.Fragment? && scene.FragmentAt(operand.start).Some? ==> operand.start in locals
  }

  ghost predicate AllRegistered(scene: Scene, locals: map<nat, ExtractedQuery>, k: nat)
    requires k <= |scene.parsed|
  {
    forall j :: 0 <= j < k ==> StructureRegistered(scene, locals, scene.parsed[j])
  }

  /** The fragment cache holds renumbered fragments, by where they start and the offset they were moved to. */
  ghost predicate CacheHolds(scene: Scene, cache: map<(nat, nat), ExtractedQuery>) {
    forall key :: key in cache ==> IsFragment(scene, key.0, key.1, cache[key])
  }

  method Register(source: Text, tagName: Text, placeholder: Placeholder, operand: Operand,
                  locals: map<nat, ExtractedQuery>, ghost scene: Scene)
    returns (extended: map<nat, ExtractedQuery>)
    requires scene.source == source && scene.tagName == tagName && scene.placeholder == placeholder
    requires scene.IsOperand(operand) && LocalsHold(scene, locals)
    ensures LocalsHold(scene, extended) && locals.Keys <= extended.Keys
    ensures IsRegistered(scene, extended, operand)
  {
    if !operand.Fragment? || operand.start in locals {
      return locals;
    }
    var fragment := ExtractTemplate(source, tagName + DOT_FRAGMENT, operand.start, operand.backtick, placeholder, 0);
    if fragment.None? {
      return locals;
    }
    return locals[operand.start := fragment.value];
  }

  /** The fragment as the operand that starts there extracts it. */
  lemma FragmentIsExtracted(scene: Scene, start: nat, backtick: nat, query: ExtractedQuery)
    requires IsFragment(scene, start, 0, query) && backtick == BacktickAfter(scene.source, scene.tagName, start)
    ensures query.start == start && query.tagName == scene.FragmentTag()
    ensures Extract(scene.source, query.tagName, start, backtick, scene.placeholder, 0) == Some(query)
  {
  }

  /** What renumbering gives is the fragment at its new offset. */
  lemma ReextractedIsFragment(scene: Scene, start: nat, backtick: nat, offset: nat, query: ExtractedQuery,
                              adjusted: ExtractedQuery)
    requires IsFragment(scene, start, 0, query) && backtick == BacktickAfter(scene.source, scene.tagName, start)
    requires Extract(scene.source, query.tagName, start, backtick, scene.placeholder, offset).Some?
    requires adjusted == Extract(scene.source, query.tagName, start, backtick, scene.placeholder, offset).value.(
      interpolations := query.interpolations)
    ensures IsFragment(scene, start, offset, adjusted)
  {
  }

  method FragmentAt(placeholder: Placeholder, operand: Operand, offset: nat, locals: map<nat, ExtractedQuery>,
                    cache: map<(nat, nat), ExtractedQuery>, ghost scene: Scene)
    returns (fragment: Option<ExtractedQuery>, extended: map<(nat, nat), ExtractedQuery>)
    requires scene.placeholder == placeholder && operand.Fragment?
    requires LocalsHold(scene, locals) && CacheHolds(scene, cache) && IsRegistered(scene, locals, operand)
    ensures CacheHolds(scene, extended)
    ensures fragment.None? ==> scene.FragmentAt(operand.start).None?
    ensures fragment.Some? ==> IsFragment(scene, operand.start, offset, fragment.value)
  {
    if operand.start !in locals {
      return None, cache;
    }
    var key := (operand.start, offset);
    if key in cache {
      return Some(cache[key]), cache;
    }
    var local := locals[operand.start];
    ghost var backtick := BacktickAfter(scene.source, scene.tagName, operand.start);
    FragmentIsExtracted(scene, operand.start, backtick, local);
    var adjusted := WithParameterOffset(local, offset, placeholder, scene.source, backtick);
    ReextractedIsFragment(scene, operand.start, backtick, offset, local, adjusted);
    return Some(adjusted), cache[key := adjusted];
  }

  /** Extracting an operand afresh at the count appends the same as the renumbered fragment. */
  lemma FragmentIsAppended(scene: Scene, partial: Partial, operand: Operand, query: ExtractedQuery)
    requires scene.IsOperand(operand) && operand.Fragment? && IsFragment(scene, operand.start, partial.count, query)
    ensures WithOperand(scene, partial, operand)
            == Partial(partial.sql + query.sql, partial.origins + query.sqlOffsetMap,
                       partial.count + query.parameterCount, partial.fragments + [Placed(query, partial.count)])
  {
  }

  lemma NoFragmentIsAppended(scene: Scene, partial: Partial, operand: Operand)
    requires scene.IsOperand(operand) && (operand.Fragment? ==> scene.FragmentAt(operand.start).None?)
    ensures WithOperand(scene, partial, operand) == partial
  {
  }

  method AppendQuery(state: State, query: ExtractedQuery, ghost partial: Partial) returns (next: State)
    requires Holds(state, partial)
    ensures Holds(next, Partial(partial.sql + query.sql, partial.origins + query.sqlOffsetMap,
                                partial.count + query.parameterCount,
                                partial.fragments + [Placed(query, partial.count)]))
    ensures next.cursor == state.cursor && next.choices == state.choices
  {
    FlattenAppend(state.sqlChunks, query.sql);
    FlattenAppend(state.offsetChunks, query.sqlOffsetMap);
    return state.(sqlChunks := state.sqlChunks + [query.sql],
                  offsetChunks := state.offsetChunks + [query.sqlOffsetMap],
                  count := state.count + query.parameterCount,
                  fragments := state.fragments + [Placed(query, state.count)]);
  }

  /** Appending a cached, renumbered fragment does what extracting it afresh would. */
  method AppendOperand(placeholder: Placeholder, state: State, operand: Operand, locals: map<nat, ExtractedQuery>,
                       cache: map<(nat, nat), ExtractedQuery>, ghost scene: Scene, ghost partial: Partial)
    returns (next: State, extended: map<(nat, nat), ExtractedQuery>)
    requires scene.placeholder == placeholder && scene.IsOperand(operand)
    requires LocalsHold(scene, locals) && CacheHolds(scene, cache) && IsRegistered(scene, locals, operand)
    requires Holds(state, partial)
    ensures CacheHolds(scene, extended)
    ensures Holds(next, WithOperand(scene, partial, operand))
    ensures next.cursor == state.cursor && next.choices == state.choices
  {
    if operand.Empty? {
      NoFragmentIsAppended(scene, partial, operand);
      return state, cache;
    }
    var fragment;
    fragment, extended := FragmentAt(placeholder, operand, state.count, locals, cache, scene);
    if fragment.None? {
      NoFragmentIsAppended(scene, partial, operand);
      return state, extended;
    }
    FragmentIsAppended(scene, partial, operand, fragment.value);
    next := AppendQuery(state, fragment.value, partial);
  }

  /** One state with the literal text in front of interpolation k appended. */
  method WithLiteralBefore(query: ExtractedQuery, state: State, k: nat, ghost lexed: Lexed, placeholder: Placeholder,
                           ghost partial: Partial)
    returns (base: State)
    requires ExtractedFrom(query, lexed, placeholder) && k < |lexed.template.segments|
    requires Holds(state, partial) && state.cursor == |Through(lexed.template, placeholder, 0, k)|
    ensures Holds(base, WithLiteral(partial, Literal(lexed.template, k)))
    ensures base.cursor == |Through(lexed.template, placeholder, 0, k + 1)| && base.choices == state.choices
  {
    ghost var t := lexed.template;
    var interpolation := query.interpolations[k];
    SliceBetweenHoles(t, placeholder, 0, k);
    var text := query.sql[state.cursor..interpolation.sqlStart];
    var origins := query.sqlOffsetMap[state.cursor..interpolation.sqlStart];
    FlattenAppend(state.sqlChunks, text);
    FlattenAppend(state.offsetChunks, origins);
    return state.(sqlChunks := state.sqlChunks + [text], offsetChunks := state.offsetChunks + [origins],
                  cursor := interpolation.sqlEnd);
  }

  /** A state extended over one interpolation under one choice has rendered one interpolation more. */
  lemma ExtendsRendering(scene: Scene, state: State, next: State, before: Choices, after: Choices, k: nat)
    requires scene.Valid() && k < |scene.parsed|
    requires ConditionsFirst(scene.parsed, k) <= before.Keys && ConditionsFirst(scene.parsed, k + 1) <= after.Keys
    requires forall c :: c in ConditionsFirst(scene.parsed, k) ==> c in after && after[c] == before[c]
    requires var literal := WithLiteral(RenderedFirst(scene, before, k), Literal(scene.template, k));
      ConditionOf(scene.parsed[k]) <= after.Keys && Holds(next, WithInterpolation(scene, literal, k, after))
    requires next.cursor == |Through(scene.template, scene.placeholder, 0, k + 1)| && next.choices == after
    ensures HasRendered(next, scene, after, k + 1)
  {
    LaterChoicesDoNotMatter(scene, before, after, k);
  }

  method AppendMarker(placeholder: Placeholder, state: State, origin: nat, ghost scene: Scene, ghost partial: Partial)
    returns (next: State)
    requires scene.placeholder == placeholder && Holds(state, partial)
    ensures Holds(next, WithMarker(scene, partial, origin))
    ensures next.cursor == state.cursor && next.choices == state.choices
  {
    var marker := placeholder(state.count + 1);
    FlattenAppend(state.sqlChunks, marker);
    FlattenAppend(state.offsetChunks, Repeat(origin, |marker|));
    return state.(sqlChunks := state.sqlChunks + [marker],
                  offsetChunks := state.offsetChunks + [Repeat(origin, |marker|)],
                  count := state.count + 1);
  }

  /** The values a condition is tried with: both, or only the one already chosen. */
  function Options(choices: Choices, condition: Text): seq<bool> {
    if condition in choices then [choices[condition]] else [true, false]
  }

  /** Next states of one state, one for each way its interpolation can go. */
  ghost predicate Advanced(scene: Scene, choices: Choices, k: nat, next: seq<State>)
    requires scene.Valid() && k < |scene.parsed| && ConditionsFirst(scene.parsed, k) <= choices.Keys
  {
    if ConditionOf(scene.parsed[k]) == {} then
      |next| == 1 && HasRendered(next[0], scene, choices, k + 1)
    else
      var condition := scene.parsed[k].value.condition;
      AdvancedOn(scene, choices, condition, k, next, |Options(choices, condition)|)
  }

  ghost predicate AdvancedOn(scene: Scene, choices: Choices, condition: Text, k: nat, next: seq<State>, n: nat)
    requires scene.Valid() && k < |scene.parsed| && ConditionsFirst(scene.parsed, k) <= choices.Keys
    requires ConditionOf(scene.parsed[k]) == {condition} && n <= |Options(choices, condition)|
  {
    && |next| == n
    && forall i :: 0 <= i < n ==>
      HasRendered(next[i], scene, choices[condition := Options(choices, condition)[i]], k + 1)
  }

  method Advance(query: ExtractedQuery, parsed: seq<Option<Structure>>, placeholder: Placeholder, state: State, k: nat,
                 locals: map<nat, ExtractedQuery>, cache: map<(nat, nat), ExtractedQuery>,
                 ghost scene: Scene, ghost lexed: Lexed)
    returns (next: seq<State>, extended: map<(nat, nat), ExtractedQuery>)
    requires InScene(query, parsed, placeholder, scene, lexed) && k < |parsed|
    requires LocalsHold(scene, locals) && AllRegistered(scene, locals, |parsed|) && CacheHolds(scene, cache)
    requires ConditionsFirst(parsed, k) <= state.choices.Keys && HasRendered(state, scene, state.choices, k)
    ensures CacheHolds(scene, extended)
    ensures Advanced(scene, state.choices, k, next)
  {
    ghost var choices := state.choices;
    ghost var literal := WithLiteral(RenderedFirst(scene, choices, k), Literal(scene.template, k));
    extended := cache;
    var base := WithLiteralBefore(query, state, k, lexed, placeholder, RenderedFirst(scene, choices, k));
    match parsed[k]
    case None =>
      var marked := AppendMarker(placeholder, base, query.interpolations[k].sourceStart, scene, literal);
      ExtendsRendering(scene, state, marked, choices, choices, k);
      next := [marked];
    case Some(Plain(operand)) =>
      var appended;
      appended, extended := AppendOperand(placeholder, base, operand, locals, extended, scene, literal);
      ExtendsRendering(scene, state, appended, choices, choices, k);
      next := [appended];
    case Some(Conditional(condition, truthy, falsy)) =>
      var options := Options(base.choices, condition);
      next := [];
      for i := 0 to |options|
        invariant CacheHolds(scene, extended)
        invariant AdvancedOn(scene, choices, condition, k, next, i)
      {
        var chosen := base.choices[condition := options[i]];
        var appended;
        appended, extended := AppendOperand(placeholder, base.(choices := chosen), if options[i] then truthy else falsy,
                                            locals, extended, scene, literal);
        ExtendsRendering(scene, state, appended, choices, chosen, k);
        next := next + [appended];
      }
  }

  ghost predicate InScene(query: ExtractedQuery, parsed: seq<Option<Structure>>, placeholder: Placeholder, scene: Scene,
                          lexed: Lexed) {
    && ExtractedFrom(query, lexed, placeholder)
    && scene == Scene(scene.source, query.tagName, lexed.template, parsed, placeholder)
    && scene.Valid()
  }

  // ---------------------------------------------------------------------------
  // All states, interpolation by interpolation
  // ---------------------------------------------------------------------------

  ghost predicate RenderedAll(scene: Scene, states: seq<State>, assignments: seq<Choices>, k: nat)
    requires scene.Valid() && k <= |scene.parsed|
  {
    && |states| == |assignments|
    && forall i :: 0 <= i < |states| ==>
      ConditionsFirst(scene.parsed, k) <= assignments[i].Keys && HasRendered(states[i], scene, assignments[i], k)
  }

  /** The assignments that interpolation k makes of some assignments of the conditions before it. */
  ghost function Taken(parsed: seq<Option<Structure>>, k: nat, assignments: seq<Choices>): seq<Choices>
    requires k < |parsed|
  {
    if ConditionOf(parsed[k]) <= ConditionsFirst(parsed, k) then assignments
    else Split(assignments, parsed[k].value.condition)
  }

  lemma RenderedAllGrows(scene: Scene, states: seq<State>, assignments: seq<Choices>, k: nat, choices: Choices,
                         next: seq<State>)
    requires scene.Valid() && k < |scene.parsed|
    requires RenderedAll(scene, states, Taken(scene.parsed, k, assignments), k + 1)
    requires choices.Keys == ConditionsFirst(scene.parsed, k) && Advanced(scene, choices, k, next)
    ensures RenderedAll(scene, states + next, Taken(scene.parsed, k, assignments + [choices]), k + 1)
  {
    assert (assignments + [choices])[..|assignments|] == assignments;
    if ConditionOf(scene.parsed[k]) == {} {
    } else {
      var condition := scene.parsed[k].value.condition;
      if condition in choices {
        assert choices[condition := choices[condition]] == choices;
        assert Options(choices, condition) == [choices[condition]];
      }
    }
  }

  lemma StateOf(scene: Scene, states: seq<State>, k: nat, i: nat)
    requires scene.Valid() && k <= |scene.parsed| && i < |states|
    requires RenderedAll(scene, states, Assignments(scene.parsed, k), k)
    ensures i < |Assignments(scene.parsed, k)|
    ensures states[i].choices == Assignments(scene.parsed, k)[i]
    ensures states[i].choices.Keys == ConditionsFirst(scene.parsed, k)
    ensures HasRendered(states[i], scene, states[i].choices, k)
  {
    AssignmentsAreExactlyOnce(scene.parsed, k);
  }

  lemma TakenAll(parsed: seq<Option<Structure>>, k: nat, before: seq<Choices>)
    requires k < |parsed| && before == Assignments(parsed, k)
    ensures before[..|before|] == before
    ensures Taken(parsed, k, before) == Assignments(parsed, k + 1)
    ensures Taken(parsed, k, before[..0]) == []
  {
  }

  ghost predicate IsVariant(variant: Variant, query: ExtractedQuery, scene: Scene, choices: Choices)
    requires scene.Valid() && ConditionsOf(scene.parsed) <= choices.Keys
  {
    var rendered := Rendered(scene, choices);
    && variant.choices == choices
    && variant.query == query.(sql := rendered.sql, sqlOffsetMap := rendered.origins, parameterCount := rendered.count)
    && variant.fragments == rendered.fragments
  }

  method Finish(query: ExtractedQuery, state: State, placeholder: Placeholder, ghost scene: Scene, ghost lexed: Lexed)
    returns (variant: Variant)
    requires InScene(query, scene.parsed, placeholder, scene, lexed)
    requires ConditionsOf(scene.parsed) <= state.choices.Keys
    requires HasRendered(state, scene, state.choices, |scene.parsed|)
    ensures IsVariant(variant, query, scene, state.choices)
  {
    SliceBetweenHoles(lexed.template, placeholder, 0, |lexed.template.segments|);
    FlattenAppend(state.sqlChunks, query.sql[state.cursor..]);
    FlattenAppend(state.offsetChunks, query.sqlOffsetMap[state.cursor..]);
    return Variant(query.(sql := Flatten(state.sqlChunks + [query.sql[state.cursor..]]),
                          sqlOffsetMap := Flatten(state.offsetChunks + [query.sqlOffsetMap[state.cursor..]]),
                          parameterCount := state.count),
                   state.choices, state.fragments);
  }

  function ChoicesOf(variants: seq<Variant>): (all: seq<Choices>)
    ensures |all| == |variants|
  {
    seq(|variants|, i requires 0 <= i < |variants| => variants[i].choices)
  }

  /**
   * The variants are the template rendered directly under each truth assignment of its conditions, and every
   * assignment is there exactly once.
   */
  ghost predicate IsExpansion(variants: seq<Variant>, query: ExtractedQuery, scene: Scene)
    requires scene.Valid()
  {
    && |variants| == Power2(|ConditionsOf(scene.parsed)|)
    && ExactlyOnce(ChoicesOf(variants), ConditionsOf(scene.parsed))
    && forall i :: 0 <= i < |variants| ==>
      && variants[i].choices.Keys == ConditionsOf(scene.parsed)
      && IsVariant(variants[i], query, scene, variants[i].choices)
  }

  ghost predicate StructureRegistered(scene: Scene, locals: map<nat, ExtractedQuery>, structure: Option<Structure>) {
    structure.Some? ==>
      && IsRegistered(scene, locals, structure.value.truthy)
      && (structure.value.Conditional? ==> IsRegistered(scene, locals, structure.value.falsy))
  }

  lemma RegisteredGrows(scene: Scene, locals: map<nat, ExtractedQuery>, extended: map<nat, ExtractedQuery>, k: nat)
    requires k < |scene.parsed| && AllRegistered(scene, locals, k) && locals.Keys <= extended.Keys
    requires StructureRegistered(scene, extended, scene.parsed[k])
    ensures AllRegistered(scene, extended, k + 1)
  {
    forall j | 0 <= j < k + 1 ensures StructureRegistered(scene, extended, scene.parsed[j]) {
      if j < k {
        assert StructureRegistered(scene, locals, scene.parsed[j]);
      }
    }
  }

  method RegisterBoth(source: Text, tagName: Text, placeholder: Placeholder, structure: Option<Structure>,
                      locals: map<nat, ExtractedQuery>, ghost scene: Scene)
    returns (extended: map<nat, ExtractedQuery>)
    requires scene.source == source && scene.tagName == tagName && scene.placeholder == placeholder
    requires structure.Some? ==> scene.Parsed(structure.value)
    requires LocalsHold(scene, locals)
    ensures LocalsHold(scene, extended) && locals.Keys <= extended.Keys
    ensures StructureRegistered(scene, extended, structure)
  {
    extended := locals;
    if structure.Some? {
      extended := Register(source, tagName, placeholder, structure.value.truthy, extended, scene);
      if structure.value.Conditional? {
        extended := Register(source, tagName, placeholder, structure.value.falsy, extended, scene);
      }
    }
  }

  method RegisterAll(source: Text, tagName: Text, placeholder: Placeholder, parsed: seq<Option<Structure>>,
                     ghost scene: Scene)
    returns (locals: map<nat, ExtractedQuery>)
    requires scene.source == source && scene.tagName == tagName && scene.placeholder == placeholder
    requires scene.Valid() && scene.parsed == parsed
    ensures LocalsHold(scene, locals) && AllRegistered(scene, locals, |parsed|)
  {
    locals := map[];
    for k := 0 to |parsed|
      invariant LocalsHold(scene, locals) && AllRegistered(scene, locals, k)
    {
      var extended := RegisterBoth(source, tagName, placeholder, parsed[k], locals, scene);
      RegisteredGrows(scene, locals, extended, k);
      locals := extended;
    }
  }

  /** Advances every state past interpolation k. */
  method AdvanceAll(query: ExtractedQuery, parsed: seq<Option<Structure>>, placeholder: Placeholder, states: seq<State>,
                    k: nat, locals: map<nat, ExtractedQuery>, cache: map<(nat, nat), ExtractedQuery>,
                    ghost scene: Scene, ghost lexed: Lexed)
    returns (next: seq<State>, extended: map<(nat, nat), ExtractedQuery>)
    requires InScene(query, parsed, placeholder, scene, lexed) && k < |parsed|
    requires LocalsHold(scene, locals) && AllRegistered(scene, locals, |parsed|) && CacheHolds(scene, cache)
    requires RenderedAll(scene, states, Assignments(parsed, k), k)
    ensures CacheHolds(scene, extended)
    ensures RenderedAll(scene, next, Assignments(parsed, k + 1), k + 1)
  {
    ghost var before := Assignments(parsed, k);
    TakenAll(parsed, k, before);
    next, extended := [], cache;
    for i := 0 to |states|
      invariant CacheHolds(scene, extended)
      invariant RenderedAll(scene, next, Taken(parsed, k, before[..i]), k + 1)
    {
      var advanced;
      StateOf(scene, states, k, i);
      advanced, extended := Advance(query, parsed, placeholder, states[i], k, locals, extended, scene, lexed);
      RenderedAllGrows(scene, next, before[..i], k, before[i], advanced);
      assert before[..i] + [before[i]] == before[..i + 1];
      next := next + advanced;
    }
  }

  method FinishAll(query: ExtractedQuery, states: seq<State>, placeholder: Placeholder, ghost scene: Scene,
                   ghost lexed: Lexed)
    returns (variants: seq<Variant>)
    requires InScene(query, scene.parsed, placeholder, scene, lexed)
    requires RenderedAll(scene, states, Assignments(scene.parsed, |scene.parsed|), |scene.parsed|)
    ensures IsExpansion(variants, query, scene)
  {
    AssignmentsAreExactlyOnce(scene.parsed, |scene.parsed|);
    ghost var assignments := Assignments(scene.parsed, |scene.parsed|);
    variants := [];
    for i := 0 to |states|
      invariant |variants| == i
      invariant forall j :: 0 <= j < i ==>
        variants[j].choices == assignments[j] && IsVariant(variants[j], query, scene, assignments[j])
    {
      assert states[i].choices == assignments[i];
      var variant := Finish(query, states[i], placeholder, scene, lexed);
      variants := variants + [variant];
    }
    assert ChoicesOf(variants) == assignments;
  }

  method ExpandStructuralQuery(source: Text, query: ExtractedQuery, parsed: seq<Option<Structure>>,
                               placeholder: Placeholder, maximumVariants: int, ghost scene: Scene, ghost lexed: Lexed)
    returns (result: Option<Result>)
    requires InScene(query, parsed, placeholder, scene, lexed) && scene.source == source
    ensures result.None? <==> forall k :: 0 <= k < |parsed| ==> parsed[k].None?
    ensures result.Some? ==>
      (result.value.Limit? <==> Power2(|ConditionsOf(parsed)|) > maximumVariants)
    ensures result.Some? && result.value.Limit? ==>
      result.value.conditionCount == |ConditionsOf(parsed)| && result.value.variantCount > maximumVariants
    ensures result.Some? && result.value.Variants? ==> IsExpansion(result.value.variants, query, scene)
  {
    if forall k :: 0 <= k < |parsed| ==> parsed[k].None? {
      return None;
    }
    var conditions := ConditionsOf(parsed);
    var possibleVariants := VariantCount(|conditions|, maximumVariants);
    if possibleVariants > maximumVariants {
      return Some(Limit(|conditions|, possibleVariants));
    }
    var locals := RegisterAll(source, query.tagName, placeholder, parsed, scene);
    var cache: map<(nat, nat), ExtractedQuery> := map[];
    var states := [State([], [], 0, 0, map[], [])];
    for k := 0 to |parsed|
      invariant CacheHolds(scene, cache)
      invariant RenderedAll(scene, states, Assignments(parsed, k), k)
    {
      states, cache := AdvanceAll(query, parsed, placeholder, states, k, locals, cache, scene, lexed);
    }
    var variants := FinishAll(query, states, placeholder, scene, lexed);
    return Some(Variants(variants));
  }
}
