/** What a structural variant is: the rendering of one template with the chosen fragments spliced in. */
module StructuralLaws {
  import opened Text
  import opened Scanner
  import opened TemplateLaws
  import opened Operands
  import opened Structural

  lemma RenderJoinSeam(a: Template, b: Template, placeholder: Placeholder, offset: nat)
    ensures RenderFirst(Join(a, b), placeholder, offset, |a.segments|) == Render(a, placeholder, offset) + b.head
  {
    var n := |a.segments|;
    var joined := Join(a, b);
    if n > 0 {
      var last := a.segments[n - 1];
      assert joined.segments[..n - 1] == a.segments[..n - 1];
      RenderFirstIsLocal(joined, a, placeholder, offset, n - 1);
      assert joined.segments[n - 1] == Segment(last.hole, last.after + b.head);
      var before := RenderFirst(a, placeholder, offset, n - 1) + Mark(placeholder(offset + n), last.hole.start);
      assert RenderFirst(joined, placeholder, offset, n) == before + (last.after + b.head);
      assert Render(a, placeholder, offset) == before + last.after;
    }
  }

  lemma {:induction false} RenderJoinFirst(a: Template, b: Template, placeholder: Placeholder, offset: nat, k: nat)
    requires k <= |b.segments|
    ensures RenderFirst(Join(a, b), placeholder, offset, |a.segments| + k)
         == Render(a, placeholder, offset) + RenderFirst(b, placeholder, offset + |a.segments|, k)
  {
    var n := |a.segments|;
    if k == 0 {
      RenderJoinSeam(a, b, placeholder, offset);
    } else {
      RenderJoinFirst(a, b, placeholder, offset, k - 1);
      assert Join(a, b).segments[n + k - 1] == b.segments[k - 1];
      assert offset + (n + k) == offset + n + k;
      var last := RenderSegment(b.segments[k - 1], placeholder(offset + n + k));
      var front, middle := Render(a, placeholder, offset), RenderFirst(b, placeholder, offset + n, k - 1);
      assert front + middle + last == front + (middle + last);
    }
  }

  /** Joined templates render one after the other, the second numbered from where the first stopped. */
  lemma RenderJoin(a: Template, b: Template, placeholder: Placeholder, offset: nat)
    ensures Render(Join(a, b), placeholder, offset)
         == Render(a, placeholder, offset) + Render(b, placeholder, offset + |a.segments|)
    ensures |Join(a, b).segments| == |a.segments| + |b.segments|
  {
    RenderJoinFirst(a, b, placeholder, offset, |b.segments|);
  }

  /** The template with its first `k` interpolations replaced by what the assignment chooses. */
  function SplicedFirst(scene: Scene, choices: Choices, k: nat): Template
    requires scene.Valid() && k <= |scene.parsed| && ConditionsFirst(scene.parsed, k) <= choices.Keys
  {
    if k == 0 then Template([], [])
    else
      Join(Join(SplicedFirst(scene, choices, k - 1), Template(Literal(scene.template, k - 1), [])),
           Inserted(scene, choices, k - 1))
  }

  /** What stands for interpolation k: an ordinary parameter, a whole fragment, or nothing. */
  function Inserted(scene: Scene, choices: Choices, k: nat): Template
    requires scene.Valid() && k < |scene.parsed| && ConditionOf(scene.parsed[k]) <= choices.Keys
  {
    match scene.parsed[k]
    case None => Template([], [Segment(scene.template.segments[k].hole, [])])
    case Some(Plain(operand)) => FragmentTemplate(scene, operand)
    case Some(Conditional(condition, truthy, falsy)) =>
      FragmentTemplate(scene, if choices[condition] then truthy else falsy)
  }

  function FragmentTemplate(scene: Scene, operand: Operand): Template {
    if operand.Empty? || Lex(scene.source, operand.backtick + 1).None? then Template([], [])
    else Lex(scene.source, operand.backtick + 1).value.template
  }

  function Spliced(scene: Scene, choices: Choices): Template
    requires scene.Valid() && ConditionsOf(scene.parsed) <= choices.Keys
  {
    Join(SplicedFirst(scene, choices, |scene.parsed|), Template(Literal(scene.template, |scene.parsed|), []))
  }

  ghost predicate Means(partial: Partial, t: Template, placeholder: Placeholder) {
    && partial.sql == Units(Render(t, placeholder, 0))
    && partial.origins == Origins(Render(t, placeholder, 0))
    && partial.count == |t.segments|
  }

  lemma MeansLiteral(partial: Partial, t: Template, literal: Mapped, placeholder: Placeholder)
    requires Means(partial, t, placeholder)
    ensures Means(WithLiteral(partial, literal), Join(t, Template(literal, [])), placeholder)
  {
    RenderJoin(t, Template(literal, []), placeholder, 0);
    UnitsAndOriginsAdd(Render(t, placeholder, 0), literal);
  }

  lemma MeansOperand(scene: Scene, partial: Partial, t: Template, operand: Operand)
    requires Means(partial, t, scene.placeholder)
    ensures Means(WithOperand(scene, partial, operand), Join(t, FragmentTemplate(scene, operand)), scene.placeholder)
  {
    var fragment := FragmentTemplate(scene, operand);
    RenderJoin(t, fragment, scene.placeholder, 0);
    UnitsAndOriginsAdd(Render(t, scene.placeholder, 0), Render(fragment, scene.placeholder, |t.segments|));
    JoinWithNothing(t);
  }

  lemma MeansMarker(scene: Scene, partial: Partial, t: Template, hole: Hole)
    requires Means(partial, t, scene.placeholder)
    ensures Means(WithMarker(scene, partial, hole.start), Join(t, Template([], [Segment(hole, [])])), scene.placeholder)
  {
    var one := Template([], [Segment(hole, [])]);
    var n := |t.segments|;
    var marker := scene.placeholder(n + 1);
    RenderJoin(t, one, scene.placeholder, 0);
    assert Render(one, scene.placeholder, n)
      == RenderFirst(one, scene.placeholder, n, 0) + RenderSegment(one.segments[0], marker);
    assert Render(one, scene.placeholder, n) == Mark(marker, hole.start);
    UnitsAndOriginsAdd(Render(t, scene.placeholder, 0), Mark(marker, hole.start));
    MarkParts(marker, hole.start);
  }

  lemma {:induction false} RenderedFirstIsSpliced(scene: Scene, choices: Choices, k: nat)
    requires scene.Valid() && k <= |scene.parsed| && ConditionsFirst(scene.parsed, k) <= choices.Keys
    ensures Means(RenderedFirst(scene, choices, k), SplicedFirst(scene, choices, k), scene.placeholder)
  {
    if k > 0 {
      RenderedFirstIsSpliced(scene, choices, k - 1);
      var literal := Literal(scene.template, k - 1);
      var partial := WithLiteral(RenderedFirst(scene, choices, k - 1), literal);
      var t := Join(SplicedFirst(scene, choices, k - 1), Template(literal, []));
      MeansLiteral(RenderedFirst(scene, choices, k - 1), SplicedFirst(scene, choices, k - 1), literal,
                   scene.placeholder);
      match scene.parsed[k - 1]
      case None => MeansMarker(scene, partial, t, scene.template.segments[k - 1].hole);
      case Some(Plain(operand)) => MeansOperand(scene, partial, t, operand);
      case Some(Conditional(condition, truthy, falsy)) =>
        MeansOperand(scene, partial, t, if choices[condition] then truthy else falsy);
    }
  }

  /** The k-th placeholder of a rendering stands right after what precedes it, and carries number k + 1. */
  ghost predicate Numbered(sql: Text, t: Template, placeholder: Placeholder, k: nat)
    requires k < |t.segments|
  {
    var start := |RenderFirst(t, placeholder, 0, k)|;
    var end := start + |placeholder(k + 1)|;
    end <= |sql| && sql[start..end] == placeholder(k + 1)
  }

  lemma RenderingIsNumbered(t: Template, placeholder: Placeholder, k: nat)
    requires k < |t.segments|
    ensures Numbered(Units(Render(t, placeholder, 0)), t, placeholder, k)
  {
    QueryHoleIsMapped([], 0, Lexed(t, 0), placeholder, 0, k);
  }

  /**
   * A variant's SQL, offset map and parameter count are those of one ordinary template, the one obtained by writing
   * the chosen fragments in place; so its placeholders are numbered 1, 2, ... from left to right across fragments.
   */
  lemma VariantIsSplicedTemplate(scene: Scene, choices: Choices)
    requires scene.Valid() && ConditionsOf(scene.parsed) <= choices.Keys
    ensures Means(Rendered(scene, choices), Spliced(scene, choices), scene.placeholder)
    ensures forall k :: 0 <= k < |Spliced(scene, choices).segments| ==>
      Numbered(Rendered(scene, choices).sql, Spliced(scene, choices), scene.placeholder, k)
  {
    var n := |scene.parsed|;
    RenderedFirstIsSpliced(scene, choices, n);
    MeansLiteral(RenderedFirst(scene, choices, n), SplicedFirst(scene, choices, n), Literal(scene.template, n),
                 scene.placeholder);
    var t := Spliced(scene, choices);
    forall k | 0 <= k < |t.segments| ensures Numbered(Rendered(scene, choices).sql, t, scene.placeholder, k) {
      RenderingIsNumbered(t, scene.placeholder, k);
    }
  }
}
