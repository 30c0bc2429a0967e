/** The template scanner (packages/compiler/src/scanner.ts): escapes, interpolations and offset maps. */
module Scanner {
  import opened Text

  const BACKSLASH: Unit := 0x5C
  const BACKTICK: Unit := 0x60
  const DOLLAR: Unit := 0x24
  const OPEN_BRACE: Unit := 0x7B
  const CLOSE_BRACE: Unit := 0x7D
  const DOUBLE_QUOTE: Unit := 0x22
  const SINGLE_QUOTE: Unit := 0x27
  const SLASH: Unit := 0x2F
  const STAR: Unit := 0x2A
  const CR: Unit := 0x0D
  const LF: Unit := 0x0A

  // ---------------------------------------------------------------------------
  // Skipping quoted text, comments, templates and interpolations
  // ---------------------------------------------------------------------------

  function QuoteEnd(source: Text, i: nat, quote: Unit): (r: nat)
    ensures i <= |source| ==> i <= r
    ensures r <= |source|
    decreases |source| - i
  {
    if i >= |source| then |source|
    else if source[i] == BACKSLASH then QuoteEnd(source, i + 2, quote)
    else if source[i] == quote then i + 1
    else QuoteEnd(source, i + 1, quote)
  }

  function LineCommentEnd(source: Text, start: nat): (r: nat)
    requires start + 2 <= |source|
    ensures start < r <= |source|
  {
    var end := IndexOf(source, [LF], start + 2);
    if end == |source| then |source| else end + 1
  }

  function BlockCommentEnd(source: Text, start: nat): (r: nat)
    requires start + 2 <= |source|
    ensures start < r <= |source|
  {
    var end := IndexOf(source, [STAR, SLASH], start + 2);
    if end == |source| then |source| else end + 2
  }

  /** Where the template whose body is being read at `i` ends. */
  function TemplateEnd(source: Text, i: nat): (r: nat)
    ensures i <= |source| ==> i <= r
    ensures r <= |source|
    decreases |source| - i
  {
    if i >= |source| then |source|
    else if source[i] == BACKSLASH then TemplateEnd(source, i + 2)
    else if source[i] == BACKTICK then i + 1
    else if source[i] == DOLLAR && At(source, i + 1) == Some(OPEN_BRACE) then
      TemplateEnd(source, CodeEnd(source, i + 2, 1))
    else TemplateEnd(source, i + 1)
  }

  /** Where code read at `i`, `depth` braces deep, leaves its outermost brace. */
  function CodeEnd(source: Text, i: nat, depth: nat): (r: nat)
    requires depth > 0
    ensures i <= |source| ==> i <= r
    ensures r <= |source|
    decreases |source| - i
  {
    if i >= |source| then |source|
    else if source[i] == CLOSE_BRACE && depth == 1 then i + 1
    else
      var next := TokenEnd(source, i);
      CodeEnd(source, next, if source[i] == OPEN_BRACE then depth + 1
                            else if source[i] == CLOSE_BRACE then depth - 1 else depth)
  }

  /** The end of the one lexical item of code that starts at `i`. */
  function TokenEnd(source: Text, i: nat): (r: nat)
    requires i < |source|
    ensures i < r <= |source|
    decreases |source| - i, 0
  {
    var unit := source[i];
    if unit == DOUBLE_QUOTE || unit == SINGLE_QUOTE then QuoteEnd(source, i + 1, unit)
    else if unit == BACKTICK then TemplateEnd(source, i + 1)
    else if unit == SLASH && At(source, i + 1) == Some(SLASH) then LineCommentEnd(source, i)
    else if unit == SLASH && At(source, i + 1) == Some(STAR) then BlockCommentEnd(source, i)
    else i + 1
  }

  method SkipQuoted(source: Text, start: nat, quote: Unit) returns (end: nat)
    requires start < |source|
    ensures end == if quote == BACKTICK then TemplateEnd(source, start + 1) else QuoteEnd(source, start + 1, quote)
    decreases |source| - start, 1
  {
    if quote == BACKTICK {
      end := SkipTemplate(source, start);
      return;
    }
    var index := start + 1;
    while index < |source|
      invariant QuoteEnd(source, index, quote) == QuoteEnd(source, start + 1, quote)
      decreases |source| - index
    {
      if source[index] == BACKSLASH {
        index := index + 2;
      } else if source[index] == quote {
        return index + 1;
      } else {
        index := index + 1;
      }
    }
    return |source|;
  }

  method SkipTemplate(source: Text, start: nat) returns (end: nat)
    requires start < |source|
    ensures end == TemplateEnd(source, start + 1)
    decreases |source| - start, 0
  {
    var index := start + 1;
    while index < |source|
      invariant index > start
      invariant TemplateEnd(source, index) == TemplateEnd(source, start + 1)
      decreases |source| - index
    {
      if source[index] == BACKSLASH {
        index := index + 2;
      } else if source[index] == BACKTICK {
        return index + 1;
      } else if source[index] == DOLLAR && index + 1 < |source| && source[index + 1] == OPEN_BRACE {
        index := InterpolationEnd(source, index + 2);
      } else {
        index := index + 1;
      }
    }
    return |source|;
  }

  method InterpolationEnd(source: Text, start: nat) returns (end: nat)
    requires 0 < start <= |source|
    ensures end == CodeEnd(source, start, 1)
    decreases |source| - start, 2
  {
    var depth := 1;
    var index := start;
    while index < |source|
      invariant start <= index && depth > 0
      invariant CodeEnd(source, index, depth) == CodeEnd(source, start, 1)
      decreases |source| - index
    {
      var unit := source[index];
      if unit == DOUBLE_QUOTE || unit == SINGLE_QUOTE {
        index := SkipQuoted(source, index, unit);
      } else if unit == BACKTICK {
        index := SkipQuoted(source, index, BACKTICK);
      } else if unit == SLASH && index + 1 < |source| && source[index + 1] == SLASH {
        index := LineCommentEnd(source, index);
      } else if unit == SLASH && index + 1 < |source| && source[index + 1] == STAR {
        index := BlockCommentEnd(source, index);
      } else if unit == OPEN_BRACE {
        depth := depth + 1;
        index := index + 1;
      } else if unit == CLOSE_BRACE {
        depth := depth - 1;
        index := index + 1;
        if depth == 0 {
          return index;
        }
      } else {
        index := index + 1;
      }
    }
    return |source|;
  }

  // ---------------------------------------------------------------------------
  // Escapes
  // ---------------------------------------------------------------------------

  datatype Escape = Escape(text: Text, end: nat)

  function HexDigit(unit: Unit): Option<nat> {
    if 0x30 <= unit <= 0x39 then Some(unit - 0x30)
    else if 0x41 <= unit <= 0x46 then Some(unit - 0x41 + 10)
    else if 0x61 <= unit <= 0x66 then Some(unit - 0x61 + 10)
    else None
  }

  function HexNumber(digits: Text): Option<nat> {
    if digits == [] then Some(0)
    else
      match (HexNumber(digits[..|digits| - 1]), HexDigit(digits[|digits| - 1]))
      case (Some(high), Some(low)) => Some(16 * high + low)
      case _ => None
  }

  lemma {:induction false} HexNumberIsBounded(digits: Text)
    requires |digits| <= 4 && HexNumber(digits).Some?
    ensures HexNumber(digits).value < 0x1_0000
    ensures |digits| <= 3 ==> HexNumber(digits).value < 0x1000
    ensures |digits| <= 2 ==> HexNumber(digits).value < 0x100
    ensures |digits| <= 1 ==> HexNumber(digits).value < 0x10
  {
    if digits != [] {
      HexNumberIsBounded(digits[..|digits| - 1]);
    }
  }

  /** `length` hexadecimal digits at `start`, or nothing. */
  function HexAt(source: Text, start: nat, length: nat): Option<nat> {
    if start + length <= |source| then HexNumber(source[start..start + length]) else None
  }

  /** `String.fromCodePoint`: one code unit, or a surrogate pair. */
  function FromCodePoint(value: nat): Text
    requires value <= 0x10_FFFF
  {
    if value < 0x1_0000 then [value]
    else [0xD800 + (value - 0x1_0000) / 0x400, 0xDC00 + (value - 0x1_0000) % 0x400]
  }

  predicate IsDigit(unit: Option<Unit>) {
    unit.Some? && 0x30 <= unit.value <= 0x39
  }

  function SimpleEscape(unit: Unit): Option<Unit> {
    match unit
    case 0x30 => Some(0x00)
    case 0x62 => Some(0x08)
    case 0x66 => Some(0x0C)
    case 0x6E => Some(LF)
    case 0x72 => Some(CR)
    case 0x74 => Some(0x09)
    case 0x76 => Some(0x0B)
    case _ => None
  }

  function FixedEscape(source: Text, start: nat, length: nat): (r: Option<Escape>)
    requires length <= 4
    ensures r.Some? ==> start <= r.value.end <= |source|
  {
    match HexAt(source, start, length)
    case None => None
    case Some(value) =>
      HexNumberIsBounded(source[start..start + length]);
      Some(Escape(FromCodePoint(value), start + length))
  }

  function BracedEscape(source: Text, start: nat): (r: Option<Escape>)
    requires start <= |source|
    ensures r.Some? ==> start <= r.value.end <= |source|
  {
    var close := IndexOf(source, [CLOSE_BRACE], start);
    if close == |source| || !(1 <= close - start <= 6) then None
    else
      match HexNumber(source[start..close])
      case None => None
      case Some(value) =>
        if value > 0x10_FFFF then None else Some(Escape(FromCodePoint(value), close + 1))
  }

  /** What a backslash at `start` contributes to the cooked text, and where it ends; None for a malformed escape. */
  function CookedEscape(source: Text, start: nat): (r: Option<Escape>)
    ensures r.Some? ==> start + 2 <= r.value.end <= |source|
  {
    match At(source, start + 1)
    case None => None
    case Some(escaped) =>
      if escaped == LF then Some(Escape([], start + 2))
      else if escaped == CR then
        Some(Escape([], if At(source, start + 2) == Some(LF) then start + 3 else start + 2))
      else if escaped == 0x30 && IsDigit(At(source, start + 2)) then None
      else if SimpleEscape(escaped).Some? then Some(Escape([SimpleEscape(escaped).value], start + 2))
      else if escaped == 0x78 then FixedEscape(source, start + 2, 2)
      else if escaped == 0x75 then
        if At(source, start + 2) == Some(OPEN_BRACE) then BracedEscape(source, start + 3)
        else FixedEscape(source, start + 2, 4)
      else if IsDigit(Some(escaped)) then None
      else Some(Escape([escaped], start + 2))
  }

  // ---------------------------------------------------------------------------
  // Templates: what a literal says, independently of how its placeholders are written
  // ---------------------------------------------------------------------------

  /** Text whose every code unit remembers the source offset it came from. */
  type Mapped = seq<(Unit, nat)>

  function Units(m: Mapped): (text: Text)
    ensures |text| == |m|
  {
    seq(|m|, i requires 0 <= i < |m| => m[i].0)
  }

  function Origins(m: Mapped): (origins: seq<nat>)
    ensures |origins| == |m|
  {
    seq(|m|, i requires 0 <= i < |m| => m[i].1)
  }

  /** A text all of which comes from one place. */
  function Mark(text: Text, origin: nat): (m: Mapped)
    ensures |m| == |text|
  {
    seq(|text|, i requires 0 <= i < |text| => (text[i], origin))
  }

  function Repeat(origin: nat, count: nat): (r: seq<nat>)
    ensures |r| == count
  {
    seq(count, _ => origin)
  }

  lemma MarkParts(text: Text, origin: nat)
    ensures Units(Mark(text, origin)) == text
    ensures Origins(Mark(text, origin)) == Repeat(origin, |text|)
  {
  }

  datatype Hole = Hole(start: nat, end: nat)

  datatype Segment = Segment(hole: Hole, after: Mapped)

  /** Literal text up to the first interpolation, then each interpolation with the literal text that follows it. */
  datatype Template = Template(head: Mapped, segments: seq<Segment>)

  datatype Lexed = Lexed(template: Template, end: nat)

  /** One step of reading a template body: literal text, or an interpolation. */
  datatype Piece = Cooked(text: Mapped, end: nat) | Interpolated(hole: Hole)

  function PieceAt(source: Text, i: nat): (r: Option<Piece>)
    requires i < |source|
    ensures r.Some? && r.value.Cooked? ==> i < r.value.end <= |source|
    ensures r.Some? && r.value.Interpolated? ==> i == r.value.hole.start && i + 2 <= r.value.hole.end <= |source|
  {
    if source[i] == BACKSLASH then
      match CookedEscape(source, i)
      case None => None
      case Some(escape) => Some(Cooked(Mark(escape.text, i), escape.end))
    else if source[i] == DOLLAR && At(source, i + 1) == Some(OPEN_BRACE) then
      Some(Interpolated(Hole(i, CodeEnd(source, i + 2, 1))))
    else if source[i] == CR then
      Some(Cooked(Mark([LF], i), if At(source, i + 1) == Some(LF) then i + 2 else i + 1))
    else
      Some(Cooked(Mark([source[i]], i), i + 1))
  }

  function Prepend(piece: Piece, rest: Template): Template {
    match piece
    case Cooked(text, _) => Template(text + rest.head, rest.segments)
    case Interpolated(hole) => Template([], [Segment(hole, rest.head)] + rest.segments)
  }

  function PieceEnd(piece: Piece): nat {
    match piece
    case Cooked(_, end) => end
    case Interpolated(hole) => hole.end
  }

  /** The template whose body is being read at `i`; None when it is malformed or never closed. */
  function Lex(source: Text, i: nat): (r: Option<Lexed>)
    ensures r.Some? ==> i < r.value.end <= |source| && source[r.value.end - 1] == BACKTICK
    decreases |source| - i
  {
    if i >= |source| then None
    else if source[i] == BACKTICK then Some(Lexed(Template([], []), i + 1))
    else
      match PieceAt(source, i)
      case None => None
      case Some(piece) =>
        match Lex(source, PieceEnd(piece))
        case None => None
        case Some(rest) => Some(Lexed(Prepend(piece, rest.template), rest.end))
  }

  // ---------------------------------------------------------------------------
  // Rendering a template with numbered placeholders
  // ---------------------------------------------------------------------------

  type Placeholder = nat -> Text

  /** The rendering of the head and the first `k` segments, numbering placeholders from offset + 1. */
  function RenderFirst(t: Template, placeholder: Placeholder, offset: nat, k: nat): Mapped
    requires k <= |t.segments|
  {
    if k == 0 then t.head
    else RenderFirst(t, placeholder, offset, k - 1) + RenderSegment(t.segments[k - 1], placeholder(offset + k))
  }

  function RenderSegment(segment: Segment, marker: Text): Mapped {
    Mark(marker, segment.hole.start) + segment.after
  }

  lemma RenderOneMore(t: Template, placeholder: Placeholder, offset: nat, k: nat, marker: Text)
    requires k < |t.segments| && marker == placeholder(offset + k + 1)
    ensures RenderFirst(t, placeholder, offset, k + 1)
            == RenderFirst(t, placeholder, offset, k) + RenderSegment(t.segments[k], marker)
  {
    assert offset + (k + 1) == offset + k + 1;
  }

  function Render(t: Template, placeholder: Placeholder, offset: nat): Mapped {
    RenderFirst(t, placeholder, offset, |t.segments|)
  }

  datatype Interpolation = Interpolation(
    index: nat, sourceStart: nat, expressionStart: nat, expressionEnd: nat, sourceEnd: nat, sqlStart: nat, sqlEnd: nat)

  /** The record kept of the interpolation at `hole` whose placeholder fills sqlStart..sqlEnd. */
  function Described(index: nat, hole: Hole, sqlStart: nat, sqlEnd: nat): Interpolation {
    Interpolation(index, hole.start, hole.start + 2, Max(hole.start + 2, hole.end - 1), hole.end, sqlStart, sqlEnd)
  }

  function InterpolationAt(t: Template, placeholder: Placeholder, offset: nat, k: nat): Interpolation
    requires k < |t.segments|
  {
    var hole := t.segments[k].hole;
    var sqlStart := |RenderFirst(t, placeholder, offset, k)|;
    Described(k + 1, hole, sqlStart, sqlStart + |placeholder(offset + k + 1)|)
  }

  function Interpolations(t: Template, placeholder: Placeholder, offset: nat): (r: seq<Interpolation>)
    ensures |r| == |t.segments|
  {
    seq(|t.segments|, k requires 0 <= k < |t.segments| => InterpolationAt(t, placeholder, offset, k))
  }

  datatype ExtractedQuery = ExtractedQuery(
    tagName: Text, sql: Text, parameterCount: nat, insertionPosition: nat, start: nat, end: nat,
    sqlOffsetMap: seq<nat>, interpolations: seq<Interpolation>)

  function QueryOf(tagName: Text, tagStart: nat, lexed: Lexed, placeholder: Placeholder, offset: nat): ExtractedQuery {
    var rendered := Render(lexed.template, placeholder, offset);
    ExtractedQuery(tagName, Units(rendered), |lexed.template.segments|, tagStart + |tagName|, tagStart, lexed.end,
                   Origins(rendered), Interpolations(lexed.template, placeholder, offset))
  }

  function Extract(source: Text, tagName: Text, tagStart: nat, backtick: nat, placeholder: Placeholder, offset: nat)
    : Option<ExtractedQuery>
  {
    match Lex(source, backtick + 1)
    case None => None
    case Some(lexed) => Some(QueryOf(tagName, tagStart, lexed, placeholder, offset))
  }

  /** Continues a template with what follows it. */
  function Join(done: Template, rest: Template): Template {
    if done.segments == [] then Template(done.head + rest.head, rest.segments)
    else
      var last := done.segments[|done.segments| - 1];
      Template(done.head,
               done.segments[..|done.segments| - 1] + [Segment(last.hole, last.after + rest.head)] + rest.segments)
  }

  function Append(done: Template, piece: Piece): Template {
    Join(done, Prepend(piece, Template([], [])))
  }

  lemma JoinAppend(done: Template, piece: Piece, rest: Template)
    ensures Join(Append(done, piece), rest) == Join(done, Prepend(piece, rest))
  {
    var n := |done.segments| - 1;
    match piece
    case Cooked(text, _) =>
      assert text + [] == text;
      if n < 0 {
        assert done.head + text + rest.head == done.head + (text + rest.head);
      } else {
        var last := done.segments[n];
        var joined := done.segments[..n] + [Segment(last.hole, last.after + text)];
        assert Append(done, piece).segments == joined + [] == joined;
        assert joined[..n] == done.segments[..n];
        assert last.after + text + rest.head == last.after + (text + rest.head);
      }
    case Interpolated(hole) =>
      var blank := Segment(hole, []);
      assert [blank] + [] == [blank];
      assert [] + rest.head == rest.head;
      if n < 0 {
        assert Append(done, piece).segments == [blank];
        assert [blank][..0] == [];
        assert [] + [Segment(hole, rest.head)] + rest.segments == [Segment(hole, rest.head)] + rest.segments;
        assert done.head + [] == done.head;
      } else {
        var last := done.segments[n];
        assert last.after + [] == last.after;
        var front := done.segments[..n] + [last];
        assert Append(done, piece).segments == front + [blank];
        assert (front + [blank])[..n + 1] == front;
        assert front + [Segment(hole, rest.head)] + rest.segments
            == front + ([Segment(hole, rest.head)] + rest.segments);
      }
  }

  lemma JoinNothing(rest: Template)
    ensures Join(Template([], []), rest) == rest
  {
    assert [] + rest.head == rest.head;
  }

  lemma JoinWithNothing(done: Template)
    ensures Join(done, Template([], [])) == done
  {
    assert done.head + [] == done.head;
    var n := |done.segments| - 1;
    if n >= 0 {
      assert done.segments[n].after + [] == done.segments[n].after;
      assert done.segments[..n] + [done.segments[n]] + [] == done.segments;
    }
  }

  /** Rendering grows by exactly what the appended piece contributes. */
  lemma {:induction false} RenderFirstIsLocal(t: Template, u: Template, placeholder: Placeholder, offset: nat, k: nat)
    requires k <= |t.segments| && k <= |u.segments|
    requires t.head == u.head && t.segments[..k] == u.segments[..k]
    ensures RenderFirst(t, placeholder, offset, k) == RenderFirst(u, placeholder, offset, k)
  {
    if k > 0 {
      assert t.segments[..k][k - 1] == u.segments[..k][k - 1];
      assert t.segments[..k - 1] == t.segments[..k][..k - 1] == u.segments[..k - 1];
      RenderFirstIsLocal(t, u, placeholder, offset, k - 1);
    }
  }

  function PieceRendered(piece: Piece, marker: Text): Mapped {
    match piece
    case Cooked(text, _) => text
    case Interpolated(hole) => Mark(marker, hole.start)
  }

  /** The first `n` segments of two templates render alike. */
  ghost predicate SameFirst(t: Template, u: Template, placeholder: Placeholder, offset: nat, n: int)
    requires n <= |t.segments| && n <= |u.segments|
  {
    forall k :: 0 <= k <= n ==> RenderFirst(t, placeholder, offset, k) == RenderFirst(u, placeholder, offset, k)
  }

  lemma RenderFirstsAreLocal(t: Template, u: Template, placeholder: Placeholder, offset: nat, n: nat)
    requires n <= |t.segments| && n <= |u.segments|
    requires t.head == u.head && t.segments[..n] == u.segments[..n]
    ensures SameFirst(t, u, placeholder, offset, n)
  {
    forall k | 0 <= k <= n ensures RenderFirst(t, placeholder, offset, k) == RenderFirst(u, placeholder, offset, k) {
      assert t.segments[..k] == t.segments[..n][..k] == u.segments[..k];
      RenderFirstIsLocal(t, u, placeholder, offset, k);
    }
  }

  lemma RenderAppendText(done: Template, text: Mapped, end: nat, placeholder: Placeholder, offset: nat)
    ensures var next := Append(done, Cooked(text, end));
      && |next.segments| == |done.segments|
      && Render(next, placeholder, offset) == Render(done, placeholder, offset) + text
      && SameFirst(next, done, placeholder, offset, |done.segments| - 1)
  {
    var next := Append(done, Cooked(text, end));
    var n := |done.segments|;
    assert text + [] == text;
    if n > 0 {
      var last := done.segments[n - 1];
      assert next.segments[..n - 1] == done.segments[..n - 1];
      assert next.segments[n - 1] == Segment(last.hole, last.after + text);
      RenderFirstsAreLocal(next, done, placeholder, offset, n - 1);
      var before, marker :=
        RenderFirst(done, placeholder, offset, n - 1), Mark(placeholder(offset + n), last.hole.start);
      Associate(before, marker + last.after, text);
      Associate(marker, last.after, text);
    }
  }

  lemma RenderAppendHole(done: Template, hole: Hole, placeholder: Placeholder, offset: nat)
    ensures var next := Append(done, Interpolated(hole));
      && |next.segments| == |done.segments| + 1 && next.segments[|done.segments|].hole == hole
      && Render(next, placeholder, offset)
         == Render(done, placeholder, offset) + Mark(placeholder(offset + |done.segments| + 1), hole.start)
      && SameFirst(next, done, placeholder, offset, |done.segments|)
  {
    var next := Append(done, Interpolated(hole));
    var n := |done.segments|;
    var marker := placeholder(offset + n + 1);
    assert next.head == done.head + [] == done.head;
    if n > 0 {
      assert done.segments[n - 1].after + [] == done.segments[n - 1].after;
      assert done.segments[..n - 1] + [done.segments[n - 1]] == done.segments;
    }
    assert next.segments == done.segments + [Segment(hole, [])];
    assert next.segments[..n] == done.segments[..n];
    RenderFirstsAreLocal(next, done, placeholder, offset, n);
    RenderOneMore(next, placeholder, offset, n, marker);
    assert Mark(marker, hole.start) + [] == Mark(marker, hole.start);
  }

  lemma RenderAppend(done: Template, piece: Piece, placeholder: Placeholder, offset: nat)
    ensures var marker := placeholder(offset + |done.segments| + 1);
      Render(Append(done, piece), placeholder, offset)
        == Render(done, placeholder, offset) + PieceRendered(piece, marker)
    ensures var n, next := |done.segments| - (if piece.Cooked? then 1 else 0), Append(done, piece);
      n <= |next.segments| && SameFirst(next, done, placeholder, offset, n)
  {
    match piece
    case Cooked(text, end) => RenderAppendText(done, text, end, placeholder, offset);
    case Interpolated(hole) => RenderAppendHole(done, hole, placeholder, offset);
  }

  lemma UnitsAndOriginsAdd(a: Mapped, b: Mapped)
    ensures Units(a + b) == Units(a) + Units(b)
    ensures Origins(a + b) == Origins(a) + Origins(b)
  {
  }

  lemma InterpolationsAppend(done: Template, piece: Piece, placeholder: Placeholder, offset: nat)
    ensures piece.Cooked? ==>
      Interpolations(Append(done, piece), placeholder, offset) == Interpolations(done, placeholder, offset)
    ensures piece.Interpolated? ==>
      Interpolations(Append(done, piece), placeholder, offset)
      == Interpolations(done, placeholder, offset)
        + [InterpolationAt(Append(done, piece), placeholder, offset, |done.segments|)]
    ensures piece.Interpolated? ==> var sqlStart := |Render(done, placeholder, offset)|;
      var hole := piece.hole;
      InterpolationAt(Append(done, piece), placeholder, offset, |done.segments|)
      == Described(|done.segments| + 1, hole, sqlStart, sqlStart + |placeholder(offset + |done.segments| + 1)|)
  {
    RenderAppend(done, piece, placeholder, offset);
    var next := Append(done, piece);
    assert forall k :: 0 <= k < |done.segments| ==> next.segments[k].hole == done.segments[k].hole;
    assert piece.Cooked? ==> |next.segments| == |done.segments|;
    assert piece.Interpolated? ==>
      |next.segments| == |done.segments| + 1 && next.segments[|done.segments|].hole == piece.hole;
  }

  /** `done` is what has been read from `start` when the scan stands at `index`. */
  ghost predicate Read(source: Text, start: nat, index: nat, done: Template) {
    match Lex(source, index)
    case None => Lex(source, start).None?
    case Some(rest) => Lex(source, start) == Some(Lexed(Join(done, rest.template), rest.end))
  }

  lemma ReadPiece(source: Text, start: nat, index: nat, done: Template, piece: Piece)
    requires index < |source| && source[index] != BACKTICK && Read(source, start, index, done)
    requires PieceAt(source, index) == Some(piece)
    ensures Read(source, start, PieceEnd(piece), Append(done, piece))
  {
    if Lex(source, PieceEnd(piece)).Some? {
      JoinAppend(done, piece, Lex(source, PieceEnd(piece)).value.template);
    }
  }

  /** What the accumulators hold when `done` has been read. */
  ghost predicate Accumulated(done: Template, placeholder: Placeholder, offset: nat, sql: Text, parameterCount: nat,
                              sqlOffsetMap: seq<nat>, interpolations: seq<Interpolation>) {
    && Units(Render(done, placeholder, offset)) == sql
    && Origins(Render(done, placeholder, offset)) == sqlOffsetMap
    && Interpolations(done, placeholder, offset) == interpolations
    && |done.segments| == parameterCount
  }

  lemma AccumulatePiece(done: Template, piece: Piece, placeholder: Placeholder, offset: nat, sql: Text,
                        parameterCount: nat, sqlOffsetMap: seq<nat>, interpolations: seq<Interpolation>)
    requires Accumulated(done, placeholder, offset, sql, parameterCount, sqlOffsetMap, interpolations)
    ensures piece.Cooked? ==>
      Accumulated(Append(done, piece), placeholder, offset, sql + Units(piece.text), parameterCount,
                  sqlOffsetMap + Origins(piece.text), interpolations)
    ensures piece.Interpolated? ==> var marker := placeholder(offset + parameterCount + 1);
      Accumulated(Append(done, piece), placeholder, offset, sql + marker, parameterCount + 1,
                  sqlOffsetMap + Repeat(piece.hole.start, |marker|),
                  interpolations + [Described(parameterCount + 1, piece.hole, |sql|, |sql| + |marker|)])
  {
    var marker := placeholder(offset + parameterCount + 1);
    RenderAppend(done, piece, placeholder, offset);
    InterpolationsAppend(done, piece, placeholder, offset);
    UnitsAndOriginsAdd(Render(done, placeholder, offset), PieceRendered(piece, marker));
    if piece.Interpolated? {
      MarkParts(marker, piece.hole.start);
    }
  }

  lemma ReadNothing(source: Text, start: nat)
    ensures Read(source, start, start, Template([], []))
  {
    if Lex(source, start).Some? {
      JoinNothing(Lex(source, start).value.template);
    }
  }

  /** One turn of the scanning loop, up to the point where the accumulators are extended. */
  method ScanPiece(source: Text, index: nat) returns (piece: Option<Piece>)
    requires index < |source| && source[index] != BACKTICK
    ensures piece == PieceAt(source, index)
  {
    var unit := source[index];
    if unit == BACKSLASH {
      var cooked := CookedEscape(source, index);
      if cooked.None? {
        return None;
      }
      return Some(Cooked(Mark(cooked.value.text, index), cooked.value.end));
    }
    if unit == DOLLAR && At(source, index + 1) == Some(OPEN_BRACE) {
      var sourceEnd := InterpolationEnd(source, index + 2);
      return Some(Interpolated(Hole(index, sourceEnd)));
    }
    if unit == CR {
      return Some(Cooked(Mark([LF], index), if At(source, index + 1) == Some(LF) then index + 2 else index + 1));
    }
    return Some(Cooked(Mark([unit], index), index + 1));
  }

  method ExtractTemplate(source: Text, tagName: Text, tagStart: nat, backtick: nat, placeholder: Placeholder,
                         offset: nat)
    returns (query: Option<ExtractedQuery>)
    ensures query == Extract(source, tagName, tagStart, backtick, placeholder, offset)
  {
    var index := backtick + 1;
    var sql: Text := [];
    var parameterCount: nat := 0;
    var sqlOffsetMap: seq<nat> := [];
    var interpolations: seq<Interpolation> := [];
    ghost var done := Template([], []);
    ReadNothing(source, index);
    while index < |source|
      invariant Accumulated(done, placeholder, offset, sql, parameterCount, sqlOffsetMap, interpolations)
      invariant Read(source, backtick + 1, index, done)
      decreases |source| - index
    {
      if source[index] == BACKTICK {
        JoinWithNothing(done);
        return Some(ExtractedQuery(tagName, sql, parameterCount, tagStart + |tagName|, tagStart, index + 1,
                                   sqlOffsetMap, interpolations));
      }
      var piece := ScanPiece(source, index);
      if piece.None? {
        return None;
      }
      ReadPiece(source, backtick + 1, index, done, piece.value);
      AccumulatePiece(done, piece.value, placeholder, offset, sql, parameterCount, sqlOffsetMap, interpolations);
      done := Append(done, piece.value);
      match piece.value
      case Cooked(text, end) =>
        sql := sql + Units(text);
        sqlOffsetMap := sqlOffsetMap + Origins(text);
        index := end;
      case Interpolated(hole) =>
        parameterCount := parameterCount + 1;
        var sqlStart := |sql|;
        var marker := placeholder(offset + parameterCount);
        sql := sql + marker;
        sqlOffsetMap := sqlOffsetMap + Repeat(hole.start, |marker|);
        interpolations := interpolations + [Described(parameterCount, hole, sqlStart, |sql|)];
        index := hole.end;
    }
    return None;
  }
}
