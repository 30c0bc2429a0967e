/**
 * A grammar of the code the scanner skips (packages/compiler/src/scanner.ts): what it calls strings, comments, braces
 * and templates with interpolations. Printed code is skipped exactly, however deeply these are nested.
 */
module CodeGrammar {
  import opened Text
  import opened Scanner

  datatype Code = Nothing | Then(item: Item, rest: Code)

  datatype Item =
    | Plain(unit: Unit)
    | Quoted(quote: Unit, quoted: QuotedBody)
    | LineComment(comment: Text)
    | BlockComment(comment: Text)
    | Braces(code: Code)
    | Template(body: TemplateBody)

  datatype QuotedBody =
    | QuoteCloses
    | QuotedUnit(unit: Unit, rest: QuotedBody)
    | QuotedEscape(unit: Unit, rest: QuotedBody)

  datatype TemplateBody =
    | TemplateCloses
    | BodyUnit(unit: Unit, rest: TemplateBody)
    | BodyEscape(unit: Unit, rest: TemplateBody)
    | BodyCode(code: Code, rest: TemplateBody)

  // ---------------------------------------------------------------------------
  // Printing
  // ---------------------------------------------------------------------------

  function PrintCode(code: Code): Text {
    match code
    case Nothing => []
    case Then(item, rest) => PrintItem(item) + PrintCode(rest)
  }

  function PrintItem(item: Item): (text: Text)
    ensures text != []
  {
    match item
    case Plain(unit) => [unit]
    case Quoted(quote, body) => [quote] + PrintQuoted(body, quote)
    case LineComment(comment) => [SLASH, SLASH] + (comment + [LF])
    case BlockComment(comment) => [SLASH, STAR] + (comment + [STAR, SLASH])
    case Braces(code) => [OPEN_BRACE] + (PrintCode(code) + [CLOSE_BRACE])
    case Template(body) => [BACKTICK] + PrintBody(body)
  }

  function PrintQuoted(body: QuotedBody, quote: Unit): Text {
    match body
    case QuoteCloses => [quote]
    case QuotedUnit(unit, rest) => [unit] + PrintQuoted(rest, quote)
    case QuotedEscape(unit, rest) => [BACKSLASH, unit] + PrintQuoted(rest, quote)
  }

  function PrintBody(body: TemplateBody): (text: Text)
    ensures text != []
  {
    match body
    case TemplateCloses => [BACKTICK]
    case BodyUnit(unit, rest) => [unit] + PrintBody(rest)
    case BodyEscape(unit, rest) => [BACKSLASH, unit] + PrintBody(rest)
    case BodyCode(code, rest) => [DOLLAR, OPEN_BRACE] + ((PrintCode(code) + [CLOSE_BRACE]) + PrintBody(rest))
  }

  // ---------------------------------------------------------------------------
  // What may stand where
  // ---------------------------------------------------------------------------

  /** A plain unit begins nothing else; a slash is one when no comment begins with it. */
  predicate IsPlain(unit: Unit, next: Option<Unit>) {
    && unit !in {DOUBLE_QUOTE, SINGLE_QUOTE, BACKTICK, OPEN_BRACE, CLOSE_BRACE}
    && (unit == SLASH ==> next != Some(SLASH) && next != Some(STAR))
  }

  predicate CodeIsWellFormed(code: Code) {
    match code
    case Nothing => true
    case Then(item, rest) =>
      && ItemIsWellFormed(item) && CodeIsWellFormed(rest)
      && (item.Plain? ==> IsPlain(item.unit, At(PrintCode(rest), 0)))
  }

  predicate ItemIsWellFormed(item: Item) {
    match item
    case Plain(_) => true
    case Quoted(quote, body) => (quote == DOUBLE_QUOTE || quote == SINGLE_QUOTE) && QuotedIsWellFormed(body, quote)
    case LineComment(comment) => LF !in comment
    case BlockComment(comment) => IndexOf(comment + [STAR, SLASH], [STAR, SLASH], 0) == |comment|
    case Braces(code) => CodeIsWellFormed(code)
    case Template(body) => BodyIsWellFormed(body)
  }

  predicate QuotedIsWellFormed(body: QuotedBody, quote: Unit) {
    match body
    case QuoteCloses => true
    case QuotedUnit(unit, rest) => unit != quote && unit != BACKSLASH && QuotedIsWellFormed(rest, quote)
    case QuotedEscape(_, rest) => QuotedIsWellFormed(rest, quote)
  }

  predicate BodyIsWellFormed(body: TemplateBody) {
    match body
    case TemplateCloses => true
    case BodyUnit(unit, rest) =>
      && unit != BACKTICK && unit != BACKSLASH && (unit == DOLLAR ==> PrintBody(rest)[0] != OPEN_BRACE)
      && BodyIsWellFormed(rest)
    case BodyEscape(_, rest) => BodyIsWellFormed(rest)
    case BodyCode(code, rest) => CodeIsWellFormed(code) && BodyIsWellFormed(rest)
  }

  // ---------------------------------------------------------------------------
  // Skipping what has been printed
  // ---------------------------------------------------------------------------

  /** `text` stands in the source at `i`. */
  predicate Stands(source: Text, i: nat, text: Text) {
    i + |text| <= |source| && source[i..i + |text|] == text
  }

  lemma SliceOfSlice(source: Text, i: nat, j: nat, from: nat, to: nat)
    requires i <= j <= |source| && from <= to <= j - i
    ensures source[i..j][from..to] == source[i + from..i + to]
  {
    var outer, inner := source[i..j], source[i + from..i + to];
    forall k | 0 <= k < to - from ensures outer[from..to][k] == inner[k] {
      assert outer[from + k] == source[i + (from + k)];
    }
  }

  lemma StandsApart(source: Text, i: nat, a: Text, b: Text)
    requires Stands(source, i, a + b)
    ensures Stands(source, i, a) && Stands(source, i + |a|, b)
  {
    var middle, end := i + |a|, i + |a| + |b|;
    assert source[i..end] == a + b;
    assert source[i..middle] == (a + b)[..|a|] == a;
    assert source[middle..end] == (a + b)[|a|..] == b;
  }

  lemma StandsFirst(source: Text, i: nat, text: Text)
    requires Stands(source, i, text) && text != []
    ensures source[i] == text[0]
  {
    assert source[i..i + |text|][0] == source[i];
  }

  lemma StandsOne(source: Text, i: nat, unit: Unit, rest: Text)
    requires Stands(source, i, [unit] + rest)
    ensures i + 1 <= |source| && source[i] == unit && Stands(source, i + 1, rest)
  {
    StandsApart(source, i, [unit], rest);
    StandsFirst(source, i, [unit]);
  }

  lemma StandsTwo(source: Text, i: nat, first: Unit, second: Unit, rest: Text)
    requires Stands(source, i, [first, second] + rest)
    ensures i + 2 <= |source| && source[i] == first && source[i + 1] == second && Stands(source, i + 2, rest)
  {
    assert [first, second] + rest == [first] + ([second] + rest);
    StandsOne(source, i, first, [second] + rest);
    StandsOne(source, i + 1, second, rest);
  }

  lemma {:induction false} QuotedIsSkipped(source: Text, i: nat, body: QuotedBody, quote: Unit)
    requires QuotedIsWellFormed(body, quote) && quote != BACKSLASH && Stands(source, i, PrintQuoted(body, quote))
    ensures QuoteEnd(source, i, quote) == i + |PrintQuoted(body, quote)|
    decreases body
  {
    match body
    case QuoteCloses => StandsFirst(source, i, [quote]);
    case QuotedUnit(unit, rest) =>
      StandsOne(source, i, unit, PrintQuoted(rest, quote));
      QuotedIsSkipped(source, i + 1, rest, quote);
    case QuotedEscape(unit, rest) =>
      StandsTwo(source, i, BACKSLASH, unit, PrintQuoted(rest, quote));
      QuotedIsSkipped(source, i + 2, rest, quote);
  }

  lemma IndexOfStep(text: Text, needle: Text, from: nat, end: nat)
    requires needle != [] && end == from + |needle|
    ensures end > |text| ==> IndexOf(text, needle, from) == |text|
    ensures end <= |text| ==>
      IndexOf(text, needle, from) == if text[from..end] == needle then from else IndexOf(text, needle, from + 1)
  {
  }

  lemma StandsWithin(source: Text, i: nat, text: Text, from: nat, to: nat, start: nat, end: nat)
    requires Stands(source, i, text) && from <= to <= |text| && start == i + from && end == i + to
    ensures end <= |source| && source[start..end] == text[from..to]
  {
    SliceOfSlice(source, i, i + |text|, from, to);
  }

  /** A needle first found at some place of a text is found there in a source where that text stands. */
  lemma {:induction false} FoundWhereItStands(source: Text, i: nat, text: Text, needle: Text, from: nat, at: nat,
                                              start: nat, found: nat)
    requires needle != [] && Stands(source, i, text) && from <= |text| && IndexOf(text, needle, from) == at < |text|
    requires start == i + from && found == i + at
    ensures IndexOf(source, needle, start) == found
    decreases |text| - from
  {
    var to, end := from + |needle|, start + |needle|;
    IndexOfStep(text, needle, from, to);
    StandsWithin(source, i, text, from, to, start, end);
    IndexOfStep(source, needle, start, end);
    if text[from..to] != needle {
      FoundWhereItStands(source, i, text, needle, from + 1, at, start + 1, found);
    }
  }

  lemma {:induction false} FirstLineFeed(comment: Text, from: nat)
    requires LF !in comment && from <= |comment|
    ensures IndexOf(comment + [LF], [LF], from) == |comment|
    decreases |comment| - from
  {
    var text := comment + [LF];
    assert text[from..from + 1] == [text[from]];
    if from < |comment| {
      FirstLineFeed(comment, from + 1);
    }
  }

  lemma LineCommentIsSkipped(source: Text, i: nat, comment: Text)
    requires LF !in comment && Stands(source, i, [SLASH, SLASH] + (comment + [LF]))
    ensures TokenEnd(source, i) == i + |comment| + 3 && source[i] == SLASH
  {
    StandsTwo(source, i, SLASH, SLASH, comment + [LF]);
    FirstLineFeed(comment, 0);
    FoundWhereItStands(source, i + 2, comment + [LF], [LF], 0, |comment|, i + 2, i + 2 + |comment|);
  }

  lemma BlockCommentToken(source: Text, i: nat, end: nat)
    requires i + 2 <= |source| && source[i] == SLASH && source[i + 1] == STAR
    requires IndexOf(source, [STAR, SLASH], i + 2) == end < |source|
    ensures TokenEnd(source, i) == end + 2
  {
  }

  lemma BlockCommentIsSkipped(source: Text, i: nat, comment: Text)
    requires IndexOf(comment + [STAR, SLASH], [STAR, SLASH], 0) == |comment|
    requires Stands(source, i, [SLASH, STAR] + (comment + [STAR, SLASH]))
    ensures TokenEnd(source, i) == i + |comment| + 4 && source[i] == SLASH
  {
    StandsTwo(source, i, SLASH, STAR, comment + [STAR, SLASH]);
    FoundWhereItStands(source, i + 2, comment + [STAR, SLASH], [STAR, SLASH], 0, |comment|, i + 2, i + 2 + |comment|);
    BlockCommentToken(source, i, i + 2 + |comment|);
  }

  /** Every item but braces is one token, and no brace. */
  lemma {:induction false} ItemIsOneToken(source: Text, i: nat, item: Item)
    requires ItemIsWellFormed(item) && !item.Braces? && Stands(source, i, PrintItem(item))
    requires item.Plain? ==> IsPlain(item.unit, At(source, i + 1))
    ensures i < |source| && TokenEnd(source, i) == i + |PrintItem(item)|
    ensures source[i] != OPEN_BRACE && source[i] != CLOSE_BRACE
    decreases item, 0
  {
    match item
    case Plain(unit) => StandsFirst(source, i, [unit]);
    case Quoted(quote, body) =>
      StandsOne(source, i, quote, PrintQuoted(body, quote));
      QuotedIsSkipped(source, i + 1, body, quote);
    case LineComment(comment) => LineCommentIsSkipped(source, i, comment);
    case BlockComment(comment) => BlockCommentIsSkipped(source, i, comment);
    case Template(body) =>
      StandsOne(source, i, BACKTICK, PrintBody(body));
      TemplateIsSkipped(source, i + 1, body, i + 1 + |PrintBody(body)|);
  }

  lemma UnitIsSkipped(source: Text, i: nat, unit: Unit, rest: TemplateBody)
    requires BodyIsWellFormed(BodyUnit(unit, rest)) && Stands(source, i, PrintBody(BodyUnit(unit, rest)))
    ensures Stands(source, i + 1, PrintBody(rest)) && TemplateEnd(source, i) == TemplateEnd(source, i + 1)
  {
    StandsOne(source, i, unit, PrintBody(rest));
    StandsFirst(source, i + 1, PrintBody(rest));
  }

  lemma EscapeIsSkipped(source: Text, i: nat, unit: Unit, rest: TemplateBody)
    requires Stands(source, i, PrintBody(BodyEscape(unit, rest)))
    ensures Stands(source, i + 2, PrintBody(rest)) && TemplateEnd(source, i) == TemplateEnd(source, i + 2)
  {
    StandsTwo(source, i, BACKSLASH, unit, PrintBody(rest));
  }

  lemma InterpolationOpens(source: Text, i: nat, code: Code, rest: TemplateBody)
    requires Stands(source, i, PrintBody(BodyCode(code, rest)))
    ensures Stands(source, i + 2, PrintCode(code) + [CLOSE_BRACE])
    ensures Stands(source, i + 3 + |PrintCode(code)|, PrintBody(rest))
    ensures TemplateEnd(source, i) == TemplateEnd(source, CodeEnd(source, i + 2, 1))
  {
    var inner := PrintCode(code) + [CLOSE_BRACE];
    StandsTwo(source, i, DOLLAR, OPEN_BRACE, inner + PrintBody(rest));
    StandsApart(source, i + 2, inner, PrintBody(rest));
  }

  /** A printed template body ends exactly at its own closing backtick. */
  lemma {:induction false} TemplateIsSkipped(source: Text, i: nat, body: TemplateBody, end: nat)
    requires BodyIsWellFormed(body) && Stands(source, i, PrintBody(body)) && end == i + |PrintBody(body)|
    ensures TemplateEnd(source, i) == end
    decreases body, 0
  {
    match body
    case TemplateCloses => StandsFirst(source, i, [BACKTICK]);
    case BodyUnit(unit, rest) =>
      UnitIsSkipped(source, i, unit, rest);
      TemplateIsSkipped(source, i + 1, rest, end);
    case BodyEscape(unit, rest) =>
      EscapeIsSkipped(source, i, unit, rest);
      TemplateIsSkipped(source, i + 2, rest, end);
    case BodyCode(code, rest) =>
      InterpolationOpens(source, i, code, rest);
      CodeIsSkipped(source, i + 2, code);
      TemplateIsSkipped(source, i + 3 + |PrintCode(code)|, rest, end);
  }

  /** Printed code leaves the depth as it was. */
  lemma {:induction false} CodeIsPassed(source: Text, i: nat, code: Code, depth: nat, end: nat)
    requires CodeIsWellFormed(code) && depth > 0 && Stands(source, i, PrintCode(code) + [CLOSE_BRACE])
    requires end == i + |PrintCode(code)|
    ensures CodeEnd(source, i, depth) == CodeEnd(source, end, depth)
    decreases code, 0
  {
    if code.Then? {
      var item, rest := code.item, code.rest;
      var next := i + |PrintItem(item)|;
      Associate(PrintItem(item), PrintCode(rest), [CLOSE_BRACE]);
      StandsApart(source, i, PrintItem(item), PrintCode(rest) + [CLOSE_BRACE]);
      if item.Braces? {
        BracesArePassed(source, i, item.code, depth, next);
      } else {
        TokenIsPassed(source, i, item, rest, depth, next);
      }
      CodeIsPassed(source, next, rest, depth, end);
    }
  }

  lemma {:induction false} BracesArePassed(source: Text, i: nat, code: Code, depth: nat, next: nat)
    requires CodeIsWellFormed(code) && depth > 0 && Stands(source, i, PrintItem(Braces(code)))
    requires next == i + |PrintItem(Braces(code))|
    ensures CodeEnd(source, i, depth) == CodeEnd(source, next, depth)
    decreases code, 1
  {
    var start, end := i + 1, next - 1;
    StandsOne(source, i, OPEN_BRACE, PrintCode(code) + [CLOSE_BRACE]);
    CodeIsPassed(source, start, code, depth + 1, end);
    StandsApart(source, start, PrintCode(code), [CLOSE_BRACE]);
    StandsFirst(source, end, [CLOSE_BRACE]);
    BraceOpens(source, i, depth);
    BraceCloses(source, end, depth);
  }

  lemma BraceOpens(source: Text, i: nat, depth: nat)
    requires i < |source| && source[i] == OPEN_BRACE && depth > 0
    ensures CodeEnd(source, i, depth) == CodeEnd(source, i + 1, depth + 1)
  {
  }

  lemma BraceCloses(source: Text, i: nat, depth: nat)
    requires i < |source| && source[i] == CLOSE_BRACE && depth > 0
    ensures CodeEnd(source, i, depth + 1) == CodeEnd(source, i + 1, depth)
  {
  }

  lemma TokenPasses(source: Text, i: nat, depth: nat, next: nat)
    requires i < |source| && source[i] != OPEN_BRACE && source[i] != CLOSE_BRACE && depth > 0
    requires TokenEnd(source, i) == next
    ensures CodeEnd(source, i, depth) == CodeEnd(source, next, depth)
  {
  }

  lemma {:induction false} TokenIsPassed(source: Text, i: nat, item: Item, rest: Code, depth: nat, next: nat)
    requires CodeIsWellFormed(Then(item, rest)) && !item.Braces? && depth > 0
    requires next == i + |PrintItem(item)|
    requires Stands(source, i, PrintItem(item)) && Stands(source, next, PrintCode(rest) + [CLOSE_BRACE])
    ensures CodeEnd(source, i, depth) == CodeEnd(source, next, depth)
    decreases item, 1
  {
    StandsFirst(source, next, PrintCode(rest) + [CLOSE_BRACE]);
    ItemIsOneToken(source, i, item);
    TokenPasses(source, i, depth, next);
  }

  /** Printed code, followed by the brace that closes it, is skipped to just behind that brace. */
  lemma {:induction false} CodeIsSkipped(source: Text, i: nat, code: Code)
    requires CodeIsWellFormed(code) && Stands(source, i, PrintCode(code) + [CLOSE_BRACE])
    ensures CodeEnd(source, i, 1) == i + |PrintCode(code)| + 1
    decreases code, 2
  {
    var end := i + |PrintCode(code)|;
    CodeIsPassed(source, i, code, 1, end);
    StandsApart(source, i, PrintCode(code), [CLOSE_BRACE]);
    StandsFirst(source, end, [CLOSE_BRACE]);
  }
}
