/**
 * Type texts with a meaning (packages/compiler/src/verification.ts, parameterTypeCompatible): a grammar of unions,
 * literals, brackets and generics, how it is printed, and the values each type has. The split at top-level bars knows
 * nothing of angle brackets; here it is compared with the members a union really has.
 */
module UnionGrammar {
  import opened Text
  import opened UnionTypes

  const LESS: Unit := 0x3C
  const GREATER: Unit := 0x3E
  const COMMA: Unit := 0x2C
  const COLON: Unit := 0x3A
  const ROUND: Unit := 0x28
  const SQUARE: Unit := 0x5B
  const CURLY: Unit := 0x7B

  datatype Type = Just(member: Member) | Or(member: Member, rest: Type)

  /** What stands in brackets: the fields of an object have labels. */
  datatype Items = One(field: Option<Text>, t: Type) | Then(field: Option<Text>, t: Type, rest: Items)

  datatype Member =
    | Word(word: Text)
    | Quoted(quote: Unit, body: Text)
    | Bracketed(bracket: Unit, items: Items)
    | Generic(word: Text, items: Items)

  function Closing(bracket: Unit): Unit {
    if bracket == ROUND then 0x29 else if bracket == SQUARE then 0x5D else 0x7D
  }

  // ---------------------------------------------------------------------------
  // Printing
  // ---------------------------------------------------------------------------

  /** The text of a member with `tail` behind it. */
  function PrintMember(member: Member, tail: Text): Text {
    match member
    case Word(word) => word + tail
    case Quoted(quote, body) => [quote] + (body + ([quote] + tail))
    case Bracketed(bracket, items) => [bracket] + PrintItems(items, [Closing(bracket)] + tail)
    case Generic(word, items) => word + ([LESS] + PrintItems(items, [GREATER] + tail))
  }

  function PrintItems(items: Items, tail: Text): Text {
    match items
    case One(field, t) => PrintField(field, PrintType(t, tail))
    case Then(field, t, rest) => PrintField(field, PrintType(t, [COMMA] + ([SPACE] + PrintItems(rest, tail))))
  }

  function PrintField(field: Option<Text>, tail: Text): Text {
    if field.None? then tail else field.value + ([COLON] + ([SPACE] + tail))
  }

  function PrintType(t: Type, tail: Text): Text {
    match t
    case Just(member) => PrintMember(member, tail)
    case Or(member, rest) => PrintMember(member, [SPACE] + ([BAR] + ([SPACE] + PrintType(rest, tail))))
  }

  function TextOf(t: Type): Text {
    PrintType(t, [])
  }

  function MemberText(member: Member): Text {
    PrintMember(member, [])
  }

  /** The members a type really has. */
  function MembersOf(t: Type): seq<Member> {
    match t
    case Just(member) => [member]
    case Or(member, rest) => [member] + MembersOf(rest)
  }

  function MemberTexts(t: Type): seq<Text> {
    match t
    case Just(member) => [MemberText(member)]
    case Or(member, rest) => [MemberText(member)] + MemberTexts(rest)
  }

  // ---------------------------------------------------------------------------
  // What is well formed
  // ---------------------------------------------------------------------------

  predicate IsWordUnit(unit: Unit) {
    && !IsSpace(unit) && !IsOpening(unit) && !IsClosing(unit)
    && unit !in {QUOTE, APOSTROPHE, BACKSLASH, BAR, LESS, GREATER, COMMA, COLON}
  }

  predicate IsWord(text: Text) {
    text != [] && forall i :: 0 <= i < |text| ==> IsWordUnit(text[i])
  }

  /** No quote closes the body before its end, and its last escape is whole. */
  predicate IsBody(body: Text, quote: Unit) {
    if body == [] then true
    else if body[0] == BACKSLASH then |body| >= 2 && IsBody(body[2..], quote)
    else body[0] != quote && IsBody(body[1..], quote)
  }

  predicate MemberIsWellFormed(member: Member) {
    match member
    case Word(word) => IsWord(word)
    case Quoted(quote, body) => (quote == QUOTE || quote == APOSTROPHE) && IsBody(body, quote)
    case Bracketed(bracket, items) =>
      && (bracket == ROUND || bracket == SQUARE || bracket == CURLY) && ItemsAreWellFormed(items, bracket == CURLY)
      && (bracket == ROUND ==> items.One?)
    case Generic(word, items) => IsWord(word) && ItemsAreWellFormed(items, false)
  }

  predicate ItemsAreWellFormed(items: Items, named: bool) {
    && (if named then items.field.Some? && IsWord(items.field.value) else items.field.None?)
    && TypeIsWellFormed(items.t)
    && (items.Then? ==> ItemsAreWellFormed(items.rest, named))
  }

  predicate TypeIsWellFormed(t: Type) {
    MemberIsWellFormed(t.member) && (t.Or? ==> TypeIsWellFormed(t.rest))
  }

  // ---------------------------------------------------------------------------
  // Every text reads in one way
  // ---------------------------------------------------------------------------

  /** What may stand behind a member, behind a whole type, behind a list. */
  predicate EndsMember(tail: Text) {
    tail != [] ==> !IsWordUnit(tail[0]) && tail[0] != LESS
  }

  predicate EndsType(tail: Text) {
    EndsMember(tail) && (tail != [] ==> tail[0] != SPACE)
  }

  predicate EndsItems(tail: Text) {
    EndsType(tail) && tail != [] && tail[0] != COMMA
  }

  /** How many word units a text begins with. */
  function WordLength(text: Text): nat {
    if text != [] && IsWordUnit(text[0]) then 1 + WordLength(text[1..]) else 0
  }

  lemma {:induction false} WordIsMeasured(a: Text, x: Text)
    requires (forall i :: 0 <= i < |a| ==> IsWordUnit(a[i])) && (x != [] ==> !IsWordUnit(x[0]))
    ensures WordLength(a + x) == |a|
  {
    if a == [] {
      assert a + x == x;
    } else {
      assert (a + x)[1..] == a[1..] + x;
      WordIsMeasured(a[1..], x);
    }
  }

  lemma WordReads(a: Text, b: Text, x: Text, y: Text)
    requires (forall i :: 0 <= i < |a| ==> IsWordUnit(a[i])) && (forall i :: 0 <= i < |b| ==> IsWordUnit(b[i]))
    requires a + x == b + y && (x != [] ==> !IsWordUnit(x[0])) && (y != [] ==> !IsWordUnit(y[0]))
    ensures a == b && x == y
  {
    WordIsMeasured(a, x);
    WordIsMeasured(b, y);
    assert a == (a + x)[..|a|] && b == (b + y)[..|b|];
    assert x == (a + x)[|a|..] && y == (b + y)[|b|..];
  }

  lemma {:induction false} BodyReads(a: Text, b: Text, quote: Unit, x: Text, y: Text)
    requires IsBody(a, quote) && IsBody(b, quote) && quote != BACKSLASH
    requires a + ([quote] + x) == b + ([quote] + y)
    ensures a == b && x == y
    decreases |a|
  {
    var whole, other := a + ([quote] + x), b + ([quote] + y);
    assert whole[0] == if a == [] then quote else a[0];
    assert other[0] == if b == [] then quote else b[0];
    if a == [] || b == [] {
      assert whole[|a| + 1..] == x && other[|b| + 1..] == y;
    } else {
      var n := if a[0] == BACKSLASH then 2 else 1;
      assert whole[n..] == a[n..] + ([quote] + x) && other[n..] == b[n..] + ([quote] + y);
      BodyReads(a[n..], b[n..], quote, x, y);
      assert a[..n] == whole[..n] == other[..n] == b[..n];
      assert a == a[..n] + a[n..] && b == b[..n] + b[n..];
    }
  }

  /** The unit a member begins with tells words, quotes and brackets apart. */
  lemma MemberStarts(member: Member, tail: Text)
    requires MemberIsWellFormed(member)
    ensures PrintMember(member, tail) != []
    ensures var first := PrintMember(member, tail)[0];
      match member
      case Word(word) => first == word[0] && IsWordUnit(first)
      case Quoted(quote, _) => first == quote
      case Bracketed(bracket, _) => first == bracket
      case Generic(word, _) => first == word[0] && IsWordUnit(first)
  {
  }

  lemma {:induction false} MemberReads(a: Member, b: Member, x: Text, y: Text)
    requires MemberIsWellFormed(a) && MemberIsWellFormed(b) && EndsMember(x) && EndsMember(y)
    requires PrintMember(a, x) == PrintMember(b, y)
    ensures a == b && x == y
    decreases a
  {
    MemberStarts(a, x);
    MemberStarts(b, y);
    match a
    case Word(word) =>
      WordReads(word, b.word, x, if b.Word? then y else [LESS] + PrintItems(b.items, [GREATER] + y));
    case Quoted(quote, body) =>
      assert PrintMember(a, x)[1..] == body + ([quote] + x) && PrintMember(b, y)[1..] == b.body + ([quote] + y);
      BodyReads(body, b.body, quote, x, y);
    case Bracketed(bracket, items) =>
      var p, q := [Closing(bracket)] + x, [Closing(bracket)] + y;
      assert PrintMember(a, x)[1..] == PrintItems(items, p) && PrintMember(b, y)[1..] == PrintItems(b.items, q);
      ItemsRead(items, b.items, bracket == CURLY, p, q);
      assert p[1..] == x && q[1..] == y;
    case Generic(word, items) =>
      var p, q := [GREATER] + x, [GREATER] + y;
      WordReads(word, b.word, [LESS] + PrintItems(items, p), if b.Word? then y else [LESS] + PrintItems(b.items, q));
      assert ([LESS] + PrintItems(items, p))[1..] == PrintItems(items, p);
      assert ([LESS] + PrintItems(b.items, q))[1..] == PrintItems(b.items, q);
      ItemsRead(items, b.items, false, p, q);
      assert p[1..] == x && q[1..] == y;
  }

  lemma {:induction false} ItemsRead(a: Items, b: Items, named: bool, x: Text, y: Text)
    requires ItemsAreWellFormed(a, named) && ItemsAreWellFormed(b, named) && EndsItems(x) && EndsItems(y)
    requires PrintItems(a, x) == PrintItems(b, y)
    ensures a == b && x == y
    decreases a
  {
    var p := if a.One? then x else [COMMA] + ([SPACE] + PrintItems(a.rest, x));
    var q := if b.One? then y else [COMMA] + ([SPACE] + PrintItems(b.rest, y));
    FieldReads(a.field, b.field, PrintType(a.t, p), PrintType(b.t, q), named);
    TypeReads(a.t, b.t, p, q);
    if a.Then? && b.Then? {
      CommaIsRead(p, q, PrintItems(a.rest, x), PrintItems(b.rest, y));
      ItemsRead(a.rest, b.rest, named, x, y);
    }
  }

  lemma FieldReads(a: Option<Text>, b: Option<Text>, x: Text, y: Text, named: bool)
    requires if named then a.Some? && b.Some? && IsWord(a.value) && IsWord(b.value) else a.None? && b.None?
    requires PrintField(a, x) == PrintField(b, y)
    ensures a == b && x == y
  {
    if named {
      var p, q := [COLON] + ([SPACE] + x), [COLON] + ([SPACE] + y);
      WordReads(a.value, b.value, p, q);
      assert p[2..] == x && q[2..] == y;
    }
  }

  lemma {:induction false} TypeReads(a: Type, b: Type, x: Text, y: Text)
    requires TypeIsWellFormed(a) && TypeIsWellFormed(b) && EndsType(x) && EndsType(y)
    requires PrintType(a, x) == PrintType(b, y)
    ensures a == b && x == y
    decreases a
  {
    var p := if a.Just? then x else [SPACE] + ([BAR] + ([SPACE] + PrintType(a.rest, x)));
    var q := if b.Just? then y else [SPACE] + ([BAR] + ([SPACE] + PrintType(b.rest, y)));
    MemberReads(a.member, b.member, p, q);
    if a.Or? && b.Or? {
      BarIsRead(p, q, PrintType(a.rest, x), PrintType(b.rest, y));
      TypeReads(a.rest, b.rest, x, y);
    }
  }

  lemma BarIsRead(p: Text, q: Text, x: Text, y: Text)
    requires p == q && p == [SPACE] + ([BAR] + ([SPACE] + x)) && q == [SPACE] + ([BAR] + ([SPACE] + y))
    ensures x == y
  {
    assert p[3..] == x && q[3..] == y;
  }

  lemma CommaIsRead(p: Text, q: Text, x: Text, y: Text)
    requires p == q && p == [COMMA] + ([SPACE] + x) && q == [COMMA] + ([SPACE] + y)
    ensures x == y
  {
    assert p[2..] == x && q[2..] == y;
  }

  /** Types with the same text are the same. */
  lemma SameTextSameType(a: Type, b: Type)
    requires TypeIsWellFormed(a) && TypeIsWellFormed(b) && TextOf(a) == TextOf(b)
    ensures a == b
  {
    TypeReads(a, b, [], []);
  }

  lemma SameTextSameMember(a: Member, b: Member)
    requires MemberIsWellFormed(a) && MemberIsWellFormed(b) && MemberText(a) == MemberText(b)
    ensures a == b
  {
    MemberReads(a, b, [], []);
  }

  // ---------------------------------------------------------------------------
  // What the split sees
  // ---------------------------------------------------------------------------

  /** The bars the split takes for separators: those of the type itself, and those it finds inside angle brackets. */
  function SeenInMember(member: Member): nat {
    match member
    case Generic(_, items) => SeenInItems(items)
    case _ => 0
  }

  function SeenInItems(items: Items): nat {
    match items
    case One(_, t) => SeenInType(t)
    case Then(_, t, rest) => SeenInType(t) + SeenInItems(rest)
  }

  function SeenInType(t: Type): nat {
    match t
    case Just(member) => SeenInMember(member)
    case Or(member, rest) => SeenInMember(member) + 1 + SeenInType(rest)
  }

  /** A bar stands inside angle brackets, outside any other brackets. */
  predicate HidesBar(t: Type) {
    SeenInMember(t.member) > 0 || (t.Or? && HidesBar(t.rest))
  }

  /** The separators the scan meets in a text. */
  function Bars(s: State, text: Text): nat
    decreases |text|
  {
    if text == [] then 0
    else (if Separates(s, text[0]) then 1 else 0) + Bars(Step(s, text[0]), text[1..])
  }

  lemma {:induction false} CutsAreBarsAndOne(s: State, current: Text, text: Text)
    ensures |Cuts(s, current, text)| == Bars(s, text) + 1
    decreases |text|
  {
    if text != [] {
      CutsAreBarsAndOne(if Separates(s, text[0]) then s else Step(s, text[0]),
                        if Separates(s, text[0]) then [] else current + [text[0]], text[1..]);
    }
  }

  lemma {:induction false} NoBarsIsBarFree(s: State, text: Text)
    ensures Bars(s, text) == 0 <==> BarFree(s, text)
    decreases |text|
  {
    if text != [] {
      NoBarsIsBarFree(Step(s, text[0]), text[1..]);
    }
  }

  /** Passing a stretch in state `s`: as many separators as given, and the state it ends in. */
  ghost predicate Passes(s: State, text: Text, tail: Text, bars: nat, then_: State) {
    Bars(s, text) == bars + Bars(then_, tail) && After(s, text) == After(then_, tail)
  }

  lemma PassesUnit(s: State, unit: Unit, tail: Text)
    ensures Passes(s, [unit] + tail, tail, if Separates(s, unit) then 1 else 0, Step(s, unit))
  {
    assert ([unit] + tail)[1..] == tail;
  }

  lemma {:induction false} PassesWord(s: State, word: Text, tail: Text)
    requires s.quote.None? && forall i :: 0 <= i < |word| ==> IsWordUnit(word[i])
    ensures Passes(s, word + tail, tail, 0, s)
    decreases |word|
  {
    if word == [] {
      assert word + tail == tail;
    } else {
      assert (word + tail)[1..] == word[1..] + tail;
      assert Step(s, word[0]) == s;
      PassesWord(s, word[1..], tail);
    }
  }

  lemma {:induction false} PassesBody(s: State, body: Text, quote: Unit, tail: Text)
    requires s.quote == Some(quote) && !s.escaped && IsBody(body, quote) && quote != BACKSLASH
    ensures Passes(s, body + ([quote] + tail), tail, 0, s.(quote := None))
    decreases |body|
  {
    var text := body + ([quote] + tail);
    if body == [] {
      assert text == [quote] + tail;
      PassesUnit(s, quote, tail);
    } else if body[0] == BACKSLASH {
      var escaped := s.(escaped := true);
      assert text == [BACKSLASH] + ([body[1]] + (body[2..] + ([quote] + tail)));
      PassesUnit(s, BACKSLASH, [body[1]] + (body[2..] + ([quote] + tail)));
      PassesUnit(escaped, body[1], body[2..] + ([quote] + tail));
      PassesBody(s, body[2..], quote, tail);
    } else {
      assert text == [body[0]] + (body[1..] + ([quote] + tail));
      PassesUnit(s, body[0], body[1..] + ([quote] + tail));
      PassesBody(s, body[1..], quote, tail);
    }
  }

  /** Outside quotes; at depth zero bars are seen, deeper down none are. */
  function SeenAt(s: State, bars: nat): nat {
    if s.depth == 0 then bars else 0
  }

  lemma {:induction false} PassesMember(s: State, member: Member, tail: Text)
    requires s.quote.None? && !s.escaped && MemberIsWellFormed(member)
    ensures Passes(s, PrintMember(member, tail), tail, SeenAt(s, SeenInMember(member)), s)
    decreases member
  {
    match member
    case Word(word) => PassesWord(s, word, tail);
    case Quoted(quote, body) =>
      PassesUnit(s, quote, body + ([quote] + tail));
      PassesBody(s.(quote := Some(quote)), body, quote, tail);
    case Bracketed(bracket, items) =>
      var deeper, closing := s.(depth := s.depth + 1), [Closing(bracket)] + tail;
      PassesUnit(s, bracket, PrintItems(items, closing));
      PassesItems(deeper, items, bracket == CURLY, closing);
      PassesUnit(deeper, Closing(bracket), tail);
    case Generic(word, items) =>
      var closing := [GREATER] + tail;
      PassesWord(s, word, [LESS] + PrintItems(items, closing));
      PassesUnit(s, LESS, PrintItems(items, closing));
      PassesItems(s, items, false, closing);
      PassesUnit(s, GREATER, tail);
  }

  lemma {:induction false} PassesItems(s: State, items: Items, named: bool, tail: Text)
    requires s.quote.None? && !s.escaped && ItemsAreWellFormed(items, named)
    ensures Passes(s, PrintItems(items, tail), tail, SeenAt(s, SeenInItems(items)), s)
    decreases items
  {
    var then_ := if items.One? then tail else [COMMA] + ([SPACE] + PrintItems(items.rest, tail));
    PassesField(s, items.field, PrintType(items.t, then_));
    PassesType(s, items.t, then_);
    if items.Then? {
      PassesUnit(s, COMMA, [SPACE] + PrintItems(items.rest, tail));
      PassesUnit(s, SPACE, PrintItems(items.rest, tail));
      PassesItems(s, items.rest, named, tail);
    }
  }

  lemma PassesField(s: State, field: Option<Text>, tail: Text)
    requires s.quote.None? && (field.Some? ==> IsWord(field.value))
    ensures Passes(s, PrintField(field, tail), tail, 0, s)
  {
    if field.Some? {
      PassesWord(s, field.value, [COLON] + ([SPACE] + tail));
      PassesUnit(s, COLON, [SPACE] + tail);
      PassesUnit(s, SPACE, tail);
    }
  }

  lemma {:induction false} PassesType(s: State, t: Type, tail: Text)
    requires s.quote.None? && !s.escaped && TypeIsWellFormed(t)
    ensures Passes(s, PrintType(t, tail), tail, SeenAt(s, SeenInType(t)), s)
    decreases t
  {
    if t.Just? {
      PassesMember(s, t.member, tail);
    } else {
      var then_ := [SPACE] + ([BAR] + ([SPACE] + PrintType(t.rest, tail)));
      PassesMember(s, t.member, then_);
      PassesUnit(s, SPACE, [BAR] + ([SPACE] + PrintType(t.rest, tail)));
      PassesUnit(s, BAR, [SPACE] + PrintType(t.rest, tail));
      PassesUnit(s, SPACE, PrintType(t.rest, tail));
      PassesType(s, t.rest, tail);
    }
  }

  // ---------------------------------------------------------------------------
  // When the split finds the real members
  // ---------------------------------------------------------------------------

  lemma {:induction false} TailComesLast(member: Member, tail: Text)
    ensures PrintMember(member, tail) == MemberText(member) + tail
    decreases member
  {
    match member
    case Word(word) => assert word + [] == word;
    case Quoted(quote, body) =>
      assert body + ([quote] + []) + tail == body + ([quote] + tail);
    case Bracketed(bracket, items) => ItemsTailComesLast(items, [Closing(bracket)], tail);
    case Generic(word, items) => ItemsTailComesLast(items, [GREATER], tail);
  }

  lemma {:induction false} ItemsTailComesLast(items: Items, closing: Text, tail: Text)
    ensures PrintItems(items, closing + tail) == PrintItems(items, closing) + tail
    ensures PrintItems(items, closing + []) == PrintItems(items, closing)
    decreases items
  {
    assert closing + [] == closing;
    if items.One? {
      TypeTailComesLast(items.t, closing, tail);
    } else {
      ItemsTailComesLast(items.rest, closing, tail);
      var then_ := [COMMA] + ([SPACE] + PrintItems(items.rest, closing));
      assert [COMMA] + ([SPACE] + PrintItems(items.rest, closing + tail)) == then_ + tail;
      TypeTailComesLast(items.t, then_, tail);
    }
  }

  lemma {:induction false} TypeTailComesLast(t: Type, closing: Text, tail: Text)
    ensures PrintType(t, closing + tail) == PrintType(t, closing) + tail
    decreases t
  {
    if t.Just? {
      TailComesLast(t.member, closing + tail);
      TailComesLast(t.member, closing);
      Associate(MemberText(t.member), closing, tail);
    } else {
      TypeTailComesLast(t.rest, closing, tail);
      var then_ := [SPACE] + ([BAR] + ([SPACE] + PrintType(t.rest, closing)));
      var longer := [SPACE] + ([BAR] + ([SPACE] + PrintType(t.rest, closing + tail)));
      assert longer == then_ + tail;
      TailComesLast(t.member, longer);
      TailComesLast(t.member, then_);
      Associate(MemberText(t.member), then_, tail);
    }
  }

  /** A member's text begins and ends with no space. */
  lemma MemberIsTrimmed(member: Member)
    requires MemberIsWellFormed(member)
    ensures MemberText(member) != [] && Trimmed(MemberText(member))
  {
    var text := MemberText(member);
    MemberStarts(member, []);
    match member
    case Word(word) => assert text == word;
    case Quoted(quote, body) => assert text[|text| - 1] == quote;
    case Bracketed(bracket, items) =>
      var inner: Text := PrintItems(items, []);
      ItemsTailComesLast(items, [], [Closing(bracket)]);
      assert [] + [Closing(bracket)] == [Closing(bracket)] == [Closing(bracket)] + [];
      assert text[|text| - 1] == Closing(bracket);
    case Generic(word, items) =>
      ItemsTailComesLast(items, [], [GREATER]);
      assert [] + [GREATER] == [GREATER] == [GREATER] + [];
      assert text[|text| - 1] == GREATER;
  }

  lemma MemberIsPassed(member: Member)
    requires MemberIsWellFormed(member)
    ensures Bars(TOP, MemberText(member)) == SeenInMember(member) && After(TOP, MemberText(member)) == TOP
  {
    PassesMember(TOP, member, []);
  }

  lemma {:induction false} TextsAreJoined(t: Type)
    ensures Join(MemberTexts(t)) == TextOf(t) && MemberTexts(t) != []
  {
    if t.Or? {
      TextsAreJoined(t.rest);
      assert MemberTexts(t)[1..] == MemberTexts(t.rest);
      TailComesLast(t.member, [SPACE] + ([BAR] + ([SPACE] + TextOf(t.rest))));
      assert [SPACE] + ([BAR] + ([SPACE] + TextOf(t.rest))) == SEPARATOR + TextOf(t.rest);
    }
  }

  lemma {:induction false} MembersAreWellFormed(t: Type)
    requires TypeIsWellFormed(t) && !HidesBar(t)
    ensures WellFormed(MemberTexts(t))
    ensures forall i :: 0 <= i < |MemberTexts(t)| ==> After(TOP, MemberTexts(t)[i]) == TOP
  {
    MemberIsTrimmed(t.member);
    MemberIsPassed(t.member);
    NoBarsIsBarFree(TOP, MemberText(t.member));
    if t.Or? {
      MembersAreWellFormed(t.rest);
      var texts := MemberTexts(t);
      assert forall i :: 0 < i < |texts| ==> texts[i] == MemberTexts(t.rest)[i - 1];
    }
  }

  lemma {:induction false} HiddenBarsAreExtra(t: Type)
    ensures SeenInType(t) + 1 >= |MemberTexts(t)|
    ensures HidesBar(t) <==> SeenInType(t) + 1 > |MemberTexts(t)|
  {
    if t.Or? {
      HiddenBarsAreExtra(t.rest);
    }
  }

  /** The split finds the members a type really has exactly when no bar stands inside angle brackets. */
  lemma SplitIsRightIffNoBarIsHidden(t: Type)
    requires TypeIsWellFormed(t)
    ensures Members(TextOf(t)) == MemberTexts(t) <==> !HidesBar(t)
  {
    if HidesBar(t) {
      CutsAreBarsAndOne(TOP, [], TextOf(t));
      PassesType(TOP, t, []);
      HiddenBarsAreExtra(t);
    } else {
      MembersAreWellFormed(t);
      TextsAreJoined(t);
      JoinedMembersSplitBack(MemberTexts(t));
    }
  }
}
