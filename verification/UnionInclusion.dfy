/**
 * What compatibility of parameter types means (packages/compiler/src/verification.ts, parameterTypeCompatible): types
 * as sets of values, and when a compatible type is included in the accepted one.
 */
module UnionInclusion {
  import opened Text
  import opened UnionTypes
  import opened UnionGrammar

  // ---------------------------------------------------------------------------
  // A piece that ends inside angle brackets is no member
  // ---------------------------------------------------------------------------

  /** No well-formed member has this text, unless it hides a bar itself. */
  ghost predicate IsBroken(text: Text) {
    forall member: Member :: MemberIsWellFormed(member) && MemberText(member) == text ==> SeenInMember(member) > 0
  }

  /** The first cut of a text with a bar: the text up to that bar. */
  lemma {:induction false} FirstCut(s: State, current: Text, text: Text) returns (n: nat)
    requires Bars(s, text) > 0
    ensures n < |text| && text[n] == BAR
    ensures Cuts(s, current, text) != [] && Cuts(s, current, text)[0] == Trim(current + text[..n])
    decreases |text|
  {
    if Separates(s, text[0]) {
      n := 0;
      assert current + text[..0] == current;
    } else {
      var rest := FirstCut(Step(s, text[0]), current + [text[0]], text[1..]);
      n := rest + 1;
      assert current + [text[0]] + text[1..][..rest] == current + text[..n];
    }
  }

  /** Trimming a text that begins with no space leaves what comes before its last spaces. */
  lemma {:induction false} TrimEndStops(text: Text) returns (n: nat)
    ensures n <= |text| && TrimEnd(text) == text[..n] && (n < |text| ==> IsSpace(text[n]))
  {
    n := |text|;
    if text != [] && IsSpace(text[|text| - 1]) {
      n := TrimEndStops(text[..|text| - 1]);
      if n == |text| - 1 {
        assert text[..n] == text[..|text| - 1][..n];
      } else {
        assert text[..n] == text[..|text| - 1][..n] && text[n] == text[..|text| - 1][n];
      }
    } else {
      assert text[..n] == text;
    }
  }

  lemma TrimStops(text: Text, spaced: bool) returns (n: nat)
    requires text != [] && !IsSpace(text[0])
    ensures n <= |text| && Trim((if spaced then [SPACE] else []) + text) == text[..n]
    ensures n < |text| ==> IsSpace(text[n])
  {
    var whole := (if spaced then [SPACE] else []) + text;
    if spaced {
      assert whole[1..] == text;
    } else {
      assert whole == text;
    }
    assert TrimStart(whole) == text;
    n := TrimEndStops(text);
  }

  lemma FirstPieceIsBroken(member: Member, tail: Text, spaced: bool)
    requires MemberIsWellFormed(member) && SeenInMember(member) > 0 && EndsMember(tail)
    ensures var pieces := Cuts(TOP, if spaced then [SPACE] else [], PrintMember(member, tail));
      pieces != [] && IsBroken(pieces[0])
  {
    var text := PrintMember(member, tail);
    PassesMember(TOP, member, tail);
    var n := FirstCut(TOP, if spaced then [SPACE] else [], text);
    MemberStarts(member, tail);
    assert text[0] != BAR;
    var piece := text[..n];
    var length := TrimStops(piece, spaced);
    var end := text[..length];
    assert end == piece[..length];
    assert text == end + text[length..];
    assert text[length] == if length < n then piece[length] else BAR;
    forall other: Member | MemberIsWellFormed(other) && MemberText(other) == end ensures SeenInMember(other) > 0 {
      TailComesLast(other, text[length..]);
      MemberReads(member, other, tail, text[length..]);
    }
  }

  /** A type that hides a bar has a piece that is no member of any type that hides none. */
  lemma {:induction false} SomePieceIsBroken(t: Type, spaced: bool) returns (i: nat)
    requires TypeIsWellFormed(t) && HidesBar(t)
    ensures var pieces := Cuts(TOP, if spaced then [SPACE] else [], TextOf(t)); i < |pieces| && IsBroken(pieces[i])
  {
    var before: Text := if spaced then [SPACE] else [];
    if SeenInMember(t.member) > 0 {
      FirstPieceIsBroken(t.member, if t.Just? then [] else [SPACE] + ([BAR] + ([SPACE] + TextOf(t.rest))), spaced);
      CutsAreBarsAndOne(TOP, before, TextOf(t));
      i := 0;
    } else {
      var rest := SomePieceIsBroken(t.rest, true);
      var text := MemberText(t.member);
      var tail := [SPACE] + ([BAR] + ([SPACE] + TextOf(t.rest)));
      TailComesLast(t.member, tail);
      MemberIsPassed(t.member);
      NoBarsIsBarFree(TOP, text);
      CutsPass(TOP, before, text, tail);
      assert tail == SEPARATOR + TextOf(t.rest);
      SplitSeparator(before + text, TextOf(t.rest));
      i := rest + 1;
    }
  }

  // ---------------------------------------------------------------------------
  // Texts of primitive types
  // ---------------------------------------------------------------------------

  lemma {:induction false} DigitsAreWordUnits(text: Text, i: nat)
    requires i <= |text|
    ensures forall k :: i <= k < DigitsEnd(text, i) ==> IsWordUnit(text[k])
    decreases |text| - i
  {
    if i < |text| && IsDigit(text[i]) {
      DigitsAreWordUnits(text, i + 1);
    }
  }

  lemma IntegersAreWords(text: Text)
    requires IntegerEnd(text).Some?
    ensures forall k :: 0 <= k < IntegerEnd(text).value ==> IsWordUnit(text[k])
  {
    var from := if text[0] == 0x2D then 1 else 0;
    DigitsAreWordUnits(text, from + 1);
  }

  lemma NumbersAreWords(text: Text)
    requires IsNumber(text) || IsBigint(text)
    ensures IsWord(text)
  {
    var integer := IntegerEnd(text).value;
    IntegersAreWords(text);
    if IsNumber(text) {
      var fraction := FractionEnd(text, integer);
      if fraction > integer {
        DigitsAreWordUnits(text, integer + 1);
      }
      if fraction < |text| {
        var signed := fraction + 1 < |text| && (text[fraction + 1] == 0x2B || text[fraction + 1] == 0x2D);
        DigitsAreWordUnits(text, if signed then fraction + 2 else fraction + 1);
      }
    }
  }

  lemma LettersAreWords(word: string)
    requires word != "" && forall i :: 0 <= i < |word| ==> 'a' <= word[i] <= 'z'
    ensures IsWord(Ascii(word))
  {
    forall i | 0 <= i < |word| ensures IsWordUnit(Ascii(word)[i]) {
      assert Ascii(word)[i] == word[i] as int;
    }
  }

  lemma NamesAreWords(primitive: Primitive)
    ensures IsWord(NameOf(primitive))
  {
    match primitive
    case StringType => LettersAreWords("string");
    case NumberType => LettersAreWords("number");
    case BigintType => LettersAreWords("bigint");
    case BooleanType => LettersAreWords("boolean");
    case NullType => LettersAreWords("null");
    case UndefinedType => LettersAreWords("undefined");
  }

  lemma BooleansAreWords()
    ensures IsWord(TRUE) && IsWord(FALSE)
  {
    LettersAreWords("true");
    LettersAreWords("false");
  }

  /** The rest of a JSON string is a body and its closing quote. */
  lemma {:induction false} JsonTailsAreBodies(text: Text)
    requires JsonTail(text)
    ensures text != [] && text[|text| - 1] == QUOTE && IsBody(text[..|text| - 1], QUOTE)
  {
    var body := text[..|text| - 1];
    if text[0] == QUOTE {
      assert body == [];
    } else if text[0] != BACKSLASH {
      JsonTailsAreBodies(text[1..]);
      assert body[1..] == text[1..][..|text| - 2];
    } else if text[1] == 0x75 {
      var rest := text[6..];
      JsonTailsAreBodies(rest);
      assert body[6..] == rest[..|rest| - 1];
      FourUnits(body);
    } else {
      JsonTailsAreBodies(text[2..]);
      assert body[2..] == text[2..][..|text| - 3];
    }
  }

  lemma FourUnits(body: Text)
    requires |body| >= 6 && body[0] == BACKSLASH && IsBody(body[6..], QUOTE)
    requires forall k :: 2 <= k < 6 ==> IsHex(body[k])
    ensures IsBody(body, QUOTE)
  {
    assert body[5..][1..] == body[6..] && IsBody(body[5..], QUOTE);
    assert body[4..][1..] == body[5..] && IsBody(body[4..], QUOTE);
    assert body[3..][1..] == body[4..] && IsBody(body[3..], QUOTE);
    assert body[2..][1..] == body[3..] && IsBody(body[2..], QUOTE);
  }

  lemma JsonStringsAreQuoted(text: Text) returns (member: Member)
    requires IsJsonString(text)
    ensures member.Quoted? && MemberIsWellFormed(member) && MemberText(member) == text
  {
    JsonTailsAreBodies(text[1..]);
    var body := text[1..][..|text| - 2];
    member := Quoted(QUOTE, body);
    assert text == [QUOTE] + (body + [QUOTE]);
    assert [QUOTE] + [] == [QUOTE];
  }

  lemma PrimitivesAreWords(text: Text)
    requires PrimitiveOf(text).Some? && !IsJsonString(text)
    ensures IsWord(text)
  {
    if IsNumber(text) || IsBigint(text) {
      NumbersAreWords(text);
    } else if text == TRUE || text == FALSE {
      BooleansAreWords();
    } else {
      NamesAreWords(PrimitiveOf(text).value);
    }
  }

  /** Only words and quoted texts are primitive types or literals of one. */
  lemma PrimitivesAreSimple(text: Text) returns (member: Member)
    requires PrimitiveOf(text).Some?
    ensures MemberIsWellFormed(member) && MemberText(member) == text && (member.Word? || member.Quoted?)
  {
    if IsJsonString(text) {
      member := JsonStringsAreQuoted(text);
    } else {
      PrimitivesAreWords(text);
      member := Word(text);
      assert text + [] == text;
    }
  }

  // ---------------------------------------------------------------------------
  // Types as sets of values
  // ---------------------------------------------------------------------------

  /** A value is of a primitive type, or it is a tuple or an object of values, or something else. */
  datatype Value =
    | OfPrimitive(primitive: Primitive, content: Text)
    | Tuple(elements: seq<Value>)
    | Object(fields: map<Text, Value>)
    | Opaque(id: int)

  /**
   * What the grammar leaves open: the content a literal denotes, the values of a name, and what a generic makes of
   * sets.
   */
  datatype Reading = Reading(
    content: Text -> Text, named: (Text, Value) -> bool, generic: (Text, seq<iset<Value>>) -> iset<Value>)

  ghost predicate TypeHas(reading: Reading, t: Type, value: Value)
    decreases t
  {
    MemberHas(reading, t.member, value) || (t.Or? && TypeHas(reading, t.rest, value))
  }

  ghost predicate MemberHas(reading: Reading, member: Member, value: Value)
    decreases member
  {
    match member
    case Word(_) => SimpleHas(reading, MemberText(member), value)
    case Quoted(_, _) => SimpleHas(reading, MemberText(member), value)
    case Bracketed(bracket, items) =>
      if bracket == ROUND then TypeHas(reading, items.t, value)
      else if bracket == SQUARE then value.Tuple? && ElementsAre(reading, items, value.elements)
      else value.Object? && FieldsAre(reading, items, value.fields)
    case Generic(word, items) => value in reading.generic(word, Meanings(reading, items))
  }

  /** A primitive type has all values of its kind, a literal one of them, any other name what the reading says. */
  ghost predicate SimpleHas(reading: Reading, text: Text, value: Value) {
    match PrimitiveOf(text)
    case None => reading.named(text, value)
    case Some(p) =>
      value.OfPrimitive? && value.primitive == p && (NameOf(p) == text || value.content == reading.content(text))
  }

  ghost predicate ElementsAre(reading: Reading, items: Items, elements: seq<Value>)
    decreases items
  {
    && elements != [] && TypeHas(reading, items.t, elements[0])
    && if items.One? then |elements| == 1 else ElementsAre(reading, items.rest, elements[1..])
  }

  ghost predicate FieldsAre(reading: Reading, items: Items, fields: map<Text, Value>)
    decreases items
  {
    && (items.field.Some? ==> items.field.value in fields && TypeHas(reading, items.t, fields[items.field.value]))
    && (items.Then? ==> FieldsAre(reading, items.rest, fields))
  }

  ghost function Meanings(reading: Reading, items: Items): seq<iset<Value>>
    decreases items
  {
    var first := iset value: Value | TypeHas(reading, items.t, value);
    if items.One? then [first] else [first] + Meanings(reading, items.rest)
  }

  /** The union has what one of its members has, and nothing else. */
  lemma {:induction false} TypeHasWhatItsMembersHave(reading: Reading, t: Type, member: Member, value: Value)
    requires member in MembersOf(t) && MemberHas(reading, member, value)
    ensures TypeHas(reading, t, value)
  {
    if t.Or? && member != t.member {
      assert member in MembersOf(t.rest);
      TypeHasWhatItsMembersHave(reading, t.rest, member, value);
    }
  }

  lemma {:induction false} SomeMemberHas(reading: Reading, t: Type, value: Value) returns (member: Member)
    requires TypeHas(reading, t, value)
    ensures member in MembersOf(t) && MemberHas(reading, member, value)
  {
    member := t.member;
    assert member in MembersOf(t);
    if !MemberHas(reading, t.member, value) {
      member := SomeMemberHas(reading, t.rest, value);
      assert MembersOf(t) == [t.member] + MembersOf(t.rest);
    }
  }

  lemma {:induction false} TextsOfMembers(t: Type)
    requires TypeIsWellFormed(t)
    ensures |MembersOf(t)| == |MemberTexts(t)|
    ensures forall i :: 0 <= i < |MembersOf(t)| ==>
      MemberIsWellFormed(MembersOf(t)[i]) && MemberTexts(t)[i] == MemberText(MembersOf(t)[i])
    ensures !HidesBar(t) ==> forall i :: 0 <= i < |MembersOf(t)| ==> SeenInMember(MembersOf(t)[i]) == 0
  {
    if t.Or? {
      TextsOfMembers(t.rest);
    }
  }

  lemma FittingMembersAreIncluded(reading: Reading, member: Member, target: Member, value: Value)
    requires MemberIsWellFormed(member) && MemberIsWellFormed(target) && Fits(MemberText(member), MemberText(target))
    requires MemberHas(reading, member, value)
    ensures MemberHas(reading, target, value)
  {
    if MemberText(member) == MemberText(target) {
      SameTextSameMember(member, target);
    } else {
      var a := PrimitivesAreSimple(MemberText(member));
      SameTextSameMember(a, member);
      var b := PrimitivesAreSimple(MemberText(target));
      SameTextSameMember(b, target);
    }
  }

  lemma PrimitivesAreNotBroken(text: Text)
    requires PrimitiveOf(text).Some?
    ensures !IsBroken(text)
  {
    var simple := PrimitivesAreSimple(text);
    assert SeenInMember(simple) == 0;
  }

  /** What fits a member that hides no bar is not broken. */
  lemma FittingIsNotBroken(text: Text, target: Member)
    requires MemberIsWellFormed(target) && SeenInMember(target) == 0 && Fits(text, MemberText(target))
    ensures !IsBroken(text)
  {
    if text != MemberText(target) {
      PrimitivesAreNotBroken(text);
    }
  }

  lemma NothingHiddenInEither(expected: Type, actual: Type)
    requires TypeIsWellFormed(expected) && TypeIsWellFormed(actual) && !HidesBar(actual)
    requires ParameterTypeCompatible(TextOf(expected), TextOf(actual))
    ensures !HidesBar(expected)
  {
    if HidesBar(expected) {
      if TextOf(expected) == TextOf(actual) {
        SameTextSameType(expected, actual);
      }
      CompatibleIffEachFits(TextOf(expected), TextOf(actual));
      SplitIsRightIffNoBarIsHidden(actual);
      var i := SomePieceIsBroken(expected, false);
      var piece := Members(TextOf(expected))[i];
      assert piece in Members(TextOf(expected));
      var j :| 0 <= j < |MemberTexts(actual)| && Fits(piece, MemberTexts(actual)[j]);
      TextsOfMembers(actual);
      FittingIsNotBroken(piece, MembersOf(actual)[j]);
    }
  }

  /**
   * Inclusion: when the accepted type hides no bar inside angle brackets, a compatible type, whatever it is, hides none
   * either, and each of its values is one of the accepted type, under every reading.
   */
  lemma CompatibleIsIncluded(reading: Reading, expected: Type, actual: Type, value: Value)
    requires TypeIsWellFormed(expected) && TypeIsWellFormed(actual) && !HidesBar(actual)
    requires ParameterTypeCompatible(TextOf(expected), TextOf(actual)) && TypeHas(reading, expected, value)
    ensures TypeHas(reading, actual, value)
  {
    NothingHiddenInEither(expected, actual);
    CompatibleIffEachFits(TextOf(expected), TextOf(actual));
    SplitIsRightIffNoBarIsHidden(expected);
    SplitIsRightIffNoBarIsHidden(actual);
    TextsOfMembers(expected);
    TextsOfMembers(actual);
    var member := SomeMemberHas(reading, expected, value);
    var i :| 0 <= i < |MembersOf(expected)| && MembersOf(expected)[i] == member;
    assert MemberText(member) in Members(TextOf(expected));
    var j :| 0 <= j < |MemberTexts(actual)| && Fits(MemberText(member), MemberTexts(actual)[j]);
    var target := MembersOf(actual)[j];
    FittingMembersAreIncluded(reading, member, target, value);
    TypeHasWhatItsMembersHave(reading, actual, target, value);
  }

  // ---------------------------------------------------------------------------
  // Where inclusion fails
  // ---------------------------------------------------------------------------

  /** The members of `u` put in behind the first member of a union inside angle brackets. */
  function InsertIntoMember(member: Member, u: Type): (r: Member)
    requires SeenInMember(member) > 0
  {
    Generic(member.word, InsertIntoItems(member.items, u))
  }

  function InsertIntoItems(items: Items, u: Type): Items
    requires SeenInItems(items) > 0
  {
    if SeenInType(items.t) > 0 then items.(t := InsertIntoType(items.t, u))
    else items.(rest := InsertIntoItems(items.rest, u))
  }

  function InsertIntoType(t: Type, u: Type): Type
    requires SeenInType(t) > 0
  {
    if SeenInMember(t.member) > 0 then t.(member := InsertIntoMember(t.member, u))
    else Or(t.member, Append(u, t.rest))
  }

  function Append(t: Type, u: Type): Type {
    match t
    case Just(member) => Or(member, u)
    case Or(member, rest) => Or(member, Append(rest, u))
  }

  lemma {:induction false} AppendPrints(t: Type, u: Type, tail: Text)
    ensures PrintType(Append(t, u), tail) == TextOf(t) + (SEPARATOR + PrintType(u, tail))
    ensures TypeIsWellFormed(t) && TypeIsWellFormed(u) ==> TypeIsWellFormed(Append(t, u))
  {
    var later := PrintType(u, tail);
    assert SEPARATOR + later == [SPACE] + ([BAR] + ([SPACE] + later));
    if t.Just? {
      TailComesLast(t.member, SEPARATOR + later);
    } else {
      AppendPrints(t.rest, u, tail);
      var rest := TextOf(t.rest);
      var before := [SPACE] + ([BAR] + ([SPACE] + rest));
      assert before + (SEPARATOR + later) == [SPACE] + ([BAR] + ([SPACE] + (rest + (SEPARATOR + later))));
      TailComesLast(t.member, before + (SEPARATOR + later));
      TailComesLast(t.member, before);
      Associate(MemberText(t.member), before, SEPARATOR + later);
    }
  }

  /** The pieces of `longer`, read behind `current`, are those of `shorter` and those of `u`. */
  ghost predicate Adds(current: Text, shorter: Text, longer: Text, u: Type) {
    forall p :: p in Cuts(TOP, current, longer) <==> p in Cuts(TOP, current, shorter) || p in Members(TextOf(u))
  }

  lemma AddsBehind(current: Text, before: Text, shorter: Text, longer: Text, u: Type)
    requires BarFree(TOP, before) && After(TOP, before) == TOP && Adds(current + before, shorter, longer, u)
    ensures Adds(current, before + shorter, before + longer, u)
  {
    CutsPass(TOP, current, before, shorter);
    CutsPass(TOP, current, before, longer);
  }

  lemma {:induction false} TrimEndUnpads(text: Text)
    ensures Trim(text + [SPACE]) == Trim(text)
  {
    if text != [] && IsSpace(text[0]) {
      assert (text + [SPACE])[1..] == text[1..] + [SPACE];
      TrimEndUnpads(text[1..]);
    } else if text == [] {
      assert (text + [SPACE])[1..] == [];
    } else {
      assert (text + [SPACE])[..|text|] == text;
    }
  }

  /** A separator met at the top ends a piece. */
  lemma {:induction false} CutsJoin(s: State, current: Text, a: Text, b: Text)
    requires After(s, a) == TOP
    ensures Cuts(s, current, a + (SEPARATOR + b)) == Cuts(s, current, a) + Cuts(TOP, [], b)
    decreases |a|
  {
    var tail := SEPARATOR + b;
    if a == [] {
      assert a + tail == tail;
      SplitSeparator(current, b);
      TrimEndUnpads(current);
      SpacedCuts(TOP, [], b);
      assert [SPACE] + [] == [SPACE];
    } else {
      assert (a + tail)[1..] == a[1..] + tail;
      if Separates(s, a[0]) {
        CutsJoin(s, [], a[1..], b);
        Associate([Trim(current)], Cuts(s, [], a[1..]), Cuts(TOP, [], b));
      } else {
        CutsJoin(Step(s, a[0]), current + [a[0]], a[1..], b);
      }
    }
  }

  /** A space before a piece does not show. */
  lemma {:induction false} SpacedCuts(s: State, current: Text, text: Text)
    ensures Cuts(s, [SPACE] + current, text) == Cuts(s, current, text)
    decreases |text|
  {
    assert ([SPACE] + current)[1..] == current;
    if text != [] && !Separates(s, text[0]) {
      assert [SPACE] + current + [text[0]] == [SPACE] + (current + [text[0]]);
      SpacedCuts(Step(s, text[0]), current + [text[0]], text[1..]);
    }
  }

  lemma {:induction false} MemberAdds(member: Member, u: Type, current: Text, tail: Text)
    requires MemberIsWellFormed(member) && SeenInMember(member) > 0 && TypeIsWellFormed(u)
    ensures MemberIsWellFormed(InsertIntoMember(member, u))
    ensures Adds(current, PrintMember(member, tail), PrintMember(InsertIntoMember(member, u), tail), u)
    decreases member
  {
    var closing := [GREATER] + tail;
    var before := member.word + [LESS];
    var shorter, longer := PrintItems(member.items, closing), PrintItems(InsertIntoItems(member.items, u), closing);
    ItemsAdd(member.items, u, current + before, closing);
    PassesWord(TOP, member.word, [LESS]);
    PassesUnit(TOP, LESS, []);
    assert [LESS] + [] == [LESS];
    NoBarsIsBarFree(TOP, before);
    AddsBehind(current, before, shorter, longer, u);
    Associate(member.word, [LESS], shorter);
    Associate(member.word, [LESS], longer);
  }

  lemma {:induction false} ItemsAdd(items: Items, u: Type, current: Text, tail: Text)
    requires ItemsAreWellFormed(items, false) && SeenInItems(items) > 0 && TypeIsWellFormed(u)
    ensures ItemsAreWellFormed(InsertIntoItems(items, u), false)
    ensures Adds(current, PrintItems(items, tail), PrintItems(InsertIntoItems(items, u), tail), u)
    decreases items
  {
    if SeenInType(items.t) > 0 {
      TypeAdds(items.t, u, current, if items.One? then tail else [COMMA] + ([SPACE] + PrintItems(items.rest, tail)));
    } else {
      var text, comma := TextOf(items.t), [COMMA] + [SPACE];
      var before := text + comma;
      var shorter, longer := PrintItems(items.rest, tail), PrintItems(InsertIntoItems(items.rest, u), tail);
      ItemsAdd(items.rest, u, current + before, tail);
      PassesType(TOP, items.t, comma);
      PassesUnit(TOP, COMMA, [SPACE]);
      PassesUnit(TOP, SPACE, []);
      assert [SPACE] + [] == [SPACE];
      TextComesFirst(items.t, comma);
      NoBarsIsBarFree(TOP, before);
      AddsBehind(current, before, shorter, longer, u);
      ItemComesFirst(items.t, shorter);
      ItemComesFirst(items.t, longer);
    }
  }

  lemma TextComesFirst(t: Type, tail: Text)
    ensures PrintType(t, tail) == TextOf(t) + tail
  {
    TypeTailComesLast(t, [], tail);
    assert [] + tail == tail;
  }

  lemma ItemComesFirst(t: Type, later: Text)
    ensures PrintType(t, [COMMA] + ([SPACE] + later)) == TextOf(t) + ([COMMA] + [SPACE]) + later
  {
    assert [COMMA] + ([SPACE] + later) == ([COMMA] + [SPACE]) + later;
    TextComesFirst(t, [COMMA] + ([SPACE] + later));
    Associate(TextOf(t), [COMMA] + [SPACE], later);
  }

  lemma {:induction false} TypeAdds(t: Type, u: Type, current: Text, tail: Text)
    requires TypeIsWellFormed(t) && SeenInType(t) > 0 && TypeIsWellFormed(u)
    ensures TypeIsWellFormed(InsertIntoType(t, u))
    ensures Adds(current, PrintType(t, tail), PrintType(InsertIntoType(t, u), tail), u)
    decreases t
  {
    if SeenInMember(t.member) > 0 {
      MemberAdds(t.member, u, current,
                 if t.Just? then tail else [SPACE] + ([BAR] + ([SPACE] + PrintType(t.rest, tail))));
    } else {
      UnionAdds(t, u, current, tail);
    }
  }

  lemma UnionAdds(t: Type, u: Type, current: Text, tail: Text)
    requires TypeIsWellFormed(t) && SeenInMember(t.member) == 0 && t.Or? && TypeIsWellFormed(u)
    ensures TypeIsWellFormed(Append(u, t.rest))
    ensures Adds(current, PrintType(t, tail), PrintType(Or(t.member, Append(u, t.rest)), tail), u)
  {
    var first, rest, added := MemberText(t.member), PrintType(t.rest, tail), TextOf(u);
    var longer := added + (SEPARATOR + rest);
    AppendPrints(u, t.rest, tail);
    assert [SPACE] + ([BAR] + ([SPACE] + rest)) == SEPARATOR + rest;
    assert [SPACE] + ([BAR] + ([SPACE] + longer)) == SEPARATOR + longer;
    TailComesLast(t.member, SEPARATOR + rest);
    TailComesLast(t.member, SEPARATOR + longer);
    MemberIsPassed(t.member);
    CutsJoin(TOP, current, first, rest);
    CutsJoin(TOP, current, first, longer);
    PassesType(TOP, u, []);
    CutsJoin(TOP, [], added, rest);
  }

  /** A hidden union with members left out is accepted for the longer one. */
  lemma HiddenMembersCanBeLeftOut(member: Member, u: Type)
    requires MemberIsWellFormed(member) && SeenInMember(member) > 0 && TypeIsWellFormed(u)
    ensures MemberIsWellFormed(InsertIntoMember(member, u))
    ensures ParameterTypeCompatible(MemberText(member), MemberText(InsertIntoMember(member, u)))
  {
    var shorter, longer := MemberText(member), MemberText(InsertIntoMember(member, u));
    MemberAdds(member, u, [], []);
    forall p | p in Members(shorter) ensures FitsAny(p, Members(longer)) {
      assert p in Members(longer);
      var k :| 0 <= k < |Members(longer)| && Members(longer)[k] == p;
      assert Fits(p, Members(longer)[k]);
    }
    CompatibleIffEachFits(shorter, longer);
  }

  /** A member's pieces are pieces of the union. */
  lemma {:induction false} PiecesOfMembers(t: Type, member: Member)
    requires TypeIsWellFormed(t) && member in MembersOf(t)
    ensures MemberIsWellFormed(member)
    ensures forall p :: p in Members(MemberText(member)) ==> p in Members(TextOf(t))
  {
    if t.Or? {
      var text, rest := MemberText(t.member), TextOf(t.rest);
      TailComesLast(t.member, SEPARATOR + rest);
      assert [SPACE] + ([BAR] + ([SPACE] + rest)) == SEPARATOR + rest;
      MemberIsPassed(t.member);
      CutsJoin(TOP, [], text, rest);
      if member != t.member {
        PiecesOfMembers(t.rest, member);
      }
    }
  }

  lemma {:induction false} HidingMember(t: Type) returns (member: Member)
    requires HidesBar(t)
    ensures member in MembersOf(t) && SeenInMember(member) > 0
  {
    member := t.member;
    if SeenInMember(member) == 0 {
      member := HidingMember(t.rest);
    }
  }

  /** A member of `t` with `t` itself put in behind a hidden bar: all its pieces are pieces of `t`. */
  lemma NestedTypeIsCompatible(t: Type, member: Member) returns (nested: Type)
    requires TypeIsWellFormed(t) && member in MembersOf(t) && SeenInMember(member) > 0
    ensures MemberIsWellFormed(member) && nested == Just(InsertIntoMember(member, t))
    ensures TypeIsWellFormed(nested) && ParameterTypeCompatible(TextOf(nested), TextOf(t))
  {
    PiecesOfMembers(t, member);
    nested := Just(InsertIntoMember(member, t));
    MemberAdds(member, t, [], []);
    var accepted := Members(TextOf(t));
    forall p | p in Members(TextOf(nested)) ensures FitsAny(p, accepted) {
      assert p in accepted;
      var k :| 0 <= k < |accepted| && accepted[k] == p;
      assert Fits(p, accepted[k]);
    }
    CompatibleIffEachFits(TextOf(nested), TextOf(t));
  }

  // ---------------------------------------------------------------------------
  // A reading that counts how deep generics are nested
  // ---------------------------------------------------------------------------

  ghost predicate SomeHas(arguments: seq<iset<Value>>, value: Value) {
    exists i :: 0 <= i < |arguments| && value in arguments[i]
  }

  /** One more than what some argument has, or the bottom. */
  ghost predicate IsWrapped(value: Value, arguments: seq<iset<Value>>) {
    value.Opaque? && (value.id == 0 || SomeHas(arguments, Opaque(value.id - 1)))
  }

  ghost function Nesting(): Reading {
    Reading((text: Text) => text, (name: Text, value: Value) => false,
            (word: Text, arguments: seq<iset<Value>>) => iset value: Value | IsWrapped(value, arguments))
  }

  function MemberDepth(member: Member): nat {
    match member
    case Generic(_, items) => 1 + ItemsDepth(items)
    case Bracketed(bracket, items) => if bracket == ROUND then TypeDepth(items.t) else 0
    case _ => 0
  }

  function ItemsDepth(items: Items): nat {
    match items
    case One(_, t) => TypeDepth(t)
    case Then(_, t, rest) => Max(TypeDepth(t), ItemsDepth(rest))
  }

  function TypeDepth(t: Type): nat {
    match t
    case Just(member) => MemberDepth(member)
    case Or(member, rest) => Max(MemberDepth(member), TypeDepth(rest))
  }

  lemma {:induction false} MemberIsAsDeep(member: Member, n: int)
    ensures MemberHas(Nesting(), member, Opaque(n)) <==> 0 <= n < MemberDepth(member)
    decreases member
  {
    match member
    case Word(_) =>
    case Quoted(_, _) =>
    case Bracketed(bracket, items) =>
      if bracket == ROUND {
        TypeIsAsDeep(items.t, n);
      }
    case Generic(word, items) =>
      ItemsAreAsDeep(items, n - 1);
      var arguments := Meanings(Nesting(), items);
      assert MemberHas(Nesting(), member, Opaque(n)) <==> IsWrapped(Opaque(n), arguments);
  }

  lemma {:induction false} ItemsAreAsDeep(items: Items, n: int)
    ensures SomeHas(Meanings(Nesting(), items), Opaque(n)) <==> 0 <= n < ItemsDepth(items)
    decreases items
  {
    TypeIsAsDeep(items.t, n);
    var arguments := Meanings(Nesting(), items);
    assert Opaque(n) in arguments[0] <==> 0 <= n < TypeDepth(items.t);
    if items.Then? {
      ItemsAreAsDeep(items.rest, n);
      SomeHasSplits(arguments[0], Meanings(Nesting(), items.rest), Opaque(n));
    }
  }

  lemma SomeHasSplits(first: iset<Value>, rest: seq<iset<Value>>, value: Value)
    ensures SomeHas([first] + rest, value) <==> value in first || SomeHas(rest, value)
  {
    var arguments := [first] + rest;
    if value in first {
      assert value in arguments[0];
    }
    if i :| 0 <= i < |rest| && value in rest[i] {
      assert value in arguments[i + 1];
    }
  }

  lemma {:induction false} TypeIsAsDeep(t: Type, n: int)
    ensures TypeHas(Nesting(), t, Opaque(n)) <==> 0 <= n < TypeDepth(t)
    decreases t
  {
    MemberIsAsDeep(t.member, n);
    if t.Or? {
      TypeIsAsDeep(t.rest, n);
    }
  }

  lemma {:induction false} InsertedIsInside(member: Member, u: Type)
    requires SeenInMember(member) > 0
    ensures MemberDepth(InsertIntoMember(member, u)) > TypeDepth(u)
    decreases member
  {
    InsertedIsInItems(member.items, u);
  }

  lemma {:induction false} InsertedIsInItems(items: Items, u: Type)
    requires SeenInItems(items) > 0
    ensures ItemsDepth(InsertIntoItems(items, u)) >= TypeDepth(u)
    decreases items
  {
    if SeenInType(items.t) == 0 {
      InsertedIsInItems(items.rest, u);
    } else if SeenInMember(items.t.member) > 0 {
      InsertedIsInside(items.t.member, u);
    } else {
      AppendedIsInside(u, items.t.rest);
    }
  }

  lemma {:induction false} AppendedIsInside(t: Type, u: Type)
    ensures TypeDepth(Append(t, u)) >= TypeDepth(t)
  {
    if t.Or? {
      AppendedIsInside(t.rest, u);
    }
  }

  /** The value is one of a type that may stand for the accepted one. */
  ghost predicate CompatibleTypeHas(reading: Reading, expected: Type, actual: Type, value: Value) {
    && TypeIsWellFormed(expected) && ParameterTypeCompatible(TextOf(expected), TextOf(actual))
    && TypeHas(reading, expected, value)
  }

  /**
   * Inclusion holds exactly there: for an accepted type, every compatible type is included in it, under every reading,
   * if and only if it hides no bar inside angle brackets.
   */
  lemma InclusionIffNoBarIsHidden(actual: Type)
    requires TypeIsWellFormed(actual)
    ensures !HidesBar(actual) <==>
            forall expected, reading, value | CompatibleTypeHas(reading, expected, actual, value) ::
              TypeHas(reading, actual, value)
  {
    if HidesBar(actual) {
      var member := HidingMember(actual);
      var nested := NestedTypeIsCompatible(actual, member);
      InsertedIsInside(member, actual);
      TypeIsAsDeep(nested, TypeDepth(actual));
      TypeIsAsDeep(actual, TypeDepth(actual));
      assert CompatibleTypeHas(Nesting(), nested, actual, Opaque(TypeDepth(actual)));
    } else {
      forall expected, reading, value | CompatibleTypeHas(reading, expected, actual, value)
        ensures TypeHas(reading, actual, value)
      {
        CompatibleIsIncluded(reading, expected, actual, value);
      }
    }
  }

  // ---------------------------------------------------------------------------
  // Records by their keys
  // ---------------------------------------------------------------------------

  /** An object that has all the keys, each with one of the values. */
  ghost predicate IsRecord(value: Value, keys: iset<Value>, values: iset<Value>) {
    && value.Object?
    && forall key: Text :: OfPrimitive(StringType, key) in keys ==> key in value.fields && value.fields[key] in values
  }

  /** Literals denote what stands between their quotes, and the one generic is `Record`. */
  ghost function Records(): Reading {
    Reading((text: Text) => if |text| < 2 then text else text[1..|text| - 1], (name: Text, value: Value) => false,
            (word: Text, arguments: seq<iset<Value>>) =>
              if |arguments| != 2 then iset{} else iset value: Value | IsRecord(value, arguments[0], arguments[1]))
  }

  /** `Record<keys, string>` */
  function RecordOf(keys: Type): Member {
    Generic([0x52, 0x65, 0x63, 0x6F, 0x72, 0x64], Then(None, keys, One(None, Just(Word(STRING)))))
  }

  function Letter(unit: Unit): Member {
    Quoted(QUOTE, [unit])
  }

  lemma LettersAreStrings(unit: Unit, value: Value)
    requires 0x61 <= unit <= 0x7A
    ensures MemberIsWellFormed(Letter(unit))
    ensures MemberHas(Records(), Letter(unit), value) <==> value == OfPrimitive(StringType, [unit])
  {
    var text := MemberText(Letter(unit));
    assert text == [QUOTE, unit, QUOTE];
    assert [unit][1..] == [];
    assert text[1..][0] == unit && text[1..][1..] == [QUOTE];
    assert JsonTail(text[1..][1..]) && JsonTail(text[1..]);
    assert text[0] != STRING[0];
    assert text[1..|text| - 1] == [unit];
  }

  lemma PairMeanings(reading: Reading, first: Type, second: Type)
    ensures var arguments := Meanings(reading, Then(None, first, One(None, second)));
      && |arguments| == 2
      && (forall v :: v in arguments[0] <==> TypeHas(reading, first, v))
      && (forall v :: v in arguments[1] <==> TypeHas(reading, second, v))
  {
    var last := One(None, second);
    var rest := Meanings(reading, last);
    assert |rest| == 1 && forall v :: v in rest[0] <==> TypeHas(reading, second, v);
    var arguments := Meanings(reading, Then(None, first, last));
    assert arguments[1..] == rest && arguments[1] == rest[0];
  }

  /** The object has a string under each key of the type. */
  ghost predicate HasStrings(value: Value, keys: Type)
    requires value.Object?
  {
    forall key: Text | TypeHas(Records(), keys, OfPrimitive(StringType, key)) ::
      key in value.fields && value.fields[key].OfPrimitive? && value.fields[key].primitive == StringType
  }

  lemma RecordIsWellFormed(keys: Type)
    requires TypeIsWellFormed(keys)
    ensures MemberIsWellFormed(RecordOf(keys))
  {
    LettersAreWords("string");
    assert IsWord(RecordOf(keys).word);
    var last := One(None, Just(Word(STRING)));
    assert ItemsAreWellFormed(last, false);
  }

  lemma RecordByItsKeys(value: Value, keys: Type, names: iset<Value>, strings: iset<Value>)
    requires value.Object?
    requires forall v :: v in names <==> TypeHas(Records(), keys, v)
    requires forall v: Value :: v in strings <==> v.OfPrimitive? && v.primitive == StringType
    ensures IsRecord(value, names, strings) <==> HasStrings(value, keys)
  {
    if IsRecord(value, names, strings) {
      forall key: Text | TypeHas(Records(), keys, OfPrimitive(StringType, key))
        ensures key in value.fields && value.fields[key].OfPrimitive? && value.fields[key].primitive == StringType
      {
        assert OfPrimitive(StringType, key) in names;
      }
    }
    if HasStrings(value, keys) {
      forall key: Text | OfPrimitive(StringType, key) in names
        ensures key in value.fields && value.fields[key] in strings
      {
        assert TypeHas(Records(), keys, OfPrimitive(StringType, key));
      }
    }
  }

  lemma RecordHas(keys: Type, value: Value)
    requires value.Object?
    ensures TypeHas(Records(), Just(RecordOf(keys)), value) <==> HasStrings(value, keys)
  {
    var record := RecordOf(keys);
    var arguments := Meanings(Records(), record.items);
    PairMeanings(Records(), keys, Just(Word(STRING)));
    forall v: Value ensures v in arguments[1] <==> v.OfPrimitive? && v.primitive == StringType {
      StringHas(v);
    }
    RecordByItsKeys(value, keys, arguments[0], arguments[1]);
    assert MemberHas(Records(), record, value) <==> IsRecord(value, arguments[0], arguments[1]);
  }

  lemma StringHas(value: Value)
    ensures TypeHas(Records(), Just(Word(STRING)), value) <==> value.OfPrimitive? && value.primitive == StringType
  {
    assert STRING + [] == STRING;
  }

  /** "a" | "b" */
  function TwoKeys(): Type {
    Or(Letter(0x61), Just(Letter(0x62)))
  }

  /** "a" | "c" | "b" */
  function ThreeKeys(): Type {
    Or(Letter(0x61), Or(Letter(0x63), Just(Letter(0x62))))
  }

  lemma KeysAreTheirLetters(key: Text)
    ensures TypeIsWellFormed(TwoKeys()) && TypeIsWellFormed(ThreeKeys())
    ensures TypeHas(Records(), TwoKeys(), OfPrimitive(StringType, key)) <==> key == [0x61] || key == [0x62]
    ensures TypeHas(Records(), ThreeKeys(), OfPrimitive(StringType, key)) <==> key in {[0x61], [0x62], [0x63]}
  {
    var value := OfPrimitive(StringType, key);
    LettersAreStrings(0x61, value);
    LettersAreStrings(0x62, value);
    LettersAreStrings(0x63, value);
    assert TypeHas(Records(), ThreeKeys().rest, value) <==> key in {[0x62], [0x63]};
  }

  lemma KeysAreCompatible()
    ensures TypeIsWellFormed(Just(RecordOf(TwoKeys()))) && TypeIsWellFormed(Just(RecordOf(ThreeKeys())))
    ensures ParameterTypeCompatible(TextOf(Just(RecordOf(TwoKeys()))), TextOf(Just(RecordOf(ThreeKeys()))))
  {
    KeysAreTheirLetters([]);
    RecordIsWellFormed(TwoKeys());
    RecordIsWellFormed(ThreeKeys());
    assert InsertIntoType(TwoKeys(), Just(Letter(0x63))) == ThreeKeys();
    assert InsertIntoMember(RecordOf(TwoKeys()), Just(Letter(0x63))) == RecordOf(ThreeKeys());
    HiddenMembersCanBeLeftOut(RecordOf(TwoKeys()), Just(Letter(0x63)));
  }

  /** `Record<"a" | "b", string>` may stand for `Record<"a" | "c" | "b", string>`, which has fewer objects. */
  lemma RecordsWithFewerKeysAreAccepted(value: Value)
    requires value == Object(map[[0x61] := OfPrimitive(StringType, []), [0x62] := OfPrimitive(StringType, [])])
    ensures var fewer, more := Just(RecordOf(TwoKeys())), Just(RecordOf(ThreeKeys()));
      && TypeIsWellFormed(fewer) && TypeIsWellFormed(more) && ParameterTypeCompatible(TextOf(fewer), TextOf(more))
      && TypeHas(Records(), fewer, value) && !TypeHas(Records(), more, value)
  {
    KeysAreCompatible();
    RecordHas(TwoKeys(), value);
    RecordHas(ThreeKeys(), value);
    forall key: Text | TypeHas(Records(), TwoKeys(), OfPrimitive(StringType, key)) ensures key in value.fields {
      KeysAreTheirLetters(key);
    }
    KeysAreTheirLetters([0x63]);
    assert [0x63] !in value.fields;
  }
}
