/** Union types as text, and when one parameter type may stand for another (packages/compiler/src/verification.ts). */
module UnionTypes {
  import opened Text

  const QUOTE: Unit := 0x22
  const APOSTROPHE: Unit := 0x27
  const BACKSLASH: Unit := 0x5C
  const BAR: Unit := 0x7C
  const SPACE: Unit := 0x20

  predicate IsOpening(unit: Unit) { unit == 0x28 || unit == 0x5B || unit == 0x7B }

  predicate IsClosing(unit: Unit) { unit == 0x29 || unit == 0x5D || unit == 0x7D }

  /** The units String.prototype.trim removes. */
  predicate IsSpace(unit: Unit) {
    || 0x09 <= unit <= 0x0D || unit == 0x20 || unit == 0xA0 || unit == 0x1680 || 0x2000 <= unit <= 0x200A
    || unit == 0x2028 || unit == 0x2029 || unit == 0x202F || unit == 0x205F || unit == 0x3000 || unit == 0xFEFF
  }

  // ---------------------------------------------------------------------------
  // Trimming
  // ---------------------------------------------------------------------------

  function TrimStart(text: Text): Text {
    if text != [] && IsSpace(text[0]) then TrimStart(text[1..]) else text
  }

  function TrimEnd(text: Text): Text {
    if text != [] && IsSpace(text[|text| - 1]) then TrimEnd(text[..|text| - 1]) else text
  }

  function Trim(text: Text): Text {
    TrimEnd(TrimStart(text))
  }

  predicate Trimmed(text: Text) {
    text == [] || (!IsSpace(text[0]) && !IsSpace(text[|text| - 1]))
  }

  lemma {:induction false} TrimEndKeepsStart(text: Text)
    requires text != [] && !IsSpace(text[0])
    ensures TrimEnd(text) != [] && TrimEnd(text)[0] == text[0] && !IsSpace(TrimEnd(text)[|TrimEnd(text)| - 1])
  {
    if IsSpace(text[|text| - 1]) {
      TrimEndKeepsStart(text[..|text| - 1]);
    }
  }

  lemma {:induction false} TrimStartStarts(text: Text)
    ensures TrimStart(text) == [] || !IsSpace(TrimStart(text)[0])
  {
    if text != [] && IsSpace(text[0]) {
      TrimStartStarts(text[1..]);
    }
  }

  lemma TrimIsTrimmed(text: Text)
    ensures Trimmed(Trim(text))
  {
    TrimStartStarts(text);
    if TrimStart(text) != [] {
      TrimEndKeepsStart(TrimStart(text));
    }
  }

  /** A trimmed text with or without a space after it. */
  lemma TrimUnpadsEnd(text: Text, after: bool)
    requires Trimmed(text)
    ensures Trim(text + if after then [SPACE] else []) == text
  {
    var tail := text + if after then [SPACE] else [];
    if text == [] {
      assert tail != [] ==> tail[1..] == [];
      assert TrimStart(tail) == [];
    } else {
      assert tail[0] == text[0];
      assert TrimStart(tail) == tail && TrimEnd(text) == text;
      if after {
        assert tail[|tail| - 1] == SPACE && tail[..|tail| - 1] == text;
      } else {
        assert tail == text;
      }
    }
  }

  /** A space on either side of a trimmed text is trimmed away again. */
  lemma TrimUnpads(text: Text, before: bool, after: bool)
    requires Trimmed(text)
    ensures Trim((if before then [SPACE] else []) + text + (if after then [SPACE] else [])) == text
  {
    var tail := text + if after then [SPACE] else [];
    var padded := (if before then [SPACE] else []) + text + (if after then [SPACE] else []);
    assert padded == (if before then [SPACE] else []) + tail;
    TrimUnpadsEnd(text, after);
    if before {
      assert padded[0] == SPACE && padded[1..] == tail;
      assert TrimStart(padded) == TrimStart(tail);
    } else {
      assert padded == tail;
    }
  }

  // ---------------------------------------------------------------------------
  // Scanning
  // ---------------------------------------------------------------------------

  datatype State = State(quote: Option<Unit>, escaped: bool, depth: nat)

  const TOP := State(None, false, 0)

  function Step(s: State, unit: Unit): State {
    if s.quote.Some? then
      if s.escaped then s.(escaped := false)
      else if unit == BACKSLASH then s.(escaped := true)
      else if unit == s.quote.value then s.(quote := None)
      else s
    else if unit == QUOTE || unit == APOSTROPHE then s.(quote := Some(unit))
    else if IsOpening(unit) then s.(depth := s.depth + 1)
    else if IsClosing(unit) then s.(depth := if s.depth == 0 then 0 else s.depth - 1)
    else s
  }

  /** A bar that separates two members. */
  predicate Separates(s: State, unit: Unit) {
    s.quote.None? && unit == BAR && s.depth == 0
  }

  function After(s: State, text: Text): State
    decreases |text|
  {
    if text == [] then s else After(Step(s, text[0]), text[1..])
  }

  predicate BarFree(s: State, text: Text)
    decreases |text|
  {
    text == [] || (!Separates(s, text[0]) && BarFree(Step(s, text[0]), text[1..]))
  }

  /** The members of `current + rest`, the scan having reached `rest` in state `s`. */
  function Cuts(s: State, current: Text, rest: Text): seq<Text>
    decreases |rest|
  {
    if rest == [] then [Trim(current)]
    else if Separates(s, rest[0]) then [Trim(current)] + Cuts(s, [], rest[1..])
    else Cuts(Step(s, rest[0]), current + [rest[0]], rest[1..])
  }

  function Members(value: Text): seq<Text> {
    Cuts(TOP, [], value)
  }

  method TopLevelUnionMembers(value: Text) returns (members: seq<Text>)
    ensures members == Members(value)
  {
    members := [];
    var start, index := 0, 0;
    var s := TOP;
    assert value[0..0] == [] && value[0..] == value;
    while index < |value|
      invariant 0 <= start <= index <= |value|
      invariant members + Cuts(s, value[start..index], value[index..]) == Members(value)
    {
      var unit := value[index];
      assert value[index..][0] == unit && value[index..][1..] == value[index + 1..];
      assert value[start..index] + [unit] == value[start..index + 1];
      if s.quote.Some? {
        s := if s.escaped then s.(escaped := false)
             else if unit == BACKSLASH then s.(escaped := true)
             else if unit == s.quote.value then s.(quote := None)
             else s;
      } else if unit == QUOTE || unit == APOSTROPHE {
        s := s.(quote := Some(unit));
      } else if IsOpening(unit) {
        s := s.(depth := s.depth + 1);
      } else if IsClosing(unit) {
        s := s.(depth := Max(0, s.depth - 1));
      } else if unit == BAR && s.depth == 0 {
        ghost var later := Cuts(s, [], value[index + 1..]);
        Associate(members, [Trim(value[start..index])], later);
        assert value[index + 1..index + 1] == [];
        members := members + [Trim(value[start..index])];
        start := index + 1;
      }
      index := index + 1;
    }
    assert value[index..] == [] && value[start..index] == value[start..];
    members := members + [Trim(value[start..])];
  }

  // ---------------------------------------------------------------------------
  // Splitting and joining
  // ---------------------------------------------------------------------------

  const SEPARATOR: Text := [SPACE, BAR, SPACE]

  function Join(members: seq<Text>): Text {
    if members == [] then []
    else if |members| == 1 then members[0]
    else members[0] + (SEPARATOR + Join(members[1..]))
  }

  /** A list that can come out of a split: trimmed members without a top-level bar, only the last of them left open. */
  predicate WellFormed(members: seq<Text>) {
    && members != []
    && (forall i :: 0 <= i < |members| ==> Trimmed(members[i]) && BarFree(TOP, members[i]))
    && (forall i :: 0 <= i < |members| - 1 ==> After(TOP, members[i]) == TOP)
  }

  lemma {:induction false} CutsPass(s: State, current: Text, a: Text, b: Text)
    requires BarFree(s, a)
    ensures Cuts(s, current, a + b) == Cuts(After(s, a), current + a, b)
    decreases |a|
  {
    if a == [] {
      assert a + b == b && current + a == current;
    } else {
      assert (a + b)[1..] == a[1..] + b;
      assert current + [a[0]] + a[1..] == current + a;
      CutsPass(Step(s, a[0]), current + [a[0]], a[1..], b);
    }
  }

  /** Splitting a join, the first member after a space or not. */
  lemma {:induction false} SplitOfJoin(members: seq<Text>, spaced: bool)
    requires WellFormed(members)
    ensures Cuts(TOP, if spaced then [SPACE] else [], Join(members)) == members
  {
    var before := if spaced then [SPACE] else [];
    var first := members[0];
    TrimUnpads(first, spaced, |members| > 1);
    if |members| == 1 {
      CutsPass(TOP, before, first, []);
      assert first + [] == first;
      assert before + first + [] == before + first;
    } else {
      var later := members[1..];
      var tail := SEPARATOR + Join(later);
      CutsPass(TOP, before, first, tail);
      SplitSeparator(before + first, Join(later));
      SplitOfJoin(later, true);
      assert [first] + later == members;
    }
  }

  lemma SplitSeparator(current: Text, rest: Text)
    ensures Cuts(TOP, current, SEPARATOR + rest) == [Trim(current + [SPACE])] + Cuts(TOP, [SPACE], rest)
  {
    var tail := SEPARATOR + rest;
    assert tail[1..][0] == BAR && tail[1..][1..][0] == SPACE && tail[1..][1..][1..] == rest;
    assert Cuts(TOP, current, tail) == Cuts(TOP, current + [SPACE], tail[1..]);
    assert Cuts(TOP, current + [SPACE], tail[1..]) == [Trim(current + [SPACE])] + Cuts(TOP, [], tail[1..][1..]);
    assert [] + [SPACE] == [SPACE];
    assert Cuts(TOP, [], tail[1..][1..]) == Cuts(TOP, [SPACE], rest);
  }

  lemma {:induction false} AfterSnoc(s: State, text: Text, unit: Unit)
    ensures After(s, text + [unit]) == Step(After(s, text), unit)
    ensures BarFree(s, text + [unit]) <==> BarFree(s, text) && !Separates(After(s, text), unit)
    decreases |text|
  {
    if text == [] {
      assert text + [unit] == [unit];
    } else {
      assert (text + [unit])[1..] == text[1..] + [unit];
      AfterSnoc(Step(s, text[0]), text[1..], unit);
    }
  }

  /** Outside quotes nothing is ever escaped, and only quotes open quotes. */
  lemma {:induction false} ReachedStates(text: Text)
    ensures var s := After(TOP, text);
      if s.quote.None? then !s.escaped else s.quote.value == QUOTE || s.quote.value == APOSTROPHE
    decreases |text|
  {
    if text != [] {
      var front := text[..|text| - 1];
      assert text == front + [text[|text| - 1]];
      AfterSnoc(TOP, front, text[|text| - 1]);
      ReachedStates(front);
    }
  }

  /** Trimming what the scan has passed neither frees a bar nor opens what was closed. */
  lemma {:induction false} TrimStartKeeps(text: Text)
    requires BarFree(TOP, text)
    ensures BarFree(TOP, TrimStart(text)) && After(TOP, TrimStart(text)) == After(TOP, text)
  {
    if text != [] && IsSpace(text[0]) {
      TrimStartKeeps(text[1..]);
    }
  }

  lemma {:induction false} TrimEndKeeps(text: Text)
    requires BarFree(TOP, text)
    ensures BarFree(TOP, TrimEnd(text)) && (After(TOP, text) == TOP ==> After(TOP, TrimEnd(text)) == TOP)
  {
    if text != [] && IsSpace(text[|text| - 1]) {
      var front := text[..|text| - 1];
      assert text == front + [text[|text| - 1]];
      AfterSnoc(TOP, front, text[|text| - 1]);
      ReachedStates(front);
      TrimEndKeeps(front);
    }
  }

  lemma TrimKeeps(text: Text)
    requires BarFree(TOP, text)
    ensures BarFree(TOP, Trim(text)) && Trimmed(Trim(text))
    ensures After(TOP, text) == TOP ==> After(TOP, Trim(text)) == TOP
  {
    TrimStartKeeps(text);
    TrimEndKeeps(TrimStart(text));
    TrimIsTrimmed(text);
  }

  lemma {:induction false} CutsAreWellFormed(s: State, current: Text, rest: Text)
    requires BarFree(TOP, current) && s == After(TOP, current)
    ensures WellFormed(Cuts(s, current, rest))
    decreases |rest|
  {
    TrimKeeps(current);
    if rest != [] {
      if Separates(s, rest[0]) {
        ReachedStates(current);
        CutsAreWellFormed(s, [], rest[1..]);
      } else {
        AfterSnoc(TOP, current, rest[0]);
        CutsAreWellFormed(Step(s, rest[0]), current + [rest[0]], rest[1..]);
      }
    }
  }

  /** The lists a split can give are exactly the well-formed ones, and joining is its inverse on them. */
  lemma JoinedMembersSplitBack(members: seq<Text>)
    ensures WellFormed(members) ==> Members(Join(members)) == members
    ensures WellFormed(members) <==> exists value :: Members(value) == members
  {
    if WellFormed(members) {
      SplitOfJoin(members, false);
    }
    if value :| Members(value) == members {
      CutsAreWellFormed(TOP, [], value);
    }
  }

  // ---------------------------------------------------------------------------
  // Primitive types
  // ---------------------------------------------------------------------------

  datatype Primitive = StringType | NumberType | BigintType | BooleanType | NullType | UndefinedType

  function Ascii(word: string): (text: Text)
    requires forall i :: 0 <= i < |word| ==> word[i] < 128 as char
    ensures |text| == |word|
  {
    seq(|word|, i requires 0 <= i < |word| => word[i] as int)
  }

  const STRING: Text := Ascii("string")
  const NUMBER: Text := Ascii("number")
  const BIGINT: Text := Ascii("bigint")
  const BOOLEAN: Text := Ascii("boolean")
  const NULL: Text := Ascii("null")
  const UNDEFINED: Text := Ascii("undefined")
  const TRUE: Text := Ascii("true")
  const FALSE: Text := Ascii("false")

  function NameOf(primitive: Primitive): Text {
    match primitive
    case StringType => STRING
    case NumberType => NUMBER
    case BigintType => BIGINT
    case BooleanType => BOOLEAN
    case NullType => NULL
    case UndefinedType => UNDEFINED
  }

  predicate IsDigit(unit: Unit) { 0x30 <= unit <= 0x39 }

  predicate IsHex(unit: Unit) { IsDigit(unit) || 0x41 <= unit <= 0x46 || 0x61 <= unit <= 0x66 }

  /** Where the digits from `i` end. */
  function DigitsEnd(text: Text, i: nat): (end: nat)
    requires i <= |text|
    ensures i <= end <= |text|
    decreases |text| - i
  {
    if i < |text| && IsDigit(text[i]) then DigitsEnd(text, i + 1) else i
  }

  /** Where an integer without leading zeros ends, if there is one. */
  function IntegerEnd(text: Text): (end: Option<nat>)
    ensures end.Some? ==> 0 < end.value <= |text|
  {
    var from := if text != [] && text[0] == 0x2D then 1 else 0;
    if from == |text| || !IsDigit(text[from]) then None
    else if text[from] == 0x30 then Some(from + 1)
    else Some(DigitsEnd(text, from + 1))
  }

  function FractionEnd(text: Text, i: nat): (end: nat)
    requires i <= |text|
    ensures i <= end <= |text|
  {
    if i < |text| && text[i] == 0x2E && DigitsEnd(text, i + 1) > i + 1 then DigitsEnd(text, i + 1) else i
  }

  function ExponentEnd(text: Text, i: nat): (end: nat)
    requires i <= |text|
    ensures i <= end <= |text|
  {
    if i < |text| && (text[i] == 0x65 || text[i] == 0x45) then
      var from := if i + 1 < |text| && (text[i + 1] == 0x2B || text[i + 1] == 0x2D) then i + 2 else i + 1;
      if DigitsEnd(text, from) > from then DigitsEnd(text, from) else i
    else i
  }

  predicate IsNumber(text: Text) {
    var integer := IntegerEnd(text);
    integer.Some? && ExponentEnd(text, FractionEnd(text, integer.value)) == |text|
  }

  predicate IsBigint(text: Text) {
    var integer := IntegerEnd(text);
    integer.Some? && integer.value + 1 == |text| && text[integer.value] == 0x6E
  }

  /** The rest of a JSON string, after its opening quote. */
  predicate JsonTail(text: Text) {
    if text == [] then false
    else if text[0] == QUOTE then |text| == 1
    else if text[0] != BACKSLASH then text[0] >= 0x20 && JsonTail(text[1..])
    else if |text| < 2 then false
    else if text[1] == 0x75 then
      |text| >= 6 && IsHex(text[2]) && IsHex(text[3]) && IsHex(text[4]) && IsHex(text[5]) && JsonTail(text[6..])
    else text[1] in {QUOTE, BACKSLASH, 0x2F, 0x62, 0x66, 0x6E, 0x72, 0x74} && JsonTail(text[2..])
  }

  predicate IsJsonString(text: Text) {
    text != [] && text[0] == QUOTE && text[|text| - 1] == QUOTE && JsonTail(text[1..])
  }

  function PrimitiveOf(member: Text): Option<Primitive> {
    if member == STRING then Some(StringType)
    else if member == NUMBER then Some(NumberType)
    else if member == BIGINT then Some(BigintType)
    else if member == BOOLEAN then Some(BooleanType)
    else if member == NULL then Some(NullType)
    else if member == UNDEFINED then Some(UndefinedType)
    else if IsNumber(member) then Some(NumberType)
    else if IsBigint(member) then Some(BigintType)
    else if member == TRUE || member == FALSE then Some(BooleanType)
    else if IsJsonString(member) then Some(StringType)
    else None
  }

  /** A supplied member fits an accepted one: they are the same, or it is of the primitive type the other names. */
  predicate Fits(member: Text, target: Text) {
    member == target
      || exists p :: PrimitiveOf(target) == Some(p) && NameOf(p) == target && PrimitiveOf(member) == Some(p)
  }

  predicate FitsAny(member: Text, accepted: seq<Text>) {
    exists j :: 0 <= j < |accepted| && Fits(member, accepted[j])
  }

  predicate ParameterTypeCompatible(expected: Text, actual: Text) {
    || expected == actual
    || (var accepted, supplied := Members(actual), Members(expected);
        |supplied| > 0
        && forall i :: 0 <= i < |supplied| ==> FitsAny(supplied[i], accepted))
  }

  // ---------------------------------------------------------------------------
  // The relation
  // ---------------------------------------------------------------------------

  lemma FitsIsTransitive(a: Text, b: Text, c: Text)
    requires Fits(a, b) && Fits(b, c)
    ensures Fits(a, c)
  {
  }

  ghost predicate EachFits(supplied: seq<Text>, accepted: seq<Text>) {
    forall m :: m in supplied ==> FitsAny(m, accepted)
  }

  /** The shortcut on equal texts decides nothing: compatible is that each supplied member fits some accepted one. */
  lemma CompatibleIffEachFits(a: Text, b: Text)
    ensures ParameterTypeCompatible(a, b) <==> EachFits(Members(a), Members(b))
  {
    CutsAreWellFormed(TOP, [], a);
    var supplied, accepted := Members(a), Members(b);
    if a == b {
      forall m | m in supplied ensures FitsAny(m, accepted) {
        var i :| 0 <= i < |supplied| && supplied[i] == m;
        assert Fits(m, accepted[i]);
      }
    }
    if EachFits(supplied, accepted) {
      forall i | 0 <= i < |supplied| ensures FitsAny(supplied[i], accepted) {
        assert supplied[i] in supplied;
      }
    }
  }

  lemma CompatibilityIsAPreorder(a: Text, b: Text, c: Text)
    ensures ParameterTypeCompatible(a, a)
    ensures ParameterTypeCompatible(a, b) && ParameterTypeCompatible(b, c) ==> ParameterTypeCompatible(a, c)
  {
    CompatibleIffEachFits(a, b);
    CompatibleIffEachFits(b, c);
    CompatibleIffEachFits(a, c);
    if ParameterTypeCompatible(a, b) && ParameterTypeCompatible(b, c) {
      var middle, accepted := Members(b), Members(c);
      forall m | m in Members(a) ensures FitsAny(m, accepted) {
        var j :| 0 <= j < |middle| && Fits(m, middle[j]);
        assert middle[j] in middle;
        var k :| 0 <= k < |accepted| && Fits(middle[j], accepted[k]);
        FitsIsTransitive(m, middle[j], accepted[k]);
      }
    }
  }

  /** Neither the order nor the repetition of members matters. */
  lemma OnlyMemberSetsMatter(a: Text, b: Text, c: Text, d: Text)
    requires (forall m :: m in Members(a) <==> m in Members(c)) && (forall m :: m in Members(b) <==> m in Members(d))
    ensures ParameterTypeCompatible(a, b) ==> ParameterTypeCompatible(c, d)
  {
    CompatibleIffEachFits(a, b);
    CompatibleIffEachFits(c, d);
    if ParameterTypeCompatible(a, b) {
      forall m | m in Members(c) ensures FitsAny(m, Members(d)) {
        var j :| 0 <= j < |Members(b)| && Fits(m, Members(b)[j]);
        assert Members(b)[j] in Members(d);
        var k :| 0 <= k < |Members(d)| && Members(d)[k] == Members(b)[j];
        assert Fits(m, Members(d)[k]);
      }
    }
  }
}
