/** The conditional row type of a structural query (packages/compiler/src/structural.ts, structuralRowType). */
module RowType {
  import opened Text
  import Structural

  type Choices = Structural.Choices

  datatype Row = Row(row: Text, choices: Choices)

  /** The TypeScript type of a condition, where one can be read from the source. */
  type TypeOf = Text -> Option<Text>

  // ---------------------------------------------------------------------------
  // The type as text: row and condition texts are indivisible tokens
  // ---------------------------------------------------------------------------

  datatype Token = Name(row: Text) | ExtendsTrue(test: Text) | ExtendsFalse(test: Text) | Colon | Bar | Open | Close

  predicate IsTest(token: Token) {
    token.ExtendsTrue? || token.ExtendsFalse?
  }

  /** `type.includes(" extends ") ? (type) : type` */
  function Parenthesize(tokens: seq<Token>): seq<Token> {
    if exists i :: 0 <= i < |tokens| && IsTest(tokens[i]) then [Open] + tokens + [Close] else tokens
  }

  function UnionText(rows: seq<Text>): seq<Token> {
    if rows == [] then []
    else if |rows| == 1 then [Name(rows[0])]
    else [Name(rows[0]), Bar] + UnionText(rows[1..])
  }

  function ConditionalText(test: Text, whenTrue: seq<Token>, whenFalse: seq<Token>): seq<Token> {
    [ExtendsTrue(test)] + Parenthesize(whenTrue) + [Colon, ExtendsFalse(test)] + Parenthesize(whenFalse)
    + [Colon] + Parenthesize(whenTrue) + [Bar] + Parenthesize(whenFalse)
  }

  /** The distinct row texts, in order of first appearance. */
  function Unique(candidates: seq<Row>): (rows: seq<Text>)
    ensures forall r :: r in rows <==> exists i :: 0 <= i < |candidates| && candidates[i].row == r
    ensures candidates != [] ==> rows != []
    ensures forall i, j :: 0 <= i < j < |rows| ==> rows[i] != rows[j]
  {
    if candidates == [] then []
    else
      var n := |candidates| - 1;
      var front := Unique(candidates[..n]);
      assert forall i :: 0 <= i < n ==> candidates[..n][i] == candidates[i];
      if candidates[n].row in front then front else front + [candidates[n].row]
  }

  function SetOf(rows: seq<Text>): set<Text> {
    set r | r in rows
  }

  function Side(candidates: seq<Row>, condition: Text, value: bool): (side: seq<Row>)
    ensures forall r :: r in side <==> r in candidates && condition in r.choices && r.choices[condition] == value
  {
    if candidates == [] then []
    else
      var front := Side(candidates[..|candidates| - 1], condition, value);
      var last := candidates[|candidates| - 1];
      if condition in last.choices && last.choices[condition] == value then front + [last] else front
  }

  /** Two sides that are alike need no condition. */
  function Fold(test: Text, whenTrue: seq<Token>, whenFalse: seq<Token>): seq<Token> {
    if whenTrue == whenFalse then whenTrue else ConditionalText(test, whenTrue, whenFalse)
  }

  /** The type text the original builds. */
  function Resolve(typeOf: TypeOf, candidates: seq<Row>, remaining: seq<Text>): seq<Token>
    decreases |remaining|
  {
    var unique := Unique(candidates);
    if |unique| == 1 then [Name(unique[0])]
    else if remaining == [] then UnionText(unique)
    else
      var condition, rest := remaining[0], remaining[1..];
      if typeOf(condition).None? then Resolve(typeOf, candidates, rest)
      else
        var truthy, falsy := Side(candidates, condition, true), Side(candidates, condition, false);
        if truthy == [] || falsy == [] then Resolve(typeOf, candidates, rest)
        else
          Fold(typeOf(condition).value, Resolve(typeOf, truthy, rest), Resolve(typeOf, falsy, rest))
  }

  // ---------------------------------------------------------------------------
  // What a type checker makes of the text
  // ---------------------------------------------------------------------------

  /** What a condition's type is: `true`, `false`, or neither. */
  datatype Evidence = IsTrue | IsFalse | Unknown

  type Known = Text -> Evidence

  /** The row types read so far, and what is left to read. */
  datatype Reading = Malformed | Read(rows: set<Text>, rest: seq<Token>)

  predicate Holds(test: Token, known: Known)
    requires IsTest(test)
  {
    match test
    case ExtendsTrue(t) => known(t).IsTrue?
    case ExtendsFalse(t) => known(t).IsFalse?
  }

  /** `test ? type : type`, or a union. */
  function ReadType(tokens: seq<Token>, known: Known): (r: Reading)
    ensures r.Read? ==> |r.rest| < |tokens|
    decreases |tokens|, 2
  {
    if tokens == [] then Malformed
    else if !IsTest(tokens[0]) then ReadUnion(tokens, known)
    else
      var yes := ReadType(tokens[1..], known);
      if yes.Malformed? || yes.rest == [] || yes.rest[0] != Colon then Malformed
      else
        var no := ReadType(yes.rest[1..], known);
        if no.Malformed? then Malformed else Read(if Holds(tokens[0], known) then yes.rows else no.rows, no.rest)
  }

  /** Types joined by bars. */
  function ReadUnion(tokens: seq<Token>, known: Known): (r: Reading)
    ensures r.Read? ==> |r.rest| < |tokens|
    decreases |tokens|, 1
  {
    var first := ReadPrimary(tokens, known);
    if first.Malformed? then Malformed else GoOn(first.rows, first.rest, known)
  }

  /** The rest of a union of which some types have been read. */
  function GoOn(rows: set<Text>, tokens: seq<Token>, known: Known): (r: Reading)
    ensures r.Read? ==> |r.rest| <= |tokens|
    decreases |tokens|, 2
  {
    if tokens == [] || tokens[0] != Bar then Read(rows, tokens)
    else
      var more := ReadUnion(tokens[1..], known);
      if more.Malformed? then Malformed else Read(rows + more.rows, more.rest)
  }

  /** A row, or a type in parentheses. */
  function ReadPrimary(tokens: seq<Token>, known: Known): (r: Reading)
    ensures r.Read? ==> |r.rest| < |tokens|
    decreases |tokens|, 0
  {
    if tokens == [] then Malformed
    else if tokens[0].Name? then Read({tokens[0].row}, tokens[1..])
    else if tokens[0] != Open then Malformed
    else
      var inner := ReadType(tokens[1..], known);
      if inner.Malformed? || inner.rest == [] || inner.rest[0] != Close then Malformed
      else Read(inner.rows, inner.rest[1..])
  }

  /** The row types a whole text stands for. */
  function Meaning(tokens: seq<Token>, known: Known): Option<set<Text>> {
    var r := ReadType(tokens, known);
    if r.Read? && r.rest == [] then Some(r.rows) else None
  }

  // ---------------------------------------------------------------------------
  // Reading the folded text
  // ---------------------------------------------------------------------------

  /** What a conditional text stands for: one branch, the other, or both. */
  function Chosen(test: Text, known: Known, whenTrue: set<Text>, whenFalse: set<Text>): set<Text> {
    match known(test)
    case IsTrue => whenTrue
    case IsFalse => whenFalse
    case Unknown => whenTrue + whenFalse
  }

  /** The rows the folding keeps under what is known of the condition types. */
  ghost function RowsOf(typeOf: TypeOf, known: Known, candidates: seq<Row>, remaining: seq<Text>): set<Text>
    decreases |remaining|
  {
    if |Unique(candidates)| == 1 || remaining == [] then SetOf(Unique(candidates))
    else
      var condition, rest := remaining[0], remaining[1..];
      var truthy, falsy := Side(candidates, condition, true), Side(candidates, condition, false);
      if typeOf(condition).None? || truthy == [] || falsy == [] then RowsOf(typeOf, known, candidates, rest)
      else
        Chosen(typeOf(condition).value, known, RowsOf(typeOf, known, truthy, rest), RowsOf(typeOf, known, falsy, rest))
  }

  /** What may follow a type. */
  predicate EndsType(tail: seq<Token>) {
    tail == [] || tail[0] == Colon || tail[0] == Close
  }

  /** A folded text is a plain union, or it begins with its first test. */
  predicate IsFolded(tokens: seq<Token>) {
    tokens != []
    && (tokens[0].ExtendsTrue? || (tokens[0].Name? && forall i :: 0 <= i < |tokens| ==> !IsTest(tokens[i])))
  }

  /** Read as a type, and as one type of a union when put in parentheses if need be. */
  ghost predicate ReadsAs(tokens: seq<Token>, rows: set<Text>, tail: seq<Token>, known: Known) {
    && (EndsType(tail) ==> ReadType(tokens + tail, known) == Read(rows, tail))
    && JoinsBefore(tokens, rows, tail, known)
  }

  /** Rows read one after the other may be read together. */
  lemma GoesOnTogether(first: set<Text>, second: set<Text>, tail: seq<Token>, known: Known)
    ensures GoOn(first + second, tail, known) ==
      var more := GoOn(second, tail, known);
      if more.Malformed? then Malformed else Read(first + more.rows, more.rest)
  {
    if tail != [] && tail[0] == Bar {
      var more := ReadUnion(tail[1..], known);
      if more.Read? {
        assert first + second + more.rows == first + (second + more.rows);
      }
    }
  }

  /** A row, a bar, and what a union goes on with. */
  lemma RowAndMore(row: Text, more: seq<Token>, rows: set<Text>, tail: seq<Token>, known: Known)
    requires ReadUnion(more, known) == GoOn(rows, tail, known)
    ensures ReadUnion([Name(row)] + ([Bar] + more), known) == GoOn({row} + rows, tail, known)
  {
    var text := [Name(row)] + ([Bar] + more);
    assert text[1..] == [Bar] + more && ([Bar] + more)[1..] == more;
    GoesOnTogether({row}, rows, tail, known);
  }

  lemma {:induction false} UnionTextIsPlain(rows: seq<Text>)
    requires rows != []
    ensures var text := UnionText(rows);
      text != [] && text[0].Name? && forall i :: 0 <= i < |text| ==> !IsTest(text[i])
  {
    if |rows| > 1 {
      UnionTextIsPlain(rows[1..]);
    }
  }

  lemma {:induction false} UnionTextReads(rows: seq<Text>, tail: seq<Token>, known: Known)
    requires rows != []
    ensures ReadUnion(UnionText(rows) + tail, known) == GoOn(SetOf(rows), tail, known)
  {
    if |rows| == 1 {
      assert ([Name(rows[0])] + tail)[1..] == tail;
      assert SetOf(rows) == {rows[0]};
    } else {
      var later, more := rows[1..], UnionText(rows[1..]) + tail;
      UnionTextReads(later, tail, known);
      assert UnionText(rows) + tail == [Name(rows[0])] + ([Bar] + more);
      RowAndMore(rows[0], more, SetOf(later), tail, known);
      assert rows == [rows[0]] + later;
      assert SetOf(rows) == {rows[0]} + SetOf(later);
    }
  }

  /** Without a test, reading as a type is reading as a union, and no parentheses are put around. */
  lemma PlainReads(tokens: seq<Token>, rows: set<Text>, tail: seq<Token>, known: Known)
    requires IsFolded(tokens) && tokens[0].Name?
    requires ReadUnion(tokens + tail, known) == GoOn(rows, tail, known)
    ensures ReadsAs(tokens, rows, tail, known)
  {
    assert (tokens + tail)[0] == tokens[0];
  }

  /** In parentheses, a type is one of a union. */
  lemma ParenthesizedReads(tokens: seq<Token>, rows: set<Text>, tail: seq<Token>, known: Known)
    requires tokens != [] && tokens[0].ExtendsTrue?
    requires ReadType(tokens + ([Close] + tail), known) == Read(rows, [Close] + tail)
    ensures ReadUnion(Parenthesize(tokens) + tail, known) == GoOn(rows, tail, known)
  {
    assert IsTest(tokens[0]);
    var text := Parenthesize(tokens) + tail;
    assert text == [Open] + (tokens + ([Close] + tail));
    assert text[1..] == tokens + ([Close] + tail);
    assert ([Close] + tail)[1..] == tail;
  }

  /** One type of a union, read where a type ends, is a type. */
  lemma BranchReads(tokens: seq<Token>, rows: set<Text>, tail: seq<Token>, known: Known)
    requires IsFolded(tokens) && EndsType(tail)
    requires ReadUnion(Parenthesize(tokens) + tail, known) == GoOn(rows, tail, known)
    ensures ReadType(Parenthesize(tokens) + tail, known) == Read(rows, tail)
  {
    if tokens[0].ExtendsTrue? {
      assert IsTest(tokens[0]);
      assert (Parenthesize(tokens) + tail)[0] == Open;
    } else {
      assert (Parenthesize(tokens) + tail)[0] == tokens[0];
    }
  }

  /** The text of a conditional, piece by piece. */
  lemma ConditionalParts(test: Text, whenTrue: seq<Token>, whenFalse: seq<Token>, tail: seq<Token>)
    ensures var yes, no := Parenthesize(whenTrue), Parenthesize(whenFalse);
      ConditionalText(test, whenTrue, whenFalse) + tail
      == [ExtendsTrue(test)]
        + (yes + ([Colon] + ([ExtendsFalse(test)] + (no + ([Colon] + (yes + ([Bar] + (no + tail))))))))
  {
  }

  /** `yes | no`, read where a type ends. */
  lemma BothRead(whenTrue: seq<Token>, whenFalse: seq<Token>, yes: set<Text>, no: set<Text>, tail: seq<Token>,
                 known: Known)
    requires IsFolded(whenTrue) && EndsType(tail)
    requires ReadUnion(Parenthesize(whenFalse) + tail, known) == GoOn(no, tail, known)
    requires var later := [Bar] + (Parenthesize(whenFalse) + tail);
      ReadUnion(Parenthesize(whenTrue) + later, known) == GoOn(yes, later, known)
    ensures ReadType(Parenthesize(whenTrue) + ([Bar] + (Parenthesize(whenFalse) + tail)), known) == Read(yes + no, tail)
  {
    var later := [Bar] + (Parenthesize(whenFalse) + tail);
    assert later[1..] == Parenthesize(whenFalse) + tail;
    if whenTrue[0].ExtendsTrue? {
      assert IsTest(whenTrue[0]);
      assert (Parenthesize(whenTrue) + later)[0] == Open;
    } else {
      assert (Parenthesize(whenTrue) + later)[0] == whenTrue[0];
    }
  }

  lemma TestReads(test: Token, first: seq<Token>, second: seq<Token>, a: set<Text>, b: set<Text>, tail: seq<Token>,
                  known: Known)
    requires IsTest(test)
    requires ReadType(first + ([Colon] + second), known) == Read(a, [Colon] + second)
    requires ReadType(second, known) == Read(b, tail)
    ensures ReadType([test] + (first + ([Colon] + second)), known) == Read(if Holds(test, known) then a else b, tail)
  {
    var text := [test] + (first + ([Colon] + second));
    assert text[1..] == first + ([Colon] + second);
    assert ([Colon] + second)[1..] == second;
  }

  /** Whatever follows, the tokens, in parentheses if need be, are one type of a union. */
  ghost predicate Joins(tokens: seq<Token>, rows: set<Text>, known: Known) {
    forall tail :: JoinsBefore(tokens, rows, tail, known)
  }

  ghost predicate JoinsBefore(tokens: seq<Token>, rows: set<Text>, tail: seq<Token>, known: Known) {
    ReadUnion(Parenthesize(tokens) + tail, known) == GoOn(rows, tail, known)
  }

  /** A conditional text read where a type ends. */
  lemma ConditionalReads(test: Text, whenTrue: seq<Token>, whenFalse: seq<Token>, yes: set<Text>, no: set<Text>,
                         tail: seq<Token>, known: Known)
    requires IsFolded(whenTrue) && IsFolded(whenFalse) && EndsType(tail)
    requires Joins(whenTrue, yes, known) && Joins(whenFalse, no, known)
    ensures ReadType(ConditionalText(test, whenTrue, whenFalse) + tail, known)
            == Read(Chosen(test, known, yes, no), tail)
  {
    var a, b := Parenthesize(whenTrue), Parenthesize(whenFalse);
    var both := a + ([Bar] + (b + tail));
    assert JoinsBefore(whenFalse, no, tail, known) && JoinsBefore(whenTrue, yes, [Bar] + (b + tail), known);
    BothRead(whenTrue, whenFalse, yes, no, tail, known);
    var second := [ExtendsFalse(test)] + (b + ([Colon] + both));
    assert JoinsBefore(whenFalse, no, [Colon] + both, known);
    BranchReads(whenFalse, no, [Colon] + both, known);
    TestReads(ExtendsFalse(test), b, both, no, yes + no, tail, known);
    assert JoinsBefore(whenTrue, yes, [Colon] + second, known);
    BranchReads(whenTrue, yes, [Colon] + second, known);
    TestReads(ExtendsTrue(test), a, second, yes, if known(test).IsFalse? then no else yes + no, tail, known);
    ConditionalParts(test, whenTrue, whenFalse, tail);
  }

  lemma ConditionalReadsAs(test: Text, whenTrue: seq<Token>, whenFalse: seq<Token>, yes: set<Text>, no: set<Text>,
                           tail: seq<Token>, known: Known)
    requires IsFolded(whenTrue) && IsFolded(whenFalse)
    requires Joins(whenTrue, yes, known) && Joins(whenFalse, no, known)
    ensures IsFolded(ConditionalText(test, whenTrue, whenFalse))
    ensures ReadsAs(ConditionalText(test, whenTrue, whenFalse), Chosen(test, known, yes, no), tail, known)
  {
    var text := ConditionalText(test, whenTrue, whenFalse);
    assert text[0] == ExtendsTrue(test);
    if EndsType(tail) {
      ConditionalReads(test, whenTrue, whenFalse, yes, no, tail, known);
    }
    ConditionalReads(test, whenTrue, whenFalse, yes, no, [Close] + tail, known);
    ParenthesizedReads(text, Chosen(test, known, yes, no), tail, known);
  }

  /** Whatever follows. */
  ghost predicate AlwaysReadsAs(tokens: seq<Token>, rows: set<Text>, known: Known) {
    IsFolded(tokens) && forall tail :: ReadsAs(tokens, rows, tail, known)
  }

  lemma FoldReadsAs(test: Text, whenTrue: seq<Token>, whenFalse: seq<Token>, yes: set<Text>, no: set<Text>,
                    known: Known)
    requires AlwaysReadsAs(whenTrue, yes, known) && AlwaysReadsAs(whenFalse, no, known)
    ensures AlwaysReadsAs(Fold(test, whenTrue, whenFalse), Chosen(test, known, yes, no), known)
  {
    if whenTrue == whenFalse {
      assert ReadsAs(whenTrue, yes, [], known) && ReadsAs(whenFalse, no, [], known);
      assert yes + no == yes;
    } else {
      forall tail ensures JoinsBefore(whenTrue, yes, tail, known) && JoinsBefore(whenFalse, no, tail, known) {
        assert ReadsAs(whenTrue, yes, tail, known) && ReadsAs(whenFalse, no, tail, known);
      }
      ConditionalReadsAs(test, whenTrue, whenFalse, yes, no, [], known);
      forall tail ensures ReadsAs(Fold(test, whenTrue, whenFalse), Chosen(test, known, yes, no), tail, known) {
        ConditionalReadsAs(test, whenTrue, whenFalse, yes, no, tail, known);
      }
    }
  }

  lemma UnionReadsAs(rows: seq<Text>, known: Known)
    requires rows != []
    ensures AlwaysReadsAs(UnionText(rows), SetOf(rows), known)
  {
    UnionTextIsPlain(rows);
    forall tail ensures ReadsAs(UnionText(rows), SetOf(rows), tail, known) {
      UnionTextReads(rows, tail, known);
      PlainReads(UnionText(rows), SetOf(rows), tail, known);
    }
  }

  /** The folded text reads as the rows the folding keeps. */
  lemma {:induction false} ResolveReads(typeOf: TypeOf, known: Known, candidates: seq<Row>, remaining: seq<Text>)
    requires candidates != []
    ensures AlwaysReadsAs(Resolve(typeOf, candidates, remaining), RowsOf(typeOf, known, candidates, remaining), known)
    decreases |remaining|
  {
    var unique := Unique(candidates);
    if |unique| == 1 || remaining == [] {
      UnionReadsAs(unique, known);
    } else {
      var condition, rest := remaining[0], remaining[1..];
      var truthy, falsy := Side(candidates, condition, true), Side(candidates, condition, false);
      if typeOf(condition).None? || truthy == [] || falsy == [] {
        ResolveReads(typeOf, known, candidates, rest);
      } else {
        ResolveReads(typeOf, known, truthy, rest);
        ResolveReads(typeOf, known, falsy, rest);
        FoldReadsAs(typeOf(condition).value, Resolve(typeOf, truthy, rest), Resolve(typeOf, falsy, rest),
                    RowsOf(typeOf, known, truthy, rest), RowsOf(typeOf, known, falsy, rest), known);
      }
    }
  }

  // ---------------------------------------------------------------------------
  // Soundness and exactness
  // ---------------------------------------------------------------------------

  /** The choices agree with everything known about the types of `conditions`. */
  ghost predicate Consistent(typeOf: TypeOf, known: Known, choices: Choices, conditions: seq<Text>) {
    forall c :: c in conditions && c in choices ==> Fits(typeOf, known, c, choices[c])
  }

  /** Whether a choice fits what is known of its condition. */
  ghost predicate Fits(typeOf: TypeOf, known: Known, condition: Text, value: bool) {
    typeOf(condition).None? ||
    match known(typeOf(condition).value)
    case IsTrue => value
    case IsFalse => !value
    case Unknown => true
  }

  lemma {:induction false} RowsAreSound(typeOf: TypeOf, known: Known, candidates: seq<Row>, remaining: seq<Text>,
                                          row: Row)
    requires row in candidates
    requires forall c :: c in remaining ==> c in row.choices
    requires Consistent(typeOf, known, row.choices, remaining)
    ensures row.row in RowsOf(typeOf, known, candidates, remaining)
    decreases |remaining|
  {
    if |Unique(candidates)| != 1 && remaining != [] {
      var condition, rest := remaining[0], remaining[1..];
      RowsAreSound(typeOf, known, candidates, rest, row);
      var truthy, falsy := Side(candidates, condition, true), Side(candidates, condition, false);
      if typeOf(condition).Some? && truthy != [] && falsy != [] {
        assert condition in remaining;
        RowsAreSound(typeOf, known, if row.choices[condition] then truthy else falsy, rest, row);
      }
    }
  }

  /** Any candidate with any remaining condition flipped is a candidate too: as for the rows of an expansion. */
  ghost predicate Full(candidates: seq<Row>, remaining: seq<Text>) {
    forall r, c :: r in candidates && c in remaining ==> BothWays(candidates, r, c)
  }

  ghost predicate BothWays(candidates: seq<Row>, row: Row, condition: Text) {
    && condition in row.choices
    && HasChoices(candidates, row.choices[condition := true])
    && HasChoices(candidates, row.choices[condition := false])
  }

  ghost predicate HasChoices(candidates: seq<Row>, choices: Choices) {
    exists r :: r in candidates && r.choices == choices
  }

  ghost predicate NoRepeats(conditions: seq<Text>) {
    forall i, j :: 0 <= i < j < |conditions| ==> conditions[i] != conditions[j]
  }

  lemma HeadAndTail(remaining: seq<Text>)
    requires remaining != []
    ensures forall c :: c in remaining <==> c == remaining[0] || c in remaining[1..]
    ensures NoRepeats(remaining) ==> remaining[0] !in remaining[1..] && NoRepeats(remaining[1..])
  {
  }

  lemma SideHasChoices(candidates: seq<Row>, condition: Text, value: bool, choices: Choices)
    requires HasChoices(candidates, choices) && condition in choices && choices[condition] == value
    ensures HasChoices(Side(candidates, condition, value), choices)
  {
    var other :| other in candidates && other.choices == choices;
    assert other in Side(candidates, condition, value);
  }

  lemma SideIsFull(candidates: seq<Row>, remaining: seq<Text>, value: bool)
    requires remaining != [] && Full(candidates, remaining) && NoRepeats(remaining)
    ensures Full(Side(candidates, remaining[0], value), remaining[1..])
    ensures candidates != [] ==> Side(candidates, remaining[0], value) != []
  {
    var condition, rest := remaining[0], remaining[1..];
    HeadAndTail(remaining);
    var side := Side(candidates, condition, value);
    forall r, c | r in side && c in rest ensures BothWays(side, r, c) {
      assert BothWays(candidates, r, c);
      SideHasChoices(candidates, condition, value, r.choices[c := true]);
      SideHasChoices(candidates, condition, value, r.choices[c := false]);
    }
    if candidates != [] {
      assert BothWays(candidates, candidates[0], condition);
      SideHasChoices(candidates, condition, value, candidates[0].choices[condition := value]);
    }
  }

  /** Some candidate fits whatever is known. */
  lemma {:induction false} SomeRowFits(typeOf: TypeOf, known: Known, candidates: seq<Row>, remaining: seq<Text>)
    returns (row: Row)
    requires candidates != [] && Full(candidates, remaining) && NoRepeats(remaining)
    ensures row in candidates && Consistent(typeOf, known, row.choices, remaining)
    decreases |remaining|
  {
    row := candidates[0];
    if remaining != [] {
      var condition := remaining[0];
      var value := typeOf(condition).Some? && known(typeOf(condition).value).IsTrue?;
      SideIsFull(candidates, remaining, value);
      HeadAndTail(remaining);
      row := SomeRowFits(typeOf, known, Side(candidates, condition, value), remaining[1..]);
      ConsistentSplits(typeOf, known, row.choices, remaining);
    }
  }

  lemma ConsistentSplits(typeOf: TypeOf, known: Known, choices: Choices, remaining: seq<Text>)
    requires remaining != [] && remaining[0] in choices
    ensures Consistent(typeOf, known, choices, remaining) ==
      (Fits(typeOf, known, remaining[0], choices[remaining[0]]) && Consistent(typeOf, known, choices, remaining[1..]))
  {
    HeadAndTail(remaining);
  }

  ghost function FittingRows(typeOf: TypeOf, known: Known, candidates: seq<Row>, conditions: seq<Text>): set<Text> {
    set r | r in candidates && Consistent(typeOf, known, r.choices, conditions) :: r.row
  }

  lemma {:induction false} RowsAreExact(typeOf: TypeOf, known: Known, candidates: seq<Row>, remaining: seq<Text>)
    requires candidates != [] && Full(candidates, remaining) && NoRepeats(remaining)
    ensures RowsOf(typeOf, known, candidates, remaining)
      == FittingRows(typeOf, known, candidates, remaining)
    decreases |remaining|
  {
    if |Unique(candidates)| == 1 {
      OnlyRow(typeOf, known, candidates, remaining);
      assert SetOf(Unique(candidates)) == {Unique(candidates)[0]};
    } else if remaining == [] {
      AllRows(typeOf, known, candidates);
    } else {
      var condition, rest := remaining[0], remaining[1..];
      HeadAndTail(remaining);
      if typeOf(condition).None? {
        RowsAreExact(typeOf, known, candidates, rest);
        FittingUntyped(typeOf, known, candidates, remaining);
      } else {
        SideIsFull(candidates, remaining, true);
        SideIsFull(candidates, remaining, false);
        RowsAreExact(typeOf, known, Side(candidates, condition, true), rest);
        RowsAreExact(typeOf, known, Side(candidates, condition, false), rest);
        FittingTyped(typeOf, known, candidates, remaining);
      }
    }
  }

  lemma UniqueHas(candidates: seq<Row>, row: Row)
    requires row in candidates
    ensures row.row in Unique(candidates)
  {
    var i :| 0 <= i < |candidates| && candidates[i] == row;
  }

  lemma SingleRow(candidates: seq<Row>, row: Row)
    requires row in candidates && |Unique(candidates)| == 1
    ensures row.row == Unique(candidates)[0]
  {
    UniqueHas(candidates, row);
  }

  lemma OneTextFits(typeOf: TypeOf, known: Known, candidates: seq<Row>, remaining: seq<Text>, row: Row, text: Text)
    requires row in candidates && Consistent(typeOf, known, row.choices, remaining)
    requires forall r :: r in candidates ==> r.row == text
    ensures FittingRows(typeOf, known, candidates, remaining) == {text}
  {
    assert row.row in FittingRows(typeOf, known, candidates, remaining);
  }

  lemma OnlyRow(typeOf: TypeOf, known: Known, candidates: seq<Row>, remaining: seq<Text>)
    requires candidates != [] && Full(candidates, remaining) && NoRepeats(remaining) && |Unique(candidates)| == 1
    ensures FittingRows(typeOf, known, candidates, remaining) == {Unique(candidates)[0]}
  {
    forall r | r in candidates ensures r.row == Unique(candidates)[0] {
      SingleRow(candidates, r);
    }
    var row := SomeRowFits(typeOf, known, candidates, remaining);
    OneTextFits(typeOf, known, candidates, remaining, row, Unique(candidates)[0]);
  }

  lemma AllRows(typeOf: TypeOf, known: Known, candidates: seq<Row>)
    ensures FittingRows(typeOf, known, candidates, []) == SetOf(Unique(candidates))
  {
    forall text | text in Unique(candidates) ensures text in FittingRows(typeOf, known, candidates, []) {
      var i :| 0 <= i < |candidates| && candidates[i].row == text;
      assert candidates[i] in candidates && Consistent(typeOf, known, candidates[i].choices, []);
    }
    forall r | r in candidates ensures r.row in Unique(candidates) {
      UniqueHas(candidates, r);
    }
  }

  lemma FittingUntyped(typeOf: TypeOf, known: Known, candidates: seq<Row>, remaining: seq<Text>)
    requires remaining != [] && typeOf(remaining[0]).None? && Full(candidates, remaining)
    ensures FittingRows(typeOf, known, candidates, remaining) == FittingRows(typeOf, known, candidates, remaining[1..])
  {
    forall r | r in candidates
      ensures Consistent(typeOf, known, r.choices, remaining) <==> Consistent(typeOf, known, r.choices, remaining[1..])
    {
      assert BothWays(candidates, r, remaining[0]);
      ConsistentSplits(typeOf, known, r.choices, remaining);
    }
  }

  lemma FittingTyped(typeOf: TypeOf, known: Known, candidates: seq<Row>, remaining: seq<Text>)
    requires remaining != [] && typeOf(remaining[0]).Some? && Full(candidates, remaining)
    ensures var truthy := FittingRows(typeOf, known, Side(candidates, remaining[0], true), remaining[1..]);
      var falsy := FittingRows(typeOf, known, Side(candidates, remaining[0], false), remaining[1..]);
      FittingRows(typeOf, known, candidates, remaining)
      == match known(typeOf(remaining[0]).value)
         case IsTrue => truthy
         case IsFalse => falsy
         case Unknown => truthy + falsy
  {
    forall r | r in candidates
      ensures remaining[0] in r.choices
      ensures Consistent(typeOf, known, r.choices, remaining) <==>
        Fits(typeOf, known, remaining[0], r.choices[remaining[0]])
          && Consistent(typeOf, known, r.choices, remaining[1..])
    {
      assert BothWays(candidates, r, remaining[0]);
      ConsistentSplits(typeOf, known, r.choices, remaining);
    }
  }

  /** The folded text is one whole type: what is read of it is what the folding keeps. */
  lemma FoldedTextMeansItsRows(typeOf: TypeOf, known: Known, candidates: seq<Row>, remaining: seq<Text>)
    requires candidates != []
    ensures Meaning(Resolve(typeOf, candidates, remaining), known) == Some(RowsOf(typeOf, known, candidates, remaining))
  {
    var text, rows := Resolve(typeOf, candidates, remaining), RowsOf(typeOf, known, candidates, remaining);
    ResolveReads(typeOf, known, candidates, remaining);
    assert ReadsAs(text, rows, [], known) && text + [] == text;
  }

  /** Soundness: whatever is known, the text stands for a type that includes the row of every assignment that fits. */
  lemma RowTypeIsSound(typeOf: TypeOf, known: Known, candidates: seq<Row>, remaining: seq<Text>, row: Row)
    requires row in candidates
    requires forall c :: c in remaining ==> c in row.choices
    requires Consistent(typeOf, known, row.choices, remaining)
    ensures var rows := Meaning(Resolve(typeOf, candidates, remaining), known); rows.Some? && row.row in rows.value
  {
    FoldedTextMeansItsRows(typeOf, known, candidates, remaining);
    RowsAreSound(typeOf, known, candidates, remaining, row);
  }

  /**
   * Exactness: for the rows of an expansion the text stands, under any knowledge of the condition types, for the rows
   * of exactly those assignments that fit it; conditions whose type cannot be read count as unknown.
   */
  lemma RowTypeIsExact(typeOf: TypeOf, known: Known, candidates: seq<Row>, remaining: seq<Text>)
    requires candidates != [] && Full(candidates, remaining) && NoRepeats(remaining)
    ensures Meaning(Resolve(typeOf, candidates, remaining), known)
            == Some(FittingRows(typeOf, known, candidates, remaining))
  {
    FoldedTextMeansItsRows(typeOf, known, candidates, remaining);
    RowsAreExact(typeOf, known, candidates, remaining);
  }

  lemma {:induction false} UniqueOfOne(candidates: seq<Row>, row: Text)
    requires candidates != [] && forall i :: 0 <= i < |candidates| ==> candidates[i].row == row
    ensures Unique(candidates) == [row]
  {
    var front := candidates[..|candidates| - 1];
    if front != [] {
      UniqueOfOne(front, row);
    }
  }

  /** A row that does not depend on any condition is its own type. */
  lemma OneRowIsItself(typeOf: TypeOf, candidates: seq<Row>, remaining: seq<Text>, row: Text)
    requires candidates != [] && forall i :: 0 <= i < |candidates| ==> candidates[i].row == row
    ensures Resolve(typeOf, candidates, remaining) == [Name(row)]
  {
    UniqueOfOne(candidates, row);
  }

  function ChoicesOf(rows: seq<Row>): (all: seq<Choices>)
    ensures |all| == |rows|
  {
    seq(|rows|, i requires 0 <= i < |rows| => rows[i].choices)
  }

  /** The rows of an expansion, one for each assignment, can have any condition flipped. */
  lemma ExpansionRowsAreFull(rows: seq<Row>, conditions: seq<Text>)
    requires Structural.ExactlyOnce(ChoicesOf(rows), set c | c in conditions)
    ensures Full(rows, conditions)
  {
    var all := set c | c in conditions;
    forall r, c | r in rows && c in conditions ensures BothWays(rows, r, c) {
      var i :| 0 <= i < |rows| && rows[i] == r;
      assert ChoicesOf(rows)[i].Keys == all;
      FlippedIsThere(rows, all, r.choices[c := true]);
      FlippedIsThere(rows, all, r.choices[c := false]);
    }
  }

  lemma FlippedIsThere(rows: seq<Row>, all: set<Text>, choices: Choices)
    requires Structural.Complete(ChoicesOf(rows), all) && choices.Keys == all
    ensures HasChoices(rows, choices)
  {
    var i :| 0 <= i < |rows| && ChoicesOf(rows)[i] == choices;
    assert rows[i] in rows;
  }

  /**
   * When every condition's type can be read and is literally true or false, the row type of an expansion is exactly
   * the row of the assignment those types spell out.
   */
  lemma LiteralTypesGiveOneRow(typeOf: TypeOf, known: Known, rows: seq<Row>, conditions: seq<Text>, row: Row)
    requires NoRepeats(conditions) && row in rows
    requires Structural.ExactlyOnce(ChoicesOf(rows), set c | c in conditions)
    requires forall c :: c in conditions ==> typeOf(c).Some? && !known(typeOf(c).value).Unknown?
    requires Consistent(typeOf, known, row.choices, conditions)
    ensures Meaning(Resolve(typeOf, rows, conditions), known) == Some({row.row})
  {
    ExpansionRowsAreFull(rows, conditions);
    RowTypeIsExact(typeOf, known, rows, conditions);
    forall r | r in rows && Consistent(typeOf, known, r.choices, conditions) ensures r == row {
      OneRowFits(typeOf, known, rows, conditions, row, r);
    }
    assert FittingRows(typeOf, known, rows, conditions) == {row.row};
  }

  lemma OneRowFits(typeOf: TypeOf, known: Known, rows: seq<Row>, conditions: seq<Text>, a: Row, b: Row)
    requires a in rows && b in rows
    requires Structural.ExactlyOnce(ChoicesOf(rows), set c | c in conditions)
    requires forall c :: c in conditions ==> typeOf(c).Some? && !known(typeOf(c).value).Unknown?
    requires Consistent(typeOf, known, a.choices, conditions) && Consistent(typeOf, known, b.choices, conditions)
    ensures a == b
  {
    var all := set c | c in conditions;
    var i :| 0 <= i < |rows| && rows[i] == a;
    var j :| 0 <= j < |rows| && rows[j] == b;
    assert ChoicesOf(rows)[i].Keys == all == ChoicesOf(rows)[j].Keys;
    forall c | c in all ensures a.choices[c] == b.choices[c] {
      assert Fits(typeOf, known, c, a.choices[c]) && Fits(typeOf, known, c, b.choices[c]);
    }
    assert a.choices == b.choices;
    DistinctAt(ChoicesOf(rows), i, j);
  }

  lemma DistinctAt(assignments: seq<Choices>, i: nat, j: nat)
    requires Structural.Distinct(assignments) && i < |assignments| && j < |assignments|
    requires assignments[i] == assignments[j]
    ensures i == j
  {
  }
}
