/**
 * Which texts the comparison of types takes for literals (packages/compiler/src/verification.ts, primitiveType):
 * exactly those of a grammar of numbers, big integers and JSON strings.
 */
module JsonLiterals {
  import opened Text
  import opened UnionTypes

  datatype Exponent = Exponent(mark: Unit, sign: Option<Unit>, digits: Text)

  datatype Number = Number(negative: bool, integer: Text, fraction: Option<Text>, exponent: Option<Exponent>)

  const MINUS: Unit := 0x2D
  const PLUS: Unit := 0x2B
  const POINT: Unit := 0x2E
  const ZERO: Unit := 0x30
  const LETTER_N: Unit := 0x6E
  const LETTER_U: Unit := 0x75

  predicate AreDigits(text: Text) {
    text != [] && forall i :: 0 <= i < |text| ==> IsDigit(text[i])
  }

  predicate IsInteger(digits: Text) {
    AreDigits(digits) && (|digits| > 1 ==> digits[0] != ZERO)
  }

  predicate IsExponent(e: Exponent) {
    && (e.mark == 0x65 || e.mark == 0x45) && AreDigits(e.digits)
    && (e.sign.Some? ==> e.sign.value == PLUS || e.sign.value == MINUS)
  }

  predicate IsWellFormed(n: Number) {
    && IsInteger(n.integer)
    && (n.fraction.Some? ==> AreDigits(n.fraction.value))
    && (n.exponent.Some? ==> IsExponent(n.exponent.value))
  }

  function PrintInteger(negative: bool, digits: Text): Text {
    (if negative then [MINUS] else []) + digits
  }

  function PrintFraction(fraction: Option<Text>): Text {
    match fraction
    case None => []
    case Some(digits) => [POINT] + digits
  }

  function PrintExponent(exponent: Option<Exponent>): Text {
    match exponent
    case None => []
    case Some(e) => [e.mark] + (if e.sign.Some? then [e.sign.value] else []) + e.digits
  }

  function Print(n: Number): Text {
    PrintInteger(n.negative, n.integer) + (PrintFraction(n.fraction) + PrintExponent(n.exponent))
  }

  lemma {:induction false} DigitsEndThere(text: Text, i: nat, end: nat)
    requires i <= end <= |text| && (forall k :: i <= k < end ==> IsDigit(text[k]))
    requires end < |text| ==> !IsDigit(text[end])
    ensures DigitsEnd(text, i) == end
    decreases end - i
  {
    if i < end {
      DigitsEndThere(text, i + 1, end);
    }
  }

  lemma {:induction false} DigitsUpToEnd(text: Text, i: nat)
    requires i <= |text|
    ensures forall k :: i <= k < DigitsEnd(text, i) ==> IsDigit(text[k])
    decreases |text| - i
  {
    if i < |text| && IsDigit(text[i]) {
      DigitsUpToEnd(text, i + 1);
    }
  }

  // ---------------------------------------------------------------------------
  // What is printed is read
  // ---------------------------------------------------------------------------

  lemma IntegerIsRead(negative: bool, digits: Text, rest: Text)
    requires IsInteger(digits) && (rest != [] ==> !IsDigit(rest[0]))
    ensures IntegerEnd(PrintInteger(negative, digits) + rest) == Some(|PrintInteger(negative, digits)|)
  {
    var front := PrintInteger(negative, digits);
    var text, from := front + rest, if negative then 1 else 0;
    assert text[from] == digits[0];
    forall k | from <= k < |front| ensures IsDigit(text[k]) {
      assert text[k] == digits[k - from];
    }
    if digits[0] != ZERO {
      DigitsEndThere(text, from + 1, |front|);
    }
  }

  lemma FractionIsRead(front: Text, fraction: Option<Text>, rest: Text)
    requires fraction.Some? ==> AreDigits(fraction.value)
    requires rest != [] ==> !IsDigit(rest[0]) && rest[0] != POINT
    ensures FractionEnd(front + (PrintFraction(fraction) + rest), |front|) == |front| + |PrintFraction(fraction)|
  {
    var middle := PrintFraction(fraction);
    var text, i := front + (middle + rest), |front|;
    if fraction.Some? {
      forall k | i < k < i + |middle| ensures IsDigit(text[k]) {
        assert text[k] == fraction.value[k - i - 1];
      }
      DigitsEndThere(text, i + 1, i + |middle|);
    }
  }

  lemma ExponentIsRead(front: Text, exponent: Option<Exponent>)
    requires exponent.Some? ==> IsExponent(exponent.value)
    ensures ExponentEnd(front + PrintExponent(exponent), |front|) == |front| + |PrintExponent(exponent)|
  {
    var text, i := front + PrintExponent(exponent), |front|;
    if exponent.Some? {
      var e := exponent.value;
      var from := if e.sign.Some? then i + 2 else i + 1;
      assert text[i] == e.mark;
      assert text[i + 1] == if e.sign.Some? then e.sign.value else e.digits[0];
      forall k | from <= k < |text| ensures IsDigit(text[k]) {
        assert text[k] == e.digits[k - from];
      }
      DigitsEndThere(text, from, |text|);
    }
  }

  lemma PrintedNumberIsRead(n: Number)
    requires IsWellFormed(n)
    ensures IsNumber(Print(n))
  {
    var integer, fraction, exponent := PrintInteger(n.negative, n.integer), PrintFraction(n.fraction),
                                       PrintExponent(n.exponent);
    IntegerIsRead(n.negative, n.integer, fraction + exponent);
    FractionIsRead(integer, n.fraction, exponent);
    Associate(integer, fraction, exponent);
    ExponentIsRead(integer + fraction, n.exponent);
  }

  // ---------------------------------------------------------------------------
  // What is read has been printed
  // ---------------------------------------------------------------------------

  lemma ReadInteger(text: Text) returns (negative: bool, digits: Text)
    requires IntegerEnd(text).Some?
    ensures IsInteger(digits) && text[..IntegerEnd(text).value] == PrintInteger(negative, digits)
  {
    var end := IntegerEnd(text).value;
    negative := text[0] == MINUS;
    var from := if negative then 1 else 0;
    if text[from] != ZERO {
      DigitsUpToEnd(text, from + 1);
    }
    digits := text[from..end];
    forall k | 0 <= k < |digits| ensures IsDigit(digits[k]) {
      assert digits[k] == text[from + k];
    }
    assert text[..end] == PrintInteger(negative, digits);
  }

  lemma ReadFraction(text: Text, i: nat) returns (fraction: Option<Text>)
    requires i <= |text|
    ensures fraction.Some? ==> AreDigits(fraction.value)
    ensures text[i..FractionEnd(text, i)] == PrintFraction(fraction)
  {
    var end := FractionEnd(text, i);
    fraction := None;
    if i < end {
      DigitsUpToEnd(text, i + 1);
      var digits := text[i + 1..end];
      forall k | 0 <= k < |digits| ensures IsDigit(digits[k]) {
        assert digits[k] == text[i + 1 + k];
      }
      fraction := Some(digits);
      assert text[i..end] == [POINT] + digits;
    }
  }

  lemma ReadExponent(text: Text, i: nat) returns (exponent: Option<Exponent>)
    requires i <= |text|
    ensures exponent.Some? ==> IsExponent(exponent.value)
    ensures text[i..ExponentEnd(text, i)] == PrintExponent(exponent)
  {
    var end := ExponentEnd(text, i);
    exponent := None;
    if i < end {
      var signed := text[i + 1] == PLUS || text[i + 1] == MINUS;
      var from := if signed then i + 2 else i + 1;
      DigitsUpToEnd(text, from);
      var digits := text[from..end];
      forall k | 0 <= k < |digits| ensures IsDigit(digits[k]) {
        assert digits[k] == text[from + k];
      }
      exponent := Some(Exponent(text[i], if signed then Some(text[i + 1]) else None, digits));
      assert text[i..end] == PrintExponent(exponent);
    }
  }

  lemma ReadNumber(text: Text) returns (n: Number)
    requires IsNumber(text)
    ensures IsWellFormed(n) && Print(n) == text
  {
    var i := IntegerEnd(text).value;
    var j := FractionEnd(text, i);
    var negative, digits := ReadInteger(text);
    var fraction := ReadFraction(text, i);
    var exponent := ReadExponent(text, j);
    n := Number(negative, digits, fraction, exponent);
    InThree(text, i, j);
  }

  lemma InThree(text: Text, i: nat, j: nat)
    requires i <= j <= |text|
    ensures text == text[..i] + (text[i..j] + text[j..|text|])
  {
  }

  /** The texts taken for numbers are exactly those of the grammar. */
  lemma NumbersAreTheGrammars(text: Text)
    ensures IsNumber(text) <==> exists n :: IsWellFormed(n) && Print(n) == text
  {
    if IsNumber(text) {
      var n := ReadNumber(text);
    }
    if n :| IsWellFormed(n) && Print(n) == text {
      PrintedNumberIsRead(n);
    }
  }

  /** The texts taken for big integers are exactly the integers with an `n` behind. */
  lemma BigintsAreTheGrammars(text: Text)
    ensures IsBigint(text) <==>
      exists negative, digits :: IsInteger(digits) && text == PrintInteger(negative, digits) + [LETTER_N]
  {
    if IsBigint(text) {
      var negative, digits := ReadInteger(text);
      var end := IntegerEnd(text).value;
      assert text == text[..end] + [text[end]];
    }
    if negative, digits :| IsInteger(digits) && text == PrintInteger(negative, digits) + [LETTER_N] {
      IntegerIsRead(negative, digits, [LETTER_N]);
    }
  }

  // ---------------------------------------------------------------------------
  // Strings
  // ---------------------------------------------------------------------------

  datatype Piece = Plain(unit: Unit) | Simple(unit: Unit) | Code(digits: Text)

  predicate IsPiece(piece: Piece) {
    match piece
    case Plain(unit) => unit >= 0x20 && unit != QUOTE && unit != BACKSLASH
    case Simple(unit) => unit in {QUOTE, BACKSLASH, 0x2F, 0x62, 0x66, 0x6E, 0x72, 0x74}
    case Code(digits) => |digits| == 4 && forall i :: 0 <= i < 4 ==> IsHex(digits[i])
  }

  predicate ArePieces(pieces: seq<Piece>) {
    forall i :: 0 <= i < |pieces| ==> IsPiece(pieces[i])
  }

  function PrintPiece(piece: Piece): Text {
    match piece
    case Plain(unit) => [unit]
    case Simple(unit) => [BACKSLASH, unit]
    case Code(digits) => [BACKSLASH, LETTER_U] + digits
  }

  /** Pieces and the closing quote. */
  function PrintTail(pieces: seq<Piece>): Text {
    if pieces == [] then [QUOTE] else PrintPiece(pieces[0]) + PrintTail(pieces[1..])
  }

  lemma {:induction false} PrintedTailIsRead(pieces: seq<Piece>)
    requires ArePieces(pieces)
    ensures JsonTail(PrintTail(pieces))
  {
    if pieces != [] {
      PrintedTailIsRead(pieces[1..]);
      var piece, rest, text := pieces[0], PrintTail(pieces[1..]), PrintTail(pieces);
      assert IsPiece(piece);
      assert text[|PrintPiece(piece)|..] == rest;
      if piece.Code? {
        assert text[2] == piece.digits[0] && text[3] == piece.digits[1];
        assert text[4] == piece.digits[2] && text[5] == piece.digits[3];
      }
    }
  }

  lemma {:induction false} ReadTail(text: Text) returns (pieces: seq<Piece>)
    requires JsonTail(text)
    ensures ArePieces(pieces) && PrintTail(pieces) == text
  {
    if text[0] == QUOTE {
      return [];
    }
    var piece :=
      if text[0] != BACKSLASH then Plain(text[0])
      else if text[1] != LETTER_U then Simple(text[1])
      else Code(text[2..6]);
    var length := |PrintPiece(piece)|;
    var later := ReadTail(text[length..]);
    pieces := [piece] + later;
    assert pieces[1..] == later;
    assert text == PrintPiece(piece) + text[length..];
  }

  /** The texts taken for strings are exactly those of the grammar: plain units and escapes between quotes. */
  lemma StringsAreTheGrammars(text: Text)
    ensures IsJsonString(text) <==> exists pieces :: ArePieces(pieces) && text == [QUOTE] + PrintTail(pieces)
  {
    if IsJsonString(text) {
      var pieces := ReadTail(text[1..]);
      assert text == [QUOTE] + text[1..];
    }
    if pieces :| ArePieces(pieces) && text == [QUOTE] + PrintTail(pieces) {
      PrintedTailIsRead(pieces);
      EndsWithQuote(pieces);
      assert text[1..] == PrintTail(pieces);
    }
  }

  lemma {:induction false} EndsWithQuote(pieces: seq<Piece>)
    ensures PrintTail(pieces) != [] && PrintTail(pieces)[|PrintTail(pieces)| - 1] == QUOTE
  {
    if pieces != [] {
      EndsWithQuote(pieces[1..]);
    }
  }

  // ---------------------------------------------------------------------------
  // The primitive type of a member
  // ---------------------------------------------------------------------------

  lemma NumbersStartLikeNumbers(text: Text)
    requires IsNumber(text) || IsBigint(text)
    ensures text != [] && (IsDigit(text[0]) || text[0] == MINUS)
    ensures !(IsNumber(text) && IsBigint(text))
  {
  }

  /** A member has a primitive type exactly when it is its name or one of its literals. */
  lemma PrimitivesOfMembers(text: Text)
    ensures PrimitiveOf(text) == Some(NumberType) <==> text == NUMBER || IsNumber(text)
    ensures PrimitiveOf(text) == Some(BigintType) <==> text == BIGINT || IsBigint(text)
    ensures PrimitiveOf(text) == Some(BooleanType) <==> text == BOOLEAN || text == TRUE || text == FALSE
    ensures PrimitiveOf(text) == Some(StringType) <==> text == STRING || IsJsonString(text)
    ensures PrimitiveOf(text) == Some(NullType) <==> text == NULL
    ensures PrimitiveOf(text) == Some(UndefinedType) <==> text == UNDEFINED
  {
    if IsNumber(text) || IsBigint(text) {
      NumbersStartLikeNumbers(text);
    }
  }
}
