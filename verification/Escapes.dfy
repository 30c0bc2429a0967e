/** Numeric escapes, printed and cooked again (packages/compiler/src/scanner.ts, cookedEscape). */
module Escapes {
  import opened Text
  import opened Scanner

  const LETTER_X: Unit := 0x78
  const LETTER_U: Unit := 0x75
  const DIGITS: Text := [0x30, 0x31, 0x32, 0x33, 0x34, 0x35, 0x36, 0x37, 0x38, 0x39]

  function Power16(width: nat): nat {
    if width == 0 then 1 else 16 * Power16(width - 1)
  }

  function DigitFor(value: nat, capital: bool): Unit
    requires value < 16
  {
    if value < 10 then 0x30 + value else (if capital then 0x41 else 0x61) + value - 10
  }

  /** `width` hexadecimal digits, the `k`-th from the left a capital or not as `capitals(k)` says. */
  function HexOf(value: nat, width: nat, capitals: nat -> bool): (digits: Text)
    ensures |digits| == width
  {
    if width == 0 then []
    else HexOf(value / 16, width - 1, capitals) + [DigitFor(value % 16, capitals(width - 1))]
  }

  lemma {:induction false} HexReadsBack(value: nat, width: nat, capitals: nat -> bool)
    requires value < Power16(width)
    ensures HexNumber(HexOf(value, width, capitals)) == Some(value)
    ensures CLOSE_BRACE !in HexOf(value, width, capitals)
  {
    if width > 0 {
      HexReadsBack(value / 16, width - 1, capitals);
      var digits := HexOf(value, width, capitals);
      assert digits[..width - 1] == HexOf(value / 16, width - 1, capitals);
      assert HexDigit(digits[width - 1]) == Some(value % 16);
      assert 16 * (value / 16) + value % 16 == value;
    }
  }

  lemma PowersOf16()
    ensures Power16(2) == 0x100 && Power16(4) == 0x1_0000
  {
    assert Power16(1) == 16 && Power16(2) == 16 * Power16(1) && Power16(3) == 16 * Power16(2);
  }

  lemma FixedReadsBack(before: Text, letter: Unit, value: Unit, width: nat, capitals: nat -> bool, after: Text)
    requires (letter == LETTER_X && width == 2) || (letter == LETTER_U && width == 4)
    requires value < Power16(width)
    ensures var source := before + ([BACKSLASH, letter] + HexOf(value, width, capitals) + after);
      CookedEscape(source, |before|) == Some(Escape([value], |before| + 2 + width))
  {
    var digits := HexOf(value, width, capitals);
    var source := before + ([BACKSLASH, letter] + digits + after);
    var start := |before| + 2;
    HexReadsBack(value, width, capitals);
    assert source[start..start + width] == digits;
    assert source[start - 1] == letter;
    assert source[start] == digits[0];
    FirstDigit(value, width, capitals);
  }

  lemma {:induction false} FirstDigit(value: nat, width: nat, capitals: nat -> bool)
    requires width > 0
    ensures HexOf(value, width, capitals)[0] != OPEN_BRACE
  {
    if width > 1 {
      FirstDigit(value / 16, width - 1, capitals);
    }
  }

  lemma {:induction false} BraceIsFirst(source: Text, from: nat, close: nat)
    requires from <= close < |source| && source[close] == CLOSE_BRACE
    requires forall i :: from <= i < close ==> source[i] != CLOSE_BRACE
    ensures IndexOf(source, [CLOSE_BRACE], from) == close
    decreases close - from
  {
    assert source[from..from + 1] == [source[from]];
    if from < close {
      BraceIsFirst(source, from + 1, close);
    }
  }

  /** Every code unit reads back from its \u escape, and every one below 256 from its \x escape, whatever follows. */
  lemma FixedEscapesReadBack(before: Text, unit: Unit, capitals: nat -> bool, after: Text)
    ensures CookedEscape(before + ([BACKSLASH, LETTER_U] + HexOf(unit, 4, capitals) + after), |before|)
            == Some(Escape([unit], |before| + 6))
    ensures unit < 0x100 ==>
      CookedEscape(before + ([BACKSLASH, LETTER_X] + HexOf(unit, 2, capitals) + after), |before|)
        == Some(Escape([unit], |before| + 4))
  {
    PowersOf16();
    FixedReadsBack(before, LETTER_U, unit, 4, capitals, after);
    if unit < 0x100 {
      FixedReadsBack(before, LETTER_X, unit, 2, capitals, after);
    }
  }

  /** A backslash and a zero are a null unit unless a digit follows, which is malformed. */
  lemma ZeroIsNullUnlessADigitFollows(before: Text, after: Text)
    ensures CookedEscape(before + ([BACKSLASH, 0x30] + after), |before|)
      == if after != [] && after[0] in DIGITS then None else Some(Escape([0], |before| + 2))
  {
    var source := before + ([BACKSLASH, 0x30] + after);
    assert source[|before| + 1] == 0x30;
    assert after != [] ==> source[|before| + 2] == after[0];
  }

  lemma ClosingBraceIsFound(front: Text, digits: Text, after: Text)
    requires CLOSE_BRACE !in digits
    ensures IndexOf(front + digits + ([CLOSE_BRACE] + after), [CLOSE_BRACE], |front|) == |front| + |digits|
  {
    BraceIsFirst(front + digits + ([CLOSE_BRACE] + after), |front|, |front| + |digits|);
  }

  lemma BracedOpens(source: Text, at: nat, start: nat)
    requires at + 3 == start <= |source| && source[at + 1] == LETTER_U && source[at + 2] == OPEN_BRACE
    ensures CookedEscape(source, at) == BracedEscape(source, start)
  {
  }

  lemma BracedCloses(source: Text, start: nat, close: nat, end: nat, point: nat)
    requires start < close <= start + 6 && close < |source| && IndexOf(source, [CLOSE_BRACE], start) == close
    requires HexNumber(source[start..close]) == Some(point) && point <= 0x10_FFFF && end == close + 1
    ensures BracedEscape(source, start) == Some(Escape(FromCodePoint(point), end))
  {
  }

  /** Any digits in braces read as their number. */
  lemma BracedReadsBack(front: Text, at: nat, digits: Text, end: nat, point: nat, after: Text)
    requires |front| == at + 3 && front[at + 1] == LETTER_U && front[at + 2] == OPEN_BRACE
    requires HexNumber(digits) == Some(point) && point <= 0x10_FFFF && CLOSE_BRACE !in digits && 1 <= |digits| <= 6
    requires end == |front| + |digits| + 1
    ensures CookedEscape(front + digits + ([CLOSE_BRACE] + after), at) == Some(Escape(FromCodePoint(point), end))
  {
    var source := front + digits + ([CLOSE_BRACE] + after);
    SliceOfMiddle(front, digits, [CLOSE_BRACE] + after);
    ClosingBraceIsFound(front, digits, after);
    BracedOpens(source, at, |front|);
    BracedCloses(source, |front|, |front| + |digits|, end, point);
  }

  /** Every code point reads back from its braced escape, in any number of digits up to six that hold it. */
  lemma BracedEscapesReadBack(before: Text, point: nat, width: nat, capitals: nat -> bool, end: nat, after: Text)
    requires point <= 0x10_FFFF && 1 <= width <= 6 && point < Power16(width) && end == |before| + width + 4
    ensures var digits := HexOf(point, width, capitals);
      var source := before + [BACKSLASH, LETTER_U, OPEN_BRACE] + digits + ([CLOSE_BRACE] + after);
      CookedEscape(source, |before|) == Some(Escape(FromCodePoint(point), end))
  {
    var front := before + [BACKSLASH, LETTER_U, OPEN_BRACE];
    assert front[|before| + 1] == LETTER_U && front[|before| + 2] == OPEN_BRACE;
    HexReadsBack(point, width, capitals);
    BracedReadsBack(front, |before|, HexOf(point, width, capitals), end, point, after);
  }

  /** A code point beyond the units becomes a surrogate pair from which it can be computed again. */
  lemma SurrogatesHoldTheCodePoint(point: nat)
    requires 0x1_0000 <= point <= 0x10_FFFF
    ensures var pair := FromCodePoint(point);
      && |pair| == 2 && 0xD800 <= pair[0] < 0xDC00 <= pair[1] < 0xE000
      && 0x1_0000 + (pair[0] as int - 0xD800) * 0x400 + (pair[1] as int - 0xDC00) == point
  {
  }
}
