/** Recognising one structural operand (packages/compiler/src/scanner.ts). */
module Operands {
  import opened Text
  import opened Scanner

  /** An explicitly empty side, or a tagged fragment whose template opens at `backtick`. */
  datatype Operand = Empty(start: nat, end: nat) | Fragment(start: nat, end: nat, backtick: nat)

  predicate IsWhitespace(unit: Unit) {
    unit in {0x20, 0x09, LF, CR, 0x0C, 0x0B, 0x2028, 0x2029}
  }

  function SkipTrivia(source: Text, i: nat): (r: nat)
    ensures i <= r
    decreases |source| - i
  {
    if i >= |source| then i
    else if IsWhitespace(source[i]) then SkipTrivia(source, i + 1)
    else if source[i] == SLASH && At(source, i + 1) == Some(SLASH) then SkipTrivia(source, LineCommentEnd(source, i))
    else if source[i] == SLASH && At(source, i + 1) == Some(STAR) then SkipTrivia(source, BlockCommentEnd(source, i))
    else i
  }

  function TrimStart(source: Text, start: nat, end: nat): (r: nat)
    requires start <= end <= |source|
    ensures start <= r <= end
    decreases end - start
  {
    if start < end && IsWhitespace(source[start]) then TrimStart(source, start + 1, end) else start
  }

  function TrimEnd(source: Text, start: nat, end: nat): (r: nat)
    requires start <= end <= |source|
    ensures start <= r <= end
    decreases end - start
  {
    if start < end && IsWhitespace(source[end - 1]) then TrimEnd(source, start, end - 1) else end
  }

  function Ascii(s: string): Text {
    seq(|s|, i requires 0 <= i < |s| => s[i] as int % 0x1_0000)
  }

  const DOT_EMPTY := Ascii(".empty")
  const DOT_FRAGMENT := Ascii(".fragment")

  /** Where the template of a fragment operand that starts at `start` must open. */
  function BacktickAfter(source: Text, tagName: Text, start: nat): nat {
    SkipTrivia(source, start + |tagName + DOT_FRAGMENT|)
  }

  function StructuralOperand(source: Text, start: nat, end: nat, tagName: Text,
                             allowOmitted: bool): (r: Option<Operand>)
    requires start <= end <= |source|
    ensures r.Some? ==> start <= r.value.start <= r.value.end <= end
    ensures r.Some? && r.value.Fragment? ==>
      && r.value.backtick == BacktickAfter(source, tagName, r.value.start)
      && At(source, r.value.backtick) == Some(BACKTICK)
      && TemplateEnd(source, r.value.backtick + 1) == r.value.end
  {
    var first := TrimStart(source, start, end);
    var last := TrimEnd(source, first, end);
    var text := source[first..last];
    if allowOmitted && text in {Ascii("undefined"), Ascii("null"), Ascii("false")} then Some(Empty(first, last))
    else if text == tagName + DOT_EMPTY then Some(Empty(first, last))
    else if !(tagName + DOT_FRAGMENT <= source[first..]) then None
    else
      var backtick := BacktickAfter(source, tagName, first);
      if At(source, backtick) != Some(BACKTICK) || TemplateEnd(source, backtick + 1) != last then None
      else Some(Fragment(first, last, backtick))
  }

  lemma {:induction false} StartIsTrimmed(source: Text, start: nat, first: nat, end: nat)
    requires start <= first < end <= |source| && !IsWhitespace(source[first])
    requires forall k :: start <= k < first ==> IsWhitespace(source[k])
    ensures TrimStart(source, start, end) == first
    decreases first - start
  {
    if start < first {
      StartIsTrimmed(source, start + 1, first, end);
    }
  }

  lemma {:induction false} EndIsTrimmed(source: Text, start: nat, last: nat, end: nat)
    requires start < last <= end <= |source| && !IsWhitespace(source[last - 1])
    requires forall k :: last <= k < end ==> IsWhitespace(source[k])
    ensures TrimEnd(source, start, end) == last
    decreases end - last
  {
    if last < end {
      EndIsTrimmed(source, start, last, end - 1);
    }
  }

  /**
   * An operand is what stands between the spaces around it. It is empty exactly when that is `.empty` behind the tag,
   * or, where a fragment may be left out, one of the words for nothing.
   */
  lemma OperandsAreTrimmed(source: Text, start: nat, first: nat, last: nat, end: nat, tagName: Text, allowOmitted: bool)
    requires start <= first < last <= end <= |source|
    requires !IsWhitespace(source[first]) && !IsWhitespace(source[last - 1])
    requires forall k :: start <= k < first || last <= k < end ==> IsWhitespace(source[k])
    ensures var r, text := StructuralOperand(source, start, end, tagName, allowOmitted), source[first..last];
      && (r == Some(Empty(first, last)) <==>
            || text == tagName + DOT_EMPTY
            || (allowOmitted && (text == Ascii("undefined") || text == Ascii("null") || text == Ascii("false"))))
      && (r.Some? ==> r.value.start == first && r.value.end == last)
  {
    StartIsTrimmed(source, start, first, end);
    EndIsTrimmed(source, first, last, end);
  }

  // ---------------------------------------------------------------------------
  // The two readers of a template
  // ---------------------------------------------------------------------------

  predicate IsPlain(unit: Unit) {
    unit != BACKSLASH && unit != BACKTICK && unit != DOLLAR
  }

  lemma {:induction false} PlainIsPassed(source: Text, i: nat, j: nat)
    requires i <= j <= |source| && forall k :: i <= k < j ==> IsPlain(source[k])
    ensures TemplateEnd(source, i) == TemplateEnd(source, j)
    decreases j - i
  {
    if i < j {
      assert IsPlain(source[i]);
      PlainIsPassed(source, i + 1, j);
    }
  }

  lemma {:induction false} HexIsPlain(digits: Text)
    requires HexNumber(digits).Some?
    ensures forall k :: 0 <= k < |digits| ==> IsPlain(digits[k])
  {
    if digits != [] {
      HexIsPlain(digits[..|digits| - 1]);
    }
  }

  lemma FixedEscapeIsPlain(source: Text, i: nat, length: nat)
    requires length <= 4 && FixedEscape(source, i, length).Some?
    ensures FixedEscape(source, i, length).value.end == i + length <= |source|
    ensures forall k :: i <= k < i + length ==> IsPlain(source[k])
  {
    var digits := source[i..i + length];
    HexIsPlain(digits);
    forall k | i <= k < i + length ensures IsPlain(source[k]) {
      assert digits[k - i] == source[k];
    }
  }

  lemma BracedEscapeIsPlain(source: Text, i: nat)
    requires i <= |source| && BracedEscape(source, i).Some?
    ensures var end := BracedEscape(source, i).value.end;
      i <= end <= |source| && forall k :: i <= k < end ==> IsPlain(source[k])
  {
    var close := IndexOf(source, [CLOSE_BRACE], i);
    var digits := source[i..close];
    HexIsPlain(digits);
    assert source[close..close + 1][0] == source[close];
    forall k | i <= k < close ensures IsPlain(source[k]) {
      assert digits[k - i] == source[k];
    }
  }

  /** What an escape takes beyond its backslash and the unit after it is nothing a template reader stops at. */
  lemma EscapeIsPlain(source: Text, i: nat)
    requires CookedEscape(source, i).Some?
    ensures var end := CookedEscape(source, i).value.end;
      i + 2 <= end <= |source| && forall k :: i + 2 <= k < end ==> IsPlain(source[k])
  {
    if source[i + 1] == 0x78 {
      FixedEscapeIsPlain(source, i + 2, 2);
    } else if source[i + 1] == 0x75 {
      if At(source, i + 2) == Some(OPEN_BRACE) {
        BracedEscapeIsPlain(source, i + 3);
      } else {
        FixedEscapeIsPlain(source, i + 2, 4);
      }
    }
  }

  lemma PieceIsPassed(source: Text, i: nat)
    requires i < |source| && source[i] != BACKTICK && PieceAt(source, i).Some?
    ensures TemplateEnd(source, i) == TemplateEnd(source, PieceEnd(PieceAt(source, i).value))
  {
    if source[i] == BACKSLASH {
      EscapeIsPlain(source, i);
      PlainIsPassed(source, i + 2, CookedEscape(source, i).value.end);
    } else if source[i] == CR && At(source, i + 1) == Some(LF) {
      PlainIsPassed(source, i, i + 2);
    }
  }

  /** Skipping a template and extracting it end at the same place, whenever it extracts at all. */
  lemma {:induction false} LexEndsWithTemplate(source: Text, i: nat)
    requires Lex(source, i).Some?
    ensures i < |source| && Lex(source, i).value.end == TemplateEnd(source, i)
    decreases |source| - i
  {
    if source[i] != BACKTICK {
      PieceIsPassed(source, i);
      LexEndsWithTemplate(source, PieceEnd(PieceAt(source, i).value));
    }
  }

  lemma FragmentExtractsToItsEnd(source: Text, operand: Operand, tag: Text, offset: nat, placeholder: Placeholder)
    requires operand.Fragment? && TemplateEnd(source, operand.backtick + 1) == operand.end
    ensures var query := Extract(source, tag, operand.start, operand.backtick, placeholder, offset);
      query.Some? ==> query.value.end == operand.end
  {
    if Lex(source, operand.backtick + 1).Some? {
      LexEndsWithTemplate(source, operand.backtick + 1);
    }
  }

  /** So the fragment of an accepted operand, if it extracts, extracts to exactly the operand's own end. */
  lemma OperandExtractsToItsEnd(source: Text, start: nat, end: nat, tagName: Text, allowOmitted: bool, operand: Operand,
                                offset: nat, placeholder: Placeholder)
    requires start <= end <= |source| && StructuralOperand(source, start, end, tagName, allowOmitted) == Some(operand)
    ensures operand.Fragment? ==>
      var query := Extract(source, tagName + DOT_FRAGMENT, operand.start, operand.backtick, placeholder, offset);
      query.Some? ==> query.value.end == operand.end
  {
    if operand.Fragment? {
      FragmentExtractsToItsEnd(source, operand, tagName + DOT_FRAGMENT, offset, placeholder);
    }
  }
}
