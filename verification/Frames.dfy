/** Content-Length framing: the writer and the buffered reader (packages/cli/src/init-verify.ts). */
module Frames {
  import opened Text

  const CR: Byte := 0x0D
  const LF: Byte := 0x0A
  const BLANK_LINE: Bytes := [CR, LF, CR, LF]
  const CAP := 16 * 1024 * 1024

  /** `content-length: `, in lower case. */
  const NAME: Bytes := [0x63, 0x6F, 0x6E, 0x74, 0x65, 0x6E, 0x74, 0x2D, 0x6C, 0x65, 0x6E, 0x67, 0x74, 0x68, 0x3A, 0x20]

  /** `Content-Length: `, as written. */
  const WRITTEN_NAME: Bytes :=
    [0x43, 0x6F, 0x6E, 0x74, 0x65, 0x6E, 0x74, 0x2D, 0x4C, 0x65, 0x6E, 0x67, 0x74, 0x68, 0x3A, 0x20]

  // ---------------------------------------------------------------------------
  // Writing
  // ---------------------------------------------------------------------------

  function Decimal(n: nat): (digits: Bytes)
    ensures digits != [] && forall i :: 0 <= i < |digits| ==> IsDigit(digits[i])
  {
    if n < 10 then [0x30 + n] else Decimal(n / 10) + [0x30 + n % 10]
  }

  function Header(body: Bytes): Bytes {
    WRITTEN_NAME + Decimal(|body|)
  }

  function Frame(body: Bytes): Bytes {
    Header(body) + (BLANK_LINE + body)
  }

  function Stream(bodies: seq<Bytes>): Bytes {
    if bodies == [] then [] else Frame(bodies[0]) + Stream(bodies[1..])
  }

  // ---------------------------------------------------------------------------
  // Reading a header
  // ---------------------------------------------------------------------------

  predicate IsDigit(b: Byte) {
    0x30 <= b <= 0x39
  }

  function Lower(b: Byte): Byte {
    if 0x41 <= b <= 0x5A then b + 0x20 else b
  }

  /** How many digits stand at `i`. */
  function DigitRun(h: Bytes, i: nat): (n: nat)
    ensures i <= |h| ==> i + n <= |h|
    ensures forall k :: i <= k < i + n && k < |h| ==> IsDigit(h[k])
    decreases |h| - i
  {
    if i < |h| && IsDigit(h[i]) then 1 + DigitRun(h, i + 1) else 0
  }

  function Number(digits: Bytes): nat
    requires forall i :: 0 <= i < |digits| ==> IsDigit(digits[i])
  {
    if digits == [] then 0
    else
      var last := digits[|digits| - 1];
      assert IsDigit(last);
      10 * Number(digits[..|digits| - 1]) + (last as int - 0x30)
  }

  /** The field name, in any case, and at least one digit. */
  function FieldAt(h: Bytes, i: nat): Option<nat> {
    if i + |NAME| <= |h| && (forall k :: 0 <= k < |NAME| ==> Lower(h[i + k]) == NAME[k])
      && DigitRun(h, i + |NAME|) > 0 then
      var start := i + |NAME|;
      Some(Number(h[start..start + DigitRun(h, start)]))
    else None
  }

  /** The leftmost field that stands at the start of the header or after a line break, searching from `p`. */
  function FindField(h: Bytes, p: nat): Option<nat>
    decreases |h| - p
  {
    if p > |h| then None
    else if p == 0 && FieldAt(h, 0).Some? then FieldAt(h, 0)
    else if p + 2 <= |h| && h[p..p + 2] == [CR, LF] && FieldAt(h, p + 2).Some? then FieldAt(h, p + 2)
    else FindField(h, p + 1)
  }

  /** Decoding as ASCII drops the high bit. */
  function Ascii(bytes: Bytes): (r: Bytes)
    ensures |r| == |bytes|
  {
    seq(|bytes|, i requires 0 <= i < |bytes| => bytes[i] % 0x80)
  }

  // ---------------------------------------------------------------------------
  // Reading frames
  // ---------------------------------------------------------------------------

  datatype Step = NeedsMore | Bad | Message(body: Bytes, rest: Bytes)

  /** What the head of the buffer is, given which bodies can be decoded. */
  function NextMessage(buffer: Bytes, decodes: Bytes -> bool): (step: Step)
    ensures step.Message? ==> |step.rest| < |buffer|
  {
    var end := IndexOf(buffer, BLANK_LINE, 0);
    if end == |buffer| then NeedsMore
    else
      match FindField(Ascii(buffer[..end]), 0)
      case None => Bad
      case Some(length) =>
        if length > CAP then Bad
        else if |buffer| < end + 4 + length then NeedsMore
        else if !decodes(buffer[end + 4..end + 4 + length]) then Bad
        else Message(buffer[end + 4..end + 4 + length], buffer[end + 4 + length..])
  }

  datatype State = State(buffer: Bytes, delivered: seq<Bytes>, failed: bool)

  /** Delivers messages until the buffer holds none, or a bad one. */
  function Drain(s: State, decodes: Bytes -> bool): State
    decreases |s.buffer|
  {
    match NextMessage(s.buffer, decodes)
    case NeedsMore => s
    case Bad => s.(failed := true)
    case Message(body, rest) => Drain(State(rest, s.delivered + [body], s.failed), decodes)
  }

  function Feed(s: State, chunk: Bytes, decodes: Bytes -> bool): State {
    var grown := s.(buffer := s.buffer + chunk);
    if |grown.buffer| > CAP then grown.(failed := true) else Drain(grown, decodes)
  }

  class Reader {
    var buffer: Bytes
    var delivered: seq<Bytes>
    var failed: bool

    function Now(): State
      reads this
    {
      State(buffer, delivered, failed)
    }

    constructor ()
      ensures Now() == State([], [], false)
    {
      buffer, delivered, failed := [], [], false;
    }

    method Data(chunk: Bytes, decodes: Bytes -> bool)
      modifies this
      ensures Now() == Feed(old(Now()), chunk, decodes)
    {
      buffer := buffer + chunk;
      if |buffer| > CAP {
        failed := true;
        return;
      }
      ghost var start := Now();
      while true
        invariant Drain(Now(), decodes) == Drain(start, decodes)
        decreases |buffer|
      {
        var end := IndexOf(buffer, BLANK_LINE, 0);
        if end == |buffer| {
          return;
        }
        var length := FindField(Ascii(buffer[..end]), 0);
        if length.None? || length.value > CAP {
          failed := true;
          return;
        }
        if |buffer| < end + 4 + length.value {
          return;
        }
        var body := buffer[end + 4..end + 4 + length.value];
        if !decodes(body) {
          failed := true;
          return;
        }
        buffer := buffer[end + 4 + length.value..];
        delivered := delivered + [body];
      }
    }
  }

  // ---------------------------------------------------------------------------
  // Chunks do not matter
  // ---------------------------------------------------------------------------

  lemma {:induction false} IndexOfStays(a: Bytes, b: Bytes, needle: Bytes, from: nat)
    requires needle != [] && IndexOf(a, needle, from) < |a|
    ensures IndexOf(a + b, needle, from) == IndexOf(a, needle, from)
    decreases |a| - from
  {
    assert (a + b)[from..from + |needle|] == a[from..from + |needle|];
    if a[from..from + |needle|] != needle {
      IndexOfStays(a, b, needle, from + 1);
    }
  }

  /** A complete or bad message is read the same way whatever follows it. */
  lemma MoreBytesDoNotMatter(buffer: Bytes, more: Bytes, decodes: Bytes -> bool)
    ensures match NextMessage(buffer, decodes)
      case NeedsMore => true
      case Bad => NextMessage(buffer + more, decodes) == Bad
      case Message(body, rest) => NextMessage(buffer + more, decodes) == Message(body, rest + more)
  {
    var end := IndexOf(buffer, BLANK_LINE, 0);
    if end < |buffer| {
      IndexOfStays(buffer, more, BLANK_LINE, 0);
      assert (buffer + more)[..end] == buffer[..end];
      var length := FindField(Ascii(buffer[..end]), 0);
      if length.Some? && |buffer| >= end + 4 + length.value {
        assert (buffer + more)[end + 4..end + 4 + length.value] == buffer[end + 4..end + 4 + length.value];
        assert (buffer + more)[end + 4 + length.value..] == buffer[end + 4 + length.value..] + more;
      }
    }
  }

  /** Draining and then receiving more is receiving more and then draining. */
  lemma {:induction false} DrainThenMore(s: State, more: Bytes, decodes: Bytes -> bool)
    ensures var drained := Drain(s, decodes);
      Drain(drained.(buffer := drained.buffer + more), decodes) == Drain(s.(buffer := s.buffer + more), decodes)
    ensures |Drain(s, decodes).buffer| <= |s.buffer|
    decreases |s.buffer|
  {
    MoreBytesDoNotMatter(s.buffer, more, decodes);
    match NextMessage(s.buffer, decodes)
    case NeedsMore =>
    case Bad =>
    case Message(body, rest) => DrainThenMore(State(rest, s.delivered + [body], s.failed), more, decodes);
  }

  /** Feeding two chunks is feeding them as one, as long as the bytes not yet consumed stay within the cap. */
  lemma FeedTwiceIsFeedOnce(s: State, x: Bytes, y: Bytes, decodes: Bytes -> bool)
    requires |s.buffer| + |x| + |y| <= CAP
    ensures Feed(Feed(s, x, decodes), y, decodes) == Feed(s, x + y, decodes)
  {
    var grown := s.(buffer := s.buffer + x);
    DrainThenMore(grown, y, decodes);
    Associate(s.buffer, x, y);
  }

  function FeedAll(s: State, chunks: seq<Bytes>, decodes: Bytes -> bool): State
    decreases |chunks|
  {
    if chunks == [] then s else FeedAll(Feed(s, chunks[0], decodes), chunks[1..], decodes)
  }

  function Joined(chunks: seq<Bytes>): Bytes {
    if chunks == [] then [] else chunks[0] + Joined(chunks[1..])
  }

  lemma {:induction false} FeedAllIsFeedOnce(s: State, chunks: seq<Bytes>, decodes: Bytes -> bool)
    requires chunks != [] && |s.buffer| + |Joined(chunks)| <= CAP
    ensures FeedAll(s, chunks, decodes) == Feed(s, Joined(chunks), decodes)
    decreases |chunks|
  {
    if |chunks| == 1 {
      assert Joined(chunks[1..]) == [];
      assert chunks[0] + [] == chunks[0];
    } else {
      var fed := Feed(s, chunks[0], decodes);
      DrainThenMore(s.(buffer := s.buffer + chunks[0]), [], decodes);
      FeedAllIsFeedOnce(fed, chunks[1..], decodes);
      FeedTwiceIsFeedOnce(s, chunks[0], Joined(chunks[1..]), decodes);
    }
  }

  // ---------------------------------------------------------------------------
  // What is written is what is read
  // ---------------------------------------------------------------------------

  lemma {:induction false} NumberOfDecimal(n: nat)
    ensures Number(Decimal(n)) == n
  {
    if n >= 10 {
      NumberOfDecimal(n / 10);
      assert Decimal(n)[..|Decimal(n)| - 1] == Decimal(n / 10);
    } else {
      assert Number([]) == 0;
      assert Decimal(n)[..0] == [];
    }
  }

  lemma {:induction false} DigitRunOfDigits(h: Bytes, i: nat)
    requires i <= |h| && forall k :: i <= k < |h| ==> IsDigit(h[k])
    ensures DigitRun(h, i) == |h| - i
    decreases |h| - i
  {
    if i < |h| {
      DigitRunOfDigits(h, i + 1);
    }
  }

  /** The field stands at `i`: at the start of the header or of a line, its name in any case, a digit behind it. */
  predicate StandsAt(h: Bytes, i: nat) {
    && i + |NAME| < |h| && IsDigit(h[i + |NAME|])
    && (i == 0 || (i >= 2 && h[i - 2] == CR && h[i - 1] == LF))
    && forall k :: 0 <= k < |NAME| ==> Lower(h[i + k]) == NAME[k]
  }

  /** The field at `i` says `length`, in all the digits that follow one another there. */
  ghost predicate Says(h: Bytes, i: nat, length: nat) {
    StandsAt(h, i) && SaysIn(h, i + |NAME|, length)
  }

  ghost predicate SaysIn(h: Bytes, start: nat, length: nat) {
    exists end: nat :: AreTheDigits(h, start, end) && length == Number(h[start..end])
  }

  /** No field stands before `n`. */
  ghost predicate NoneBefore(h: Bytes, n: nat) {
    forall i: nat :: i < n ==> !StandsAt(h, i)
  }

  predicate AreTheDigits(h: Bytes, start: nat, end: nat) {
    start < end <= |h| && (forall k :: start <= k < end ==> IsDigit(h[k])) && (end < |h| ==> !IsDigit(h[end]))
  }

  lemma {:induction false} DigitRunIsLongest(h: Bytes, i: nat)
    requires i <= |h|
    ensures i + DigitRun(h, i) < |h| ==> !IsDigit(h[i + DigitRun(h, i)])
    decreases |h| - i
  {
    if i < |h| && IsDigit(h[i]) {
      DigitRunIsLongest(h, i + 1);
    }
  }

  lemma FieldSays(h: Bytes, i: nat)
    requires i == 0 || (2 <= i <= |h| && h[i - 2] == CR && h[i - 1] == LF)
    ensures FieldAt(h, i).Some? <==> StandsAt(h, i)
    ensures FieldAt(h, i).Some? ==> Says(h, i, FieldAt(h, i).value)
  {
    if i + |NAME| <= |h| {
      DigitRunIsLongest(h, i + |NAME|);
    }
    if FieldAt(h, i).Some? {
      assert AreTheDigits(h, i + |NAME|, i + |NAME| + DigitRun(h, i + |NAME|));
    }
  }

  /** Whether the field stands behind a line break at `p`, the search having come that far. */
  lemma NextPlace(h: Bytes, p: nat)
    requires p <= |h| && NoneBefore(h, if p == 0 then 0 else p + 2) && (p == 0 ==> !StandsAt(h, 0))
    ensures p + 2 <= |h| && h[p..p + 2] == [CR, LF] && FieldAt(h, p + 2).Some? ==>
      NoneBefore(h, p + 2) && Says(h, p + 2, FieldAt(h, p + 2).value)
    ensures !(p + 2 <= |h| && h[p..p + 2] == [CR, LF] && FieldAt(h, p + 2).Some?) ==> NoneBefore(h, p + 3)
  {
    if p + 2 <= |h| {
      var line := h[p..p + 2];
      assert line[0] == h[p] && line[1] == h[p + 1];
      if line == [CR, LF] {
        FieldSays(h, p + 2);
      } else {
        assert [h[p], h[p + 1]] == line;
      }
    }
  }

  lemma {:induction false} FindsLeftmost(h: Bytes, p: nat) returns (i: nat)
    requires p <= |h| + 1 && NoneBefore(h, if p == 0 then 0 else p + 2)
    ensures FindField(h, p).None? ==> forall n :: NoneBefore(h, n)
    ensures FindField(h, p).Some? ==> Says(h, i, FindField(h, p).value) && NoneBefore(h, i)
    decreases |h| + 1 - p
  {
    i := 0;
    if p <= |h| {
      FieldSays(h, 0);
      if p > 0 || FieldAt(h, 0).None? {
        NextPlace(h, p);
        if p + 2 <= |h| && h[p..p + 2] == [CR, LF] && FieldAt(h, p + 2).Some? {
          i := p + 2;
        } else {
          i := FindsLeftmost(h, p + 1);
        }
      }
    }
  }

  /** A header says the length its first length field says, in any case, on any line; none if it has no such field. */
  lemma FirstFieldCounts(h: Bytes)
    ensures FindField(h, 0).None? <==> forall i: nat :: !StandsAt(h, i)
    ensures forall length: nat ::
      FindField(h, 0) == Some(length) <==> exists i: nat :: Says(h, i, length) && NoneBefore(h, i)
  {
    var i := FindsLeftmost(h, 0);
    if FindField(h, 0).None? {
      forall n: nat ensures !StandsAt(h, n) {
        assert NoneBefore(h, n + 1);
      }
    }
  }

  lemma HeaderIsRead(body: Bytes)
    ensures FindField(Ascii(Header(body)), 0) == Some(|body|)
  {
    var h, digits := Header(body), Decimal(|body|);
    assert forall k :: 0 <= k < |WRITTEN_NAME| ==> h[k] == WRITTEN_NAME[k] && Lower(WRITTEN_NAME[k]) == NAME[k];
    assert forall k :: |NAME| <= k < |h| ==> h[k] == digits[k - |NAME|];
    assert Ascii(h) == h;
    DigitRunOfDigits(h, |NAME|);
    assert h[|NAME|..|h|] == digits;
    NumberOfDecimal(|body|);
  }

  lemma {:induction false} BlankLineIsFirst(front: Bytes, back: Bytes, from: nat)
    requires CR !in front && from <= |front|
    ensures IndexOf(front + (BLANK_LINE + back), BLANK_LINE, from) == |front|
    decreases |front| - from
  {
    var all := front + (BLANK_LINE + back);
    if from < |front| {
      assert all[from..from + 4][0] == front[from] != CR;
      BlankLineIsFirst(front, back, from + 1);
    } else {
      assert all[from..from + 4] == BLANK_LINE;
    }
  }

  lemma FrameIsRead(body: Bytes, rest: Bytes, decodes: Bytes -> bool)
    requires |body| <= CAP && decodes(body)
    ensures NextMessage(Frame(body) + rest, decodes) == Message(body, rest)
  {
    var h := Header(body);
    var buffer := Frame(body) + rest;
    Associate(h, BLANK_LINE + body, rest);
    Associate(BLANK_LINE, body, rest);
    assert buffer == h + (BLANK_LINE + (body + rest));
    BlankLineIsFirst(h, body + rest, 0);
    assert buffer[..|h|] == h;
    HeaderIsRead(body);
    assert buffer[|h| + 4..|h| + 4 + |body|] == body;
    assert buffer[|h| + 4 + |body|..] == rest;
  }

  lemma NothingDrains(delivered: seq<Bytes>, decodes: Bytes -> bool)
    ensures Drain(State([], delivered, false), decodes) == State([], delivered, false)
  {
    assert IndexOf<Byte>([], BLANK_LINE, 0) == 0;
  }

  lemma OneFrameDrains(body: Bytes, rest: Bytes, delivered: seq<Bytes>, decodes: Bytes -> bool)
    requires |body| <= CAP && decodes(body)
    ensures Drain(State(Frame(body) + rest, delivered, false), decodes)
         == Drain(State(rest, delivered + [body], false), decodes)
  {
    FrameIsRead(body, rest, decodes);
  }

  lemma {:induction false} StreamDrains(bodies: seq<Bytes>, delivered: seq<Bytes>, decodes: Bytes -> bool)
    requires forall i :: 0 <= i < |bodies| ==> |bodies[i]| <= CAP && decodes(bodies[i])
    ensures Drain(State(Stream(bodies), delivered, false), decodes) == State([], delivered + bodies, false)
    decreases |bodies|
  {
    if bodies == [] {
      NothingDrains(delivered, decodes);
      assert delivered + [] == delivered;
    } else {
      OneFrameDrains(bodies[0], Stream(bodies[1..]), delivered, decodes);
      StreamDrains(bodies[1..], delivered + [bodies[0]], decodes);
      FirstMoves(delivered, bodies);
    }
  }

  lemma FirstMoves<T>(front: seq<T>, back: seq<T>)
    requires back != []
    ensures front + [back[0]] + back[1..] == front + back
  {
  }

  lemma StreamIsEmpty(bodies: seq<Bytes>)
    ensures Stream(bodies) == [] <==> bodies == []
  {
    if bodies != [] {
      assert |Stream(bodies)| >= |Frame(bodies[0])| > 0;
    }
  }

  lemma {:induction false} BodyIsWithinStream(bodies: seq<Bytes>, i: nat)
    requires i < |bodies|
    ensures |bodies[i]| <= |Stream(bodies)|
  {
    if i > 0 {
      BodyIsWithinStream(bodies[1..], i - 1);
    }
  }

  /** Messages sent as one stream and received in any chunks are delivered in order, with nothing left over. */
  lemma StreamReadsBack(bodies: seq<Bytes>, chunks: seq<Bytes>, decodes: Bytes -> bool)
    requires Joined(chunks) == Stream(bodies) && |Stream(bodies)| <= CAP
    requires forall i :: 0 <= i < |bodies| ==> decodes(bodies[i])
    ensures FeedAll(State([], [], false), chunks, decodes) == State([], bodies, false)
  {
    var empty := State([], [], false);
    StreamIsEmpty(bodies);
    if chunks != [] {
      FeedAllIsFeedOnce(empty, chunks, decodes);
      forall i | 0 <= i < |bodies| ensures |bodies[i]| <= CAP {
        BodyIsWithinStream(bodies, i);
      }
      StreamDrains(bodies, [], decodes);
      assert [] + bodies == bodies;
      assert [] + Joined(chunks) == Joined(chunks);
    }
  }
}
