/** Binding the parameters of a SQL file (packages/compiler/src/sql-file-analysis.ts, sql-file.ts). */
module SqlFile {
  import opened Text

  type Placeholder = nat -> Text

  datatype Occurrence = Occurrence(start: int, end: int, index: int, name: Option<Text>)

  const MAXIMUM_INDEX := 65_535

  predicate IsLetter(unit: Unit) {
    0x41 <= unit <= 0x5A || 0x61 <= unit <= 0x7A || unit == 0x5F
  }

  predicate IsName(text: Text) {
    text != [] && IsLetter(text[0]) && forall i :: 0 < i < |text| ==> IsLetter(text[i]) || 0x30 <= text[i] <= 0x39
  }

  /** What the analysis of a file's occurrences leaves behind. */
  datatype Binding = Binding(
    parts: seq<Text>, bindings: seq<nat>, names: seq<Text>, count: nat, named: bool, offsets: seq<nat>,
    normalized: Text,
    accepted: bool)

  // ---------------------------------------------------------------------------
  // What a binding should be
  // ---------------------------------------------------------------------------

  /** Each part followed by the next marker. */
  function Marked(parts: seq<Text>, placeholder: Placeholder): Text {
    if parts == [] then []
    else Marked(parts[..|parts| - 1], placeholder) + (parts[|parts| - 1] + placeholder(|parts|))
  }

  /** The parts with numbered markers between them. */
  function Interleaved(parts: seq<Text>, placeholder: Placeholder): Text {
    if parts == [] then [] else Marked(parts[..|parts| - 1], placeholder) + parts[|parts| - 1]
  }

  lemma MarkedSnoc(parts: seq<Text>, part: Text, placeholder: Placeholder)
    ensures Marked(parts + [part], placeholder) == Marked(parts, placeholder) + (part + placeholder(|parts| + 1))
    ensures Interleaved(parts + [part], placeholder) == Marked(parts, placeholder) + part
  {
    assert (parts + [part])[..|parts|] == parts;
  }

  /** The distinct names, in order of first occurrence. */
  function FirstSeen(names: seq<Text>): seq<Text> {
    if names == [] then []
    else
      var front := FirstSeen(names[..|names| - 1]);
      if names[|names| - 1] in front then front else front + [names[|names| - 1]]
  }

  /** Each name once, whatever came first staying first. */
  lemma {:induction false} FirstSeenIsInOrder(names: seq<Text>, k: nat)
    requires k <= |names|
    ensures FirstSeen(names[..k]) <= FirstSeen(names)
    ensures forall name :: name in FirstSeen(names) <==> name in names
    ensures forall i, j :: 0 <= i < j < |FirstSeen(names)| ==> FirstSeen(names)[i] != FirstSeen(names)[j]
    decreases |names|
  {
    if names != [] {
      var front, last := names[..|names| - 1], names[|names| - 1];
      FirstSeenIsInOrder(front, Min(k, |front|));
      assert names == front + [last];
      assert k < |names| ==> names[..k] == front[..k];
      assert k == |names| ==> names[..k] == names;
    }
  }

  /** The stretches of the file that are not occurrences, `from` the end of the last one read. */
  function Gaps(content: Text, occurrences: seq<Occurrence>, n: nat): seq<Text>
    requires n <= |occurrences| && InOrder(content, occurrences, n)
    decreases n
  {
    if n == 0 then []
    else
      assert Follows(content, occurrences, n - 1);
      Gaps(content, occurrences, n - 1) + [content[EndOf(occurrences, n - 1)..occurrences[n - 1].start]]
  }

  /** Where the first `n` occurrences end. */
  function EndOf(occurrences: seq<Occurrence>, n: nat): int
    requires n <= |occurrences|
  {
    if n == 0 then 0 else occurrences[n - 1].end
  }

  /** Occurrence i lies inside the file, after the one before it. */
  predicate Follows(content: Text, occurrences: seq<Occurrence>, i: nat)
    requires i < |occurrences|
  {
    0 <= EndOf(occurrences, i) <= occurrences[i].start < occurrences[i].end <= |content|
  }

  predicate InOrder(content: Text, occurrences: seq<Occurrence>, n: nat)
    requires n <= |occurrences|
  {
    forall i :: 0 <= i < n ==> Follows(content, occurrences, i)
  }

  ghost predicate Ascending(offsets: seq<nat>, high: int) {
    && (forall i, j :: 0 <= i < j < |offsets| ==> offsets[i] <= offsets[j])
    && (forall i :: 0 <= i < |offsets| ==> offsets[i] < high)
  }

  lemma AscendingAdd(a: seq<nat>, b: seq<nat>, middle: int, high: int)
    requires Ascending(a, middle) && Ascending(b, high) && middle <= high
    requires forall i :: 0 <= i < |b| ==> middle <= b[i]
    ensures Ascending(a + b, high)
  {
  }

  /** The offsets of a stretch of the file. */
  function Stretch(from: nat, to: nat): (r: seq<nat>)
    requires from <= to
    ensures |r| == to - from && forall i :: 0 <= i < |r| ==> r[i] == from + i
  {
    seq(to - from, i requires 0 <= i < to - from => from + i)
  }

  /** The offsets of a marker: its occurrence's first unit, but the last unit maps to the occurrence's last. */
  function MarkerOffsets(length: nat, start: nat, end: nat): (r: seq<nat>)
    requires start < end
    ensures |r| == length && forall i :: 0 <= i < length ==> r[i] == if i == length - 1 then end - 1 else start
  {
    seq(length, i requires 0 <= i < length => if i == length - 1 then end - 1 else start)
  }

  /** The offsets one occurrence adds: the text before it, and its marker. */
  function OccurrenceOffsets(from: nat, start: nat, end: nat, length: nat): (r: seq<nat>)
    requires from <= start < end
    ensures |r| == start - from + length
  {
    Stretch(from, start) + MarkerOffsets(length, start, end)
  }

  lemma StretchAdd(a: seq<nat>, from: nat, to: nat)
    requires Ascending(a, from) && from <= to
    ensures Ascending(a + Stretch(from, to), to)
  {
    AscendingAdd(a, Stretch(from, to), from, to);
  }

  lemma OccurrenceAdd(a: seq<nat>, from: nat, start: nat, end: nat, length: nat)
    requires Ascending(a, from) && from <= start < end
    ensures Ascending(a + OccurrenceOffsets(from, start, end, length), end)
  {
    StretchAdd(a, from, start);
    AscendingAdd(a + Stretch(from, start), MarkerOffsets(length, start, end), start, end);
    Associate(a, Stretch(from, start), MarkerOffsets(length, start, end));
  }

  /** The offsets of the first `n` occurrences and the stretches before them. */
  function OffsetsFor(content: Text, occurrences: seq<Occurrence>, n: nat, placeholder: Placeholder): seq<nat>
    requires n <= |occurrences| && InOrder(content, occurrences, n)
    decreases n
  {
    if n == 0 then []
    else
      assert Follows(content, occurrences, n - 1);
      OffsetsFor(content, occurrences, n - 1, placeholder)
      + OccurrenceOffsets(EndOf(occurrences, n - 1), occurrences[n - 1].start, occurrences[n - 1].end, |placeholder(n)|)
  }

  lemma GapsSnoc(content: Text, occurrences: seq<Occurrence>, n: nat, placeholder: Placeholder)
    requires n < |occurrences| && InOrder(content, occurrences, n + 1)
    ensures InOrder(content, occurrences, n) && |Gaps(content, occurrences, n)| == n
    ensures Follows(content, occurrences, n)
    ensures var part := content[EndOf(occurrences, n)..occurrences[n].start];
      && Gaps(content, occurrences, n + 1) == Gaps(content, occurrences, n) + [part]
      && Marked(Gaps(content, occurrences, n + 1), placeholder)
         == Marked(Gaps(content, occurrences, n), placeholder) + (part + placeholder(n + 1))
    decreases n
  {
    assert Follows(content, occurrences, n);
    if n > 0 {
      GapsSnoc(content, occurrences, n - 1, placeholder);
    }
    MarkedSnoc(Gaps(content, occurrences, n), content[EndOf(occurrences, n)..occurrences[n].start], placeholder);
  }

  /** One offset for each unit of the marked text. */
  lemma {:induction false} OffsetsCount(content: Text, occurrences: seq<Occurrence>, n: nat, placeholder: Placeholder)
    requires n <= |occurrences| && InOrder(content, occurrences, n)
    ensures 0 <= EndOf(occurrences, n) <= |content|
    ensures |OffsetsFor(content, occurrences, n, placeholder)| == |Marked(Gaps(content, occurrences, n), placeholder)|
    decreases n
  {
    if n > 0 {
      OffsetsCount(content, occurrences, n - 1, placeholder);
      GapsSnoc(content, occurrences, n - 1, placeholder);
    }
  }

  /** The offsets never descend. */
  lemma {:induction false} OffsetsAscend(content: Text, occurrences: seq<Occurrence>, n: nat, placeholder: Placeholder)
    requires n <= |occurrences| && InOrder(content, occurrences, n)
    ensures Ascending(OffsetsFor(content, occurrences, n, placeholder), EndOf(occurrences, n))
    decreases n
  {
    if n > 0 {
      OffsetsAscend(content, occurrences, n - 1, placeholder);
      assert Follows(content, occurrences, n - 1);
      var before := OffsetsFor(content, occurrences, n - 1, placeholder);
      var last := occurrences[n - 1];
      OccurrenceAdd(before, EndOf(occurrences, n - 1), last.start, last.end, |placeholder(n)|);
      assert OffsetsFor(content, occurrences, n, placeholder)
          == before + OccurrenceOffsets(EndOf(occurrences, n - 1), last.start, last.end, |placeholder(n)|);
    }
  }

  /** What occurrence `k` leaves behind stays where it is as further occurrences follow. */
  lemma {:induction false} OffsetsGrow(content: Text, occurrences: seq<Occurrence>, k: nat, n: nat,
                                       placeholder: Placeholder)
    requires k <= n <= |occurrences| && InOrder(content, occurrences, n)
    ensures InOrder(content, occurrences, k)
    ensures OffsetsFor(content, occurrences, k, placeholder) <= OffsetsFor(content, occurrences, n, placeholder)
    ensures Gaps(content, occurrences, k) <= Gaps(content, occurrences, n)
    decreases n
  {
    if k < n {
      OffsetsGrow(content, occurrences, k, n - 1, placeholder);
    }
  }

  /** The files the loop accepts: all occurrences named, or all positional with no index left out. */
  ghost predicate Acceptable(content: Text, occurrences: seq<Occurrence>) {
    && InOrder(content, occurrences, |occurrences|)
    && (AllNamed(occurrences) || AllPositional(occurrences))
  }

  ghost predicate AllNamed(occurrences: seq<Occurrence>) {
    && (forall k :: 0 <= k < |occurrences| ==> occurrences[k].name.Some? && IsName(occurrences[k].name.value))
    && |FirstSeen(NameTexts(occurrences, |occurrences|))| <= MAXIMUM_INDEX
  }

  ghost predicate AllPositional(occurrences: seq<Occurrence>) {
    && (forall k :: 0 <= k < |occurrences| ==> occurrences[k].name.None? && 1 <= occurrences[k].index <= MAXIMUM_INDEX)
    && (forall k, index :: 0 <= k < |occurrences| && 1 <= index <= occurrences[k].index ==>
        IndexOccurs(occurrences, index))
  }

  ghost predicate IndexOccurs(occurrences: seq<Occurrence>, index: int) {
    exists j :: 0 <= j < |occurrences| && occurrences[j].index == index
  }

  // ---------------------------------------------------------------------------
  // The occurrence loop
  // ---------------------------------------------------------------------------

  /** What the loop knows after `n` occurrences. */
  datatype Progress = Progress(parts: seq<Text>, bindings: seq<nat>, offsets: seq<nat>, normalized: Text, end: nat)

  ghost predicate Bound(p: Progress, content: Text, occurrences: seq<Occurrence>, n: nat, placeholder: Placeholder)
    requires n <= |occurrences|
  {
    && InOrder(content, occurrences, n)
    && p.end == EndOf(occurrences, n) <= |content|
    && |p.parts| == |p.bindings| == n
    && p.parts == Gaps(content, occurrences, n)
    && p.normalized == Marked(p.parts, placeholder)
    && p.offsets == OffsetsFor(content, occurrences, n, placeholder)
  }

  method BindOne(content: Text, occurrences: seq<Occurrence>, n: nat, index: nat, placeholder: Placeholder, p: Progress)
    returns (next: Progress)
    requires n < |occurrences| && index >= 1 && Bound(p, content, occurrences, n, placeholder)
    requires p.end <= occurrences[n].start < occurrences[n].end <= |content|
    ensures Bound(next, content, occurrences, n + 1, placeholder)
    ensures next.bindings == p.bindings + [index - 1]
  {
    var start, occurrenceEnd := occurrences[n].start, occurrences[n].end;
    var part, marker := content[p.end..start], placeholder(|p.bindings| + 1);
    assert Follows(content, occurrences, n);
    GapsSnoc(content, occurrences, n, placeholder);
    return Progress(p.parts + [part], p.bindings + [index - 1],
                    p.offsets + OccurrenceOffsets(p.end, start, occurrenceEnd, |marker|),
                    p.normalized + (part + marker), occurrenceEnd);
  }

  function NameTexts(occurrences: seq<Occurrence>, n: nat): (names: seq<Text>)
    requires n <= |occurrences|
    ensures |names| == n
  {
    seq(n, i requires 0 <= i < n => if occurrences[i].name.Some? then occurrences[i].name.value else [])
  }

  /** What the names of the first `n` occurrences have been bound to. */
  ghost predicate NamesBound(names: seq<Text>, nameIndexes: map<Text, nat>, bindings: seq<nat>, count: nat,
                             occurrences: seq<Occurrence>, n: nat)
    requires n <= |occurrences|
  {
    && names == FirstSeen(NameTexts(occurrences, n)) && count == |names|
    && Numbers(nameIndexes, names)
    && |bindings| == n && Bind(bindings, names, occurrences) && AllUsed(names, bindings)
  }

  /** The map numbers the names from one. */
  ghost predicate Numbers(nameIndexes: map<Text, nat>, names: seq<Text>) {
    && (forall name :: name in nameIndexes <==> name in names)
    && (forall name :: name in nameIndexes ==>
        1 <= nameIndexes[name] <= |names| && names[nameIndexes[name] - 1] == name)
  }

  ghost predicate Bind(bindings: seq<nat>, names: seq<Text>, occurrences: seq<Occurrence>)
    requires |bindings| <= |occurrences|
  {
    forall k :: 0 <= k < |bindings| ==> bindings[k] < |names| && occurrences[k].name == Some(names[bindings[k]])
  }

  ghost predicate AllUsed(names: seq<Text>, bindings: seq<nat>) {
    forall j :: 0 <= j < |names| ==> j in bindings && IsName(names[j])
  }

  /** Positional indexes are taken as they come. */
  ghost predicate IndexesBound(bindings: seq<nat>, count: nat, occurrences: seq<Occurrence>, n: nat)
    requires n <= |occurrences|
  {
    && |bindings| == n
    && (forall k :: 0 <= k < n ==> bindings[k] + 1 == occurrences[k].index && bindings[k] < count)
    && (count > 0 ==> count - 1 in bindings)
  }

  lemma KnownNameBound(name: Text, names: seq<Text>, nameIndexes: map<Text, nat>, bindings: seq<nat>, count: nat,
                       occurrences: seq<Occurrence>, n: nat, index: nat)
    requires n < |occurrences| && occurrences[n].name == Some(name) && name in nameIndexes && index == nameIndexes[name]
    requires NamesBound(names, nameIndexes, bindings, count, occurrences, n)
    ensures index >= 1 && NamesBound(names, nameIndexes, bindings + [index - 1], Max(count, index), occurrences, n + 1)
  {
    assert NameTexts(occurrences, n + 1)[..n] == NameTexts(occurrences, n);
    UsedStays(names, bindings, index - 1);
  }

  lemma UsedStays(names: seq<Text>, bindings: seq<nat>, index: nat)
    requires AllUsed(names, bindings)
    ensures AllUsed(names, bindings + [index])
  {
    forall j | 0 <= j < |names| ensures j in bindings + [index] {
      assert j in bindings;
    }
  }

  lemma NewNameUsed(name: Text, names: seq<Text>, bindings: seq<nat>)
    requires AllUsed(names, bindings) && IsName(name)
    ensures AllUsed(names + [name], bindings + [|names|])
  {
    UsedStays(names, bindings, |names|);
    assert (bindings + [|names|])[|bindings|] == |names|;
  }

  lemma NewNameNumbered(name: Text, names: seq<Text>, nameIndexes: map<Text, nat>)
    requires Numbers(nameIndexes, names) && name !in nameIndexes
    ensures Numbers(nameIndexes[name := |names| + 1], names + [name])
  {
  }

  lemma NewNameBinds(name: Text, names: seq<Text>, bindings: seq<nat>, occurrences: seq<Occurrence>)
    requires |bindings| < |occurrences| && Bind(bindings, names, occurrences)
    requires occurrences[|bindings|].name == Some(name)
    ensures Bind(bindings + [|names|], names + [name], occurrences)
  {
  }

  lemma NewNameBound(name: Text, names: seq<Text>, nameIndexes: map<Text, nat>, bindings: seq<nat>, count: nat,
                     occurrences: seq<Occurrence>, n: nat, index: nat)
    requires n < |occurrences| && occurrences[n].name == Some(name) && IsName(name) && name !in nameIndexes
    requires NamesBound(names, nameIndexes, bindings, count, occurrences, n) && index == |names| + 1
    ensures NamesBound(names + [name], nameIndexes[name := index], bindings + [index - 1], Max(count, index),
                       occurrences, n + 1)
  {
    assert NameTexts(occurrences, n + 1)[..n] == NameTexts(occurrences, n);
    NewNameUsed(name, names, bindings);
    NewNameNumbered(name, names, nameIndexes);
    NewNameBinds(name, names, bindings, occurrences);
  }

  method BindName(name: Text, names: seq<Text>, nameIndexes: map<Text, nat>, bindings: seq<nat>, ghost count: nat,
                  ghost occurrences: seq<Occurrence>, ghost n: nat)
    returns (index: nat, names': seq<Text>, nameIndexes': map<Text, nat>)
    requires n < |occurrences| && occurrences[n].name == Some(name) && IsName(name)
    requires NamesBound(names, nameIndexes, bindings, count, occurrences, n)
    ensures 1 <= index
    ensures NamesBound(names', nameIndexes', bindings + [index - 1], Max(count, index), occurrences, n + 1)
  {
    if name in nameIndexes {
      index, names', nameIndexes' := nameIndexes[name], names, nameIndexes;
      KnownNameBound(name, names, nameIndexes, bindings, count, occurrences, n, index);
    } else {
      index, names' := |names| + 1, names + [name];
      nameIndexes' := nameIndexes[name := index];
      NewNameBound(name, names, nameIndexes, bindings, count, occurrences, n, index);
    }
  }

  lemma IndexBound(bindings: seq<nat>, count: nat, occurrences: seq<Occurrence>, n: nat)
    requires n < |occurrences| && occurrences[n].index >= 1 && IndexesBound(bindings, count, occurrences, n)
    ensures IndexesBound(bindings + [occurrences[n].index - 1], Max(count, occurrences[n].index), occurrences, n + 1)
  {
    var more := bindings + [occurrences[n].index - 1];
    assert more[n] == occurrences[n].index - 1;
    if count > 0 {
      assert count - 1 in bindings;
    }
  }

  /** What an accepted file promises: of its text, and of its numbers. */
  ghost predicate IsBinding(b: Binding, content: Text, occurrences: seq<Occurrence>, placeholder: Placeholder) {
    && IsCut(b, content, occurrences, placeholder)
    && IsNumbering(b, occurrences)
  }

  /** The parts are the text around the occurrences; markers stand between them; every unit has its offset. */
  ghost predicate IsCut(b: Binding, content: Text, occurrences: seq<Occurrence>, placeholder: Placeholder) {
    var n := |occurrences|;
    && InOrder(content, occurrences, n) && 0 <= EndOf(occurrences, n) <= |content|
    && b.parts == Gaps(content, occurrences, n) + [content[EndOf(occurrences, n)..]] && |b.parts| == n + 1
    && b.normalized == Interleaved(b.parts, placeholder)
    && b.offsets == OffsetsFor(content, occurrences, n, placeholder) + Stretch(EndOf(occurrences, n), |content|)
    && |b.offsets| == |b.normalized| && Ascending(b.offsets, |content|)
  }

  /** Exactly the indexes below the count are used, and each occurrence has its own. */
  ghost predicate IsNumbering(b: Binding, occurrences: seq<Occurrence>) {
    var n := |occurrences|;
    && |b.bindings| == n
    && Covers(b.bindings, b.count) && (forall k :: 0 <= k < n ==> b.bindings[k] < b.count)
    && (b.named <==> n > 0 && forall k :: 0 <= k < n ==> occurrences[k].name.Some?)
    && (b.named ==> b.names == FirstSeen(NameTexts(occurrences, n)) && b.count == |b.names|)
    && (forall k :: 0 <= k < n ==> IsBoundTo(b, occurrences[k], k))
  }

  /** Occurrence k is bound to its own name, or to its own index. */
  ghost predicate IsBoundTo(b: Binding, occurrence: Occurrence, k: nat) {
    && k < |b.bindings|
    && (b.named ==> b.bindings[k] < |b.names| && occurrence.name == Some(b.names[b.bindings[k]]))
    && (!b.named ==> occurrence.name.None? && b.bindings[k] + 1 == occurrence.index)
  }

  function UpTo(count: nat): (r: set<nat>)
    ensures |r| == count && forall k: nat :: k in r <==> k < count
  {
    if count == 0 then {} else UpTo(count - 1) + {count - 1}
  }

  function Distinct(bindings: seq<nat>): set<nat> {
    set k | k in bindings
  }

  predicate Covers(bindings: seq<nat>, count: nat) {
    forall index: nat :: index < count ==> index in bindings
  }

  /** The set-size test is a pigeonhole: as many distinct indexes as the largest one means every index is used. */
  lemma Contiguous(bindings: seq<nat>, count: nat)
    requires forall k :: 0 <= k < |bindings| ==> bindings[k] < count
    ensures |Distinct(bindings)| == count <==> Covers(bindings, count)
  {
    var used := Distinct(bindings);
    var all := UpTo(count);
    assert used <= all;
    if |used| == count {
      SameSize(used, all);
      forall index: nat | index < count ensures index in bindings {
        assert index in all;
      }
    }
    if Covers(bindings, count) {
      assert used == all;
    }
  }

  lemma SameSize<T>(a: set<T>, b: set<T>)
    requires a <= b && |a| == |b|
    ensures a == b
  {
    assert |b - a| == |b| - |a|;
    assert b == a + (b - a);
  }

  /** The whole of what the loop has established, over either kind of file. */
  ghost predicate NumbersBound(named: bool, names: seq<Text>, nameIndexes: map<Text, nat>, bindings: seq<nat>,
                               count: nat, occurrences: seq<Occurrence>, n: nat)
    requires n <= |occurrences|
  {
    if named then NamesBound(names, nameIndexes, bindings, count, occurrences, n)
    else names == [] && IndexesBound(bindings, count, occurrences, n)
  }

  lemma BindingsBelow(named: bool, names: seq<Text>, nameIndexes: map<Text, nat>, bindings: seq<nat>, count: nat,
                      occurrences: seq<Occurrence>, n: nat)
    requires n <= |occurrences| && NumbersBound(named, names, nameIndexes, bindings, count, occurrences, n)
    ensures forall k :: 0 <= k < |bindings| ==> bindings[k] < count
  {
  }

  /** Why the loop gives up on a number. */
  predicate NumberFails(named: bool, occurrences: seq<Occurrence>, n: nat)
    requires n < |occurrences|
  {
    if named then
      || occurrences[n].name.None? || !IsName(occurrences[n].name.value)
      || |FirstSeen(NameTexts(occurrences, n + 1))| > MAXIMUM_INDEX
    else occurrences[n].index < 1 || occurrences[n].index > MAXIMUM_INDEX
  }

  lemma {:induction false} FirstSeenGrows(occurrences: seq<Occurrence>, k: nat, n: nat)
    requires k <= n <= |occurrences|
    ensures |FirstSeen(NameTexts(occurrences, k))| <= |FirstSeen(NameTexts(occurrences, n))|
    decreases n
  {
    if k < n {
      assert NameTexts(occurrences, n)[..n - 1] == NameTexts(occurrences, n - 1);
      FirstSeenGrows(occurrences, k, n - 1);
    }
  }

  predicate AnyNamed(occurrences: seq<Occurrence>) {
    exists i :: 0 <= i < |occurrences| && occurrences[i].name.Some?
  }

  lemma NumberFailureRefuses(content: Text, occurrences: seq<Occurrence>, n: nat)
    requires n < |occurrences| && NumberFails(AnyNamed(occurrences), occurrences, n)
    ensures !Acceptable(content, occurrences)
  {
    FirstSeenGrows(occurrences, n + 1, |occurrences|);
  }

  lemma NamedIsAcceptable(content: Text, occurrences: seq<Occurrence>, names: seq<Text>, nameIndexes: map<Text, nat>,
                          bindings: seq<nat>, count: nat)
    requires NamesBound(names, nameIndexes, bindings, count, occurrences, |occurrences|) && count <= MAXIMUM_INDEX
    ensures AllNamed(occurrences)
    ensures |Distinct(bindings)| == count
  {
    assert forall j :: 0 <= j < |names| ==> j in bindings;
    Contiguous(bindings, count);
  }

  lemma PositionalIsAcceptable(occurrences: seq<Occurrence>, bindings: seq<nat>, count: nat)
    requires IndexesBound(bindings, count, occurrences, |occurrences|) && count <= MAXIMUM_INDEX
    requires !AnyNamed(occurrences)
    ensures AllPositional(occurrences) <==> |Distinct(bindings)| == count
    ensures AllNamed(occurrences) ==> |Distinct(bindings)| == count
  {
    Contiguous(bindings, count);
    if AllPositional(occurrences) {
      forall index: nat | index < count ensures index in bindings {
        assert count - 1 in bindings;
        var last :| 0 <= last < |bindings| && bindings[last] == count - 1;
        assert IndexOccurs(occurrences, index + 1);
        var j :| 0 <= j < |occurrences| && occurrences[j].index == index + 1;
        assert bindings[j] == index;
      }
    } else if Covers(bindings, count) {
      forall k, index | 0 <= k < |occurrences| && 1 <= index <= occurrences[k].index
        ensures IndexOccurs(occurrences, index)
      {
        assert index - 1 in bindings;
        var j :| 0 <= j < |bindings| && bindings[j] == index - 1;
        assert occurrences[j].index == index;
      }
    }
  }

  lemma CutConcludes(b: Binding, content: Text, occurrences: seq<Occurrence>, placeholder: Placeholder, p: Progress)
    requires Bound(p, content, occurrences, |occurrences|, placeholder)
    requires b.parts == p.parts + [content[p.end..]]
    requires b.normalized == p.normalized + content[p.end..] && b.offsets == p.offsets + Stretch(p.end, |content|)
    ensures IsCut(b, content, occurrences, placeholder)
  {
    MarkedSnoc(p.parts, content[p.end..], placeholder);
    OffsetsCount(content, occurrences, |occurrences|, placeholder);
    OffsetsAscend(content, occurrences, |occurrences|, placeholder);
    StretchAdd(p.offsets, p.end, |content|);
  }

  lemma NumberingConcludes(b: Binding, occurrences: seq<Occurrence>, nameIndexes: map<Text, nat>)
    requires NumbersBound(b.named, b.names, nameIndexes, b.bindings, b.count, occurrences, |occurrences|)
    requires b.named == AnyNamed(occurrences)
    requires |Distinct(b.bindings)| == b.count
    ensures IsNumbering(b, occurrences)
  {
    BindingsBelow(b.named, b.names, nameIndexes, b.bindings, b.count, occurrences, |occurrences|);
    Contiguous(b.bindings, b.count);
    assert occurrences != [] && occurrences[0].name.Some? ==> AnyNamed(occurrences);
  }

  lemma TooManyNames(names: seq<Text>, nameIndexes: map<Text, nat>, bindings: seq<nat>, count: nat,
                     occurrences: seq<Occurrence>, n: nat)
    requires n < |occurrences| && count > MAXIMUM_INDEX
    requires NamesBound(names, nameIndexes, bindings, count, occurrences, n + 1)
    ensures NumberFails(true, occurrences, n)
  {
  }

  method NextIndex(named: bool, occurrence: Occurrence, names: seq<Text>, nameIndexes: map<Text, nat>,
                   bindings: seq<nat>, ghost count: nat, ghost occurrences: seq<Occurrence>, ghost n: nat)
    returns (index: Option<nat>, names': seq<Text>, nameIndexes': map<Text, nat>)
    requires n < |occurrences| && occurrences[n] == occurrence && count <= MAXIMUM_INDEX
    requires NumbersBound(named, names, nameIndexes, bindings, count, occurrences, n)
    ensures index.None? ==> NumberFails(named, occurrences, n)
    ensures index.Some? ==> 1 <= index.value <= MAXIMUM_INDEX
    ensures index.Some? ==>
      NumbersBound(named, names', nameIndexes', bindings + [index.value - 1], Max(count, index.value),
                   occurrences, n + 1)
  {
    index, names', nameIndexes' := None, names, nameIndexes;
    var number := occurrence.index;
    if named {
      if occurrence.name.None? || !IsName(occurrence.name.value) {
        return;
      }
      number, names', nameIndexes' :=
        BindName(occurrence.name.value, names, nameIndexes, bindings, count, occurrences, n);
      if number > MAXIMUM_INDEX {
        TooManyNames(names', nameIndexes', bindings + [number - 1], Max(count, number), occurrences, n);
        return;
      }
    } else {
      if number < 1 || number > MAXIMUM_INDEX {
        return;
      }
      IndexBound(bindings, count, occurrences, n);
    }
    index := Some(number);
  }

  /** One turn of the loop over the occurrences; it is not valid when the occurrence has no usable number. */
  method ReadOccurrence(content: Text, occurrences: seq<Occurrence>, n: nat, named: bool, placeholder: Placeholder,
                        p: Progress, names: seq<Text>, nameIndexes: map<Text, nat>, count: nat)
    returns (p': Progress, names': seq<Text>, nameIndexes': map<Text, nat>, count': nat, valid: bool)
    requires n < |occurrences| && count <= MAXIMUM_INDEX && named == AnyNamed(occurrences)
    requires Bound(p, content, occurrences, n, placeholder)
    requires NumbersBound(named, names, nameIndexes, p.bindings, count, occurrences, n)
    requires p.end <= occurrences[n].start < occurrences[n].end <= |content|
    ensures !valid ==> !Acceptable(content, occurrences)
    ensures valid ==> Bound(p', content, occurrences, n + 1, placeholder) && count' <= MAXIMUM_INDEX
    ensures valid ==> NumbersBound(named, names', nameIndexes', p'.bindings, count', occurrences, n + 1)
  {
    p', count' := p, count;
    var index;
    index, names', nameIndexes' :=
      NextIndex(named, occurrences[n], names, nameIndexes, p.bindings, count, occurrences, n);
    valid := index.Some?;
    if valid {
      count' := Max(count, index.value);
      p' := BindOne(content, occurrences, n, index.value, placeholder, p);
    } else {
      NumberFailureRefuses(content, occurrences, n);
    }
  }

  /** The loop over the occurrences: it stops at the first that is out of order or has no usable number. */
  method ReadOccurrences(content: Text, occurrences: seq<Occurrence>, named: bool, placeholder: Placeholder)
    returns (p: Progress, names: seq<Text>, nameIndexes: map<Text, nat>, count: nat, valid: bool)
    requires named == AnyNamed(occurrences)
    ensures p.end <= |content|
    ensures !valid ==> !Acceptable(content, occurrences)
    ensures valid ==> Bound(p, content, occurrences, |occurrences|, placeholder) && count <= MAXIMUM_INDEX
    ensures valid ==> NumbersBound(named, names, nameIndexes, p.bindings, count, occurrences, |occurrences|)
  {
    p, names, nameIndexes, count, valid := Progress([], [], [], [], 0), [], map[], 0, true;
    var n := 0;
    while n < |occurrences|
      invariant n <= |occurrences|
      invariant Bound(p, content, occurrences, n, placeholder)
      invariant NumbersBound(named, names, nameIndexes, p.bindings, count, occurrences, n) && count <= MAXIMUM_INDEX
    {
      var occurrence := occurrences[n];
      if occurrence.start < p.end || occurrence.end <= occurrence.start || occurrence.end > |content| {
        assert !Follows(content, occurrences, n);
        valid := false;
        return;
      }
      var next, names', nameIndexes', count', usable :=
        ReadOccurrence(content, occurrences, n, named, placeholder, p, names, nameIndexes, count);
      if !usable {
        valid := false;
        return;
      }
      p, names, nameIndexes, count, n := next, names', nameIndexes', count', n + 1;
    }
  }

  /** The set-size test accepts what the loop has read through exactly when the file is acceptable. */
  lemma SizeTestDecides(content: Text, occurrences: seq<Occurrence>, named: bool, names: seq<Text>,
                        nameIndexes: map<Text, nat>, bindings: seq<nat>, count: nat)
    requires named == AnyNamed(occurrences) && InOrder(content, occurrences, |occurrences|) && count <= MAXIMUM_INDEX
    requires NumbersBound(named, names, nameIndexes, bindings, count, occurrences, |occurrences|)
    ensures Acceptable(content, occurrences) <==> |Distinct(bindings)| == count
  {
    if named {
      NamedIsAcceptable(content, occurrences, names, nameIndexes, bindings, count);
    } else {
      PositionalIsAcceptable(occurrences, bindings, count);
    }
  }

  method BindOccurrences(content: Text, occurrences: seq<Occurrence>, placeholder: Placeholder) returns (b: Binding)
    ensures b.accepted <==> Acceptable(content, occurrences)
    ensures b.accepted ==> IsBinding(b, content, occurrences, placeholder)
  {
    var named := AnyNamed(occurrences);
    var mixed := named && exists i :: 0 <= i < |occurrences| && occurrences[i].name.None?;
    var p, names, nameIndexes, count, valid := ReadOccurrences(content, occurrences, named, placeholder);
    var last := content[p.end..];
    var accepted := !mixed && valid && |Distinct(p.bindings)| == count;
    b := Binding(p.parts + [last], p.bindings, names, count, named, p.offsets + Stretch(p.end, |content|),
                 p.normalized + last, accepted);
    if valid {
      SizeTestDecides(content, occurrences, named, names, nameIndexes, p.bindings, count);
      if accepted {
        CutConcludes(b, content, occurrences, placeholder, p);
        NumberingConcludes(b, occurrences, nameIndexes);
      }
    }
  }

  // ---------------------------------------------------------------------------
  // Ranges of the analyzed text, mapped back to the file
  // ---------------------------------------------------------------------------

  function MapRange(b: Binding, content: Text, start: nat, end: nat): (int, int) {
    var from := if start < |b.offsets| then b.offsets[start] else |content|;
    (from, if end <= start then from else (if end - 1 < |b.offsets| then b.offsets[end - 1] else |content| - 1) + 1)
  }

  /** Where the marker of occurrence `k` stands in the analyzed text. */
  function MarkerStart(content: Text, occurrences: seq<Occurrence>, k: nat, placeholder: Placeholder): nat
    requires k < |occurrences| && InOrder(content, occurrences, k + 1)
  {
    assert Follows(content, occurrences, k);
    |Marked(Gaps(content, occurrences, k), placeholder)| + (occurrences[k].start - EndOf(occurrences, k))
  }

  /** The offsets of the text before occurrence `k` and of its marker, one by one. */
  lemma OffsetNear(b: Binding, content: Text, occurrences: seq<Occurrence>, placeholder: Placeholder, k: nat, i: nat)
    requires IsCut(b, content, occurrences, placeholder) && k < |occurrences|
    requires Follows(content, occurrences, k)
    requires i < occurrences[k].start - EndOf(occurrences, k) + |placeholder(k + 1)|
    ensures var own :=
      OccurrenceOffsets(EndOf(occurrences, k), occurrences[k].start, occurrences[k].end, |placeholder(k + 1)|);
      var from := MarkerStart(content, occurrences, k, placeholder) - (occurrences[k].start - EndOf(occurrences, k));
      from + i < |b.offsets| && b.offsets[from + i] == own[i]
  {
    OffsetsGrow(content, occurrences, k + 1, |occurrences|, placeholder);
    OffsetsCount(content, occurrences, k, placeholder);
    var all := OffsetsFor(content, occurrences, |occurrences|, placeholder);
    var own := OccurrenceOffsets(EndOf(occurrences, k), occurrences[k].start, occurrences[k].end, |placeholder(k + 1)|);
    var before := OffsetsFor(content, occurrences, k, placeholder);
    StandsInside(before, own, all, i);
    StandsInside([], all, b.offsets, |before| + i);
  }

  lemma StandsInside<T>(before: seq<T>, own: seq<T>, whole: seq<T>, i: nat)
    requires before + own <= whole && i < |own|
    ensures |before| + i < |whole| && whole[|before| + i] == own[i]
  {
    assert (before + own)[|before| + i] == own[i];
  }

  /**
   * A marker maps back to the end of its occurrence, and to the whole of it exactly when the marker has two units
   * or more, or the occurrence has only one: a marker of one unit keeps only the offset of the occurrence's last.
   */
  lemma MarkersMapToOccurrences(b: Binding, content: Text, occurrences: seq<Occurrence>, placeholder: Placeholder,
                                k: nat)
    requires IsBinding(b, content, occurrences, placeholder) && k < |occurrences| && placeholder(k + 1) != []
    ensures Follows(content, occurrences, k)
    ensures var at := MarkerStart(content, occurrences, k, placeholder);
      var range := MapRange(b, content, at, at + |placeholder(k + 1)|);
      && range.1 == occurrences[k].end
      && (range.0 == occurrences[k].start <==>
          |placeholder(k + 1)| >= 2 || occurrences[k].end == occurrences[k].start + 1)
  {
    assert Follows(content, occurrences, k);
    var gap := occurrences[k].start - EndOf(occurrences, k);
    OffsetNear(b, content, occurrences, placeholder, k, gap);
    OffsetNear(b, content, occurrences, placeholder, k, gap + |placeholder(k + 1)| - 1);
  }

  /** With ? as the marker, the marker of $1 maps to the 1 alone. */
  lemma QuestionMarkMapsToTheEnd()
    ensures var content: Text, placeholder: Placeholder := [0x24, 0x31], (n: nat) => [0x3F];
      var occurrences := [Occurrence(0, 2, 1, None)];
      var b := Binding([[], []], [0], [], 1, false, [1], [0x3F], true);
      IsBinding(b, content, occurrences, placeholder) && MapRange(b, content, 0, 1) == (1, 2)
  {
    var content: Text, placeholder: Placeholder := [0x24, 0x31], (n: nat) => [0x3F];
    var occurrences := [Occurrence(0, 2, 1, None)];
    var b := Binding([[], []], [0], [], 1, false, [1], [0x3F], true);
    assert Follows(content, occurrences, 0);
    QuestionMarkIsCut(b, content, occurrences, placeholder);
    assert b.bindings[0] == 0;
  }

  lemma QuestionMarkIsCut(b: Binding, content: Text, occurrences: seq<Occurrence>, placeholder: Placeholder)
    requires |content| == 2 && occurrences == [Occurrence(0, 2, 1, None)] && placeholder(1) == [0x3F]
    requires b.parts == [[], []] && b.normalized == [0x3F] && b.offsets == [1]
    ensures IsCut(b, content, occurrences, placeholder)
  {
    assert Follows(content, occurrences, 0);
    GapsSnoc(content, occurrences, 0, placeholder);
    assert content[0..0] == [] && content[2..] == [];
    var gaps := Gaps(content, occurrences, 1);
    assert gaps == [[]] && gaps + [content[2..]] == b.parts;
    assert Marked(gaps, placeholder) == [] + ([] + placeholder(1)) == [0x3F];
    MarkedSnoc(gaps, [], placeholder);
    assert OccurrenceOffsets(0, 0, 2, 1) == [1];
    assert OffsetsFor(content, occurrences, 1, placeholder) == OffsetsFor(content, occurrences, 0, placeholder) + [1]
      == [1];
    assert Stretch(2, 2) == [];
  }

  /** A stretch of the text before an occurrence maps back to where it was copied from. */
  lemma TextMapsToItself(b: Binding, content: Text, occurrences: seq<Occurrence>, placeholder: Placeholder, k: nat,
                         from: nat, to: nat)
    requires IsBinding(b, content, occurrences, placeholder) && k < |occurrences|
    requires EndOf(occurrences, k) <= from < to <= occurrences[k].start
    ensures Follows(content, occurrences, k)
    ensures var at := MarkerStart(content, occurrences, k, placeholder) - occurrences[k].start;
      at + from >= 0 && MapRange(b, content, at + from, at + to) == (from, to)
  {
    assert Follows(content, occurrences, k);
    OffsetNear(b, content, occurrences, placeholder, k, from - EndOf(occurrences, k));
    OffsetNear(b, content, occurrences, placeholder, k, to - 1 - EndOf(occurrences, k));
  }

  /** Every range maps to a range of the file, and the map never crosses two of them over. */
  lemma MappedRangesAreRanges(b: Binding, content: Text, occurrences: seq<Occurrence>, placeholder: Placeholder,
                              start: nat, end: nat)
    requires IsBinding(b, content, occurrences, placeholder)
    ensures var (from, to) := MapRange(b, content, start, end);
      0 <= from <= to <= |content| && (start < end && start < |b.normalized| ==> from < to)
    ensures forall later: nat :: start <= later ==>
      MapRange(b, content, start, end).0 <= MapRange(b, content, later, end).0
  {
  }

  // ---------------------------------------------------------------------------
  // The generated factory
  // ---------------------------------------------------------------------------

  datatype Fragment<V> = Raw(text: Text) | Value(value: V)

  predicate InRange<V>(bindings: seq<nat>, values: seq<V>) {
    forall k :: 0 <= k < |bindings| ==> bindings[k] < |values|
  }

  /** Every part, each but the first with the value of its occurrence in front of it. */
  function Fragments<V>(parts: seq<Text>, bindings: seq<nat>, values: seq<V>): (fragments: seq<Fragment<V>>)
    requires 1 <= |parts| <= |bindings| + 1 && InRange(bindings, values)
    ensures |fragments| == 2 * |parts| - 1
    ensures forall i :: 0 <= i < |fragments| ==>
      fragments[i] == if i % 2 == 0 then Raw(parts[i / 2]) else Value(values[bindings[i / 2]])
  {
    seq(2 * |parts| - 1, i requires 0 <= i < 2 * |parts| - 1 =>
      if i % 2 == 0 then Raw(parts[i / 2]) else Value(values[bindings[i / 2]]))
  }

  function ValuesUpTo<V>(fragments: seq<Fragment<V>>, n: nat): seq<V>
    requires n <= |fragments|
  {
    if n == 0 then []
    else ValuesUpTo(fragments, n - 1) + if fragments[n - 1].Value? then [fragments[n - 1].value] else []
  }

  /** Rendering numbers the values from left to right. */
  function TextUpTo<V>(fragments: seq<Fragment<V>>, n: nat, placeholder: Placeholder): Text
    requires n <= |fragments|
  {
    if n == 0 then []
    else
      TextUpTo(fragments, n - 1, placeholder)
      + if fragments[n - 1].Value? then placeholder(|ValuesUpTo(fragments, n - 1)| + 1) else fragments[n - 1].text
  }

  function ValuesOf<V>(fragments: seq<Fragment<V>>): seq<V> {
    ValuesUpTo(fragments, |fragments|)
  }

  function TextOf<V>(fragments: seq<Fragment<V>>, placeholder: Placeholder): Text {
    TextUpTo(fragments, |fragments|, placeholder)
  }

  /** The first `n` parts with numbered markers between them. */
  function InterleavedFirst(parts: seq<Text>, n: nat, placeholder: Placeholder): Text
    requires n <= |parts|
  {
    if n == 0 then []
    else if n == 1 then parts[0]
    else InterleavedFirst(parts, n - 1, placeholder) + placeholder(n - 1) + parts[n - 1]
  }

  lemma InterleavedSnoc(parts: seq<Text>, n: nat, placeholder: Placeholder)
    requires 2 <= n <= |parts|
    ensures Interleaved(parts[..n], placeholder)
      == Interleaved(parts[..n - 1], placeholder) + placeholder(n - 1) + parts[n - 1]
  {
    var before := parts[..n - 1];
    assert parts[..n][..n - 1] == before;
    assert before == before[..n - 2] + [before[n - 2]];
    MarkedSnoc(before[..n - 2], before[n - 2], placeholder);
    Associate(Marked(before[..n - 2], placeholder), before[n - 2], placeholder(n - 1));
  }

  lemma {:induction false} InterleavedFirstIs(parts: seq<Text>, n: nat, placeholder: Placeholder)
    requires 1 <= n <= |parts|
    ensures InterleavedFirst(parts, n, placeholder) == Interleaved(parts[..n], placeholder)
  {
    if n == 1 {
      assert parts[..1][..0] == [];
      assert Interleaved(parts[..1], placeholder) == Marked([], placeholder) + parts[0];
    } else {
      InterleavedFirstIs(parts, n - 1, placeholder);
      InterleavedSnoc(parts, n, placeholder);
    }
  }

  /** Each value is the one its occurrence is bound to. */
  ghost predicate Supplies<V>(supplied: seq<V>, bindings: seq<nat>, values: seq<V>)
    requires |supplied| <= |bindings| && InRange(bindings, values)
  {
    forall k :: 0 <= k < |supplied| ==> supplied[k] == values[bindings[k]]
  }

  lemma {:induction false} FragmentsSupply<V>(parts: seq<Text>, bindings: seq<nat>, values: seq<V>, n: nat)
    requires 1 <= n <= |parts| <= |bindings| + 1 && InRange(bindings, values)
    ensures var supplied := ValuesUpTo(Fragments(parts, bindings, values), 2 * n - 1);
      |supplied| == n - 1 && Supplies(supplied, bindings, values)
  {
    var fragments := Fragments(parts, bindings, values);
    assert fragments[2 * n - 2] == Raw(parts[n - 1]);
    assert ValuesUpTo(fragments, 2 * n - 1) == ValuesUpTo(fragments, 2 * n - 2);
    if n > 1 {
      FragmentsSupply(parts, bindings, values, n - 1);
      assert fragments[2 * n - 3] == Value(values[bindings[n - 2]]);
    }
  }

  /** A value and the part after it add the next marker and the part. */
  lemma PairRenders<V>(fragments: seq<Fragment<V>>, at: nat, count: nat, placeholder: Placeholder)
    requires at + 2 <= |fragments| && fragments[at].Value? && fragments[at + 1].Raw?
    requires |ValuesUpTo(fragments, at)| == count
    ensures TextUpTo(fragments, at + 2, placeholder)
            == TextUpTo(fragments, at, placeholder) + placeholder(count + 1) + fragments[at + 1].text
  {
    var middle := at + 1;
    assert TextUpTo(fragments, middle, placeholder) == TextUpTo(fragments, at, placeholder) + placeholder(count + 1);
    assert TextUpTo(fragments, middle + 1, placeholder)
      == TextUpTo(fragments, middle, placeholder) + fragments[middle].text;
  }

  lemma FirstRenders<V>(fragments: seq<Fragment<V>>, placeholder: Placeholder)
    requires fragments != [] && fragments[0].Raw?
    ensures TextUpTo(fragments, 1, placeholder) == fragments[0].text
  {
    assert TextUpTo(fragments, 1, placeholder) == TextUpTo(fragments, 0, placeholder) + fragments[0].text;
  }

  /** Part i stands at 2i, a value in front of it. */
  predicate PartAt<V>(fragments: seq<Fragment<V>>, parts: seq<Text>, i: nat)
    requires i < |parts|
  {
    && 2 * i < |fragments| && fragments[2 * i] == Raw(parts[i])
    && (i > 0 ==> fragments[2 * i - 1].Value?)
  }

  lemma {:induction false} FragmentsCount<V>(fragments: seq<Fragment<V>>, parts: seq<Text>, n: nat)
    requires 1 <= n <= |parts| && forall i :: 0 <= i < n ==> PartAt(fragments, parts, i)
    ensures 2 * n - 1 <= |fragments| && |ValuesUpTo(fragments, 2 * n - 1)| == n - 1
  {
    assert PartAt(fragments, parts, n - 1);
    assert ValuesUpTo(fragments, 2 * n - 1) == ValuesUpTo(fragments, 2 * n - 2);
    if n > 1 {
      FragmentsCount(fragments, parts, n - 1);
    }
  }

  lemma {:induction false} FragmentsRender<V>(fragments: seq<Fragment<V>>, parts: seq<Text>, n: nat,
                                              placeholder: Placeholder)
    requires 1 <= n <= |parts| && forall i :: 0 <= i < n ==> PartAt(fragments, parts, i)
    ensures 2 * n - 1 <= |fragments|
    ensures TextUpTo(fragments, 2 * n - 1, placeholder) == InterleavedFirst(parts, n, placeholder)
  {
    assert PartAt(fragments, parts, n - 1);
    if n == 1 {
      FirstRenders(fragments, placeholder);
    } else {
      FragmentsRender(fragments, parts, n - 1, placeholder);
      FragmentsCount(fragments, parts, n - 1);
      PairRenders(fragments, 2 * n - 3, n - 2, placeholder);
    }
  }

  /** All the fragments: their text, and their values. */
  lemma AllFragmentsRender<V>(parts: seq<Text>, bindings: seq<nat>, values: seq<V>, placeholder: Placeholder)
    requires |parts| == |bindings| + 1 && InRange(bindings, values)
    ensures TextOf(Fragments(parts, bindings, values), placeholder) == Interleaved(parts, placeholder)
    ensures |ValuesOf(Fragments(parts, bindings, values))| == |bindings|
    ensures Supplies(ValuesOf(Fragments(parts, bindings, values)), bindings, values)
  {
    FragmentsRender(Fragments(parts, bindings, values), parts, |parts|, placeholder);
    InterleavedFirstIs(parts, |parts|, placeholder);
    FragmentsSupply(parts, bindings, values, |parts|);
    assert parts[..|parts|] == parts;
  }

  /** The arguments of a named file, in the order of its names. */
  function NamedValues<V>(names: seq<Text>, parameters: map<Text, V>): (values: seq<V>)
    requires forall i :: 0 <= i < |names| ==> names[i] in parameters
    ensures |values| == |names|
    ensures forall i :: 0 <= i < |names| ==> values[i] == parameters[names[i]]
  {
    seq(|names|, i requires 0 <= i < |names| => parameters[names[i]])
  }

  datatype Call<V> = Query(fragments: seq<Fragment<V>>) | TypeError

  predicate Callable(b: Binding) {
    1 <= |b.parts| <= |b.bindings| + 1 && forall k :: 0 <= k < |b.bindings| ==> b.bindings[k] < b.count
  }

  lemma BindingIsCallable(b: Binding, content: Text, occurrences: seq<Occurrence>, placeholder: Placeholder)
    requires IsBinding(b, content, occurrences, placeholder)
    ensures Callable(b)
  {
    forall k | 0 <= k < |b.bindings| ensures b.bindings[k] < b.count {
      assert b.bindings[k] in b.bindings;
    }
  }

  /** The generated function of a positional file. */
  function CallPositional<V>(b: Binding, values: seq<V>): Call<V>
    requires Callable(b)
  {
    if |values| != b.count then TypeError else Query(Fragments(b.parts, b.bindings, values))
  }

  /** The generated function of a named file: exactly its names must be given. */
  function CallNamed<V>(b: Binding, parameters: map<Text, V>): Call<V>
    requires Callable(b)
  {
    if parameters.Keys != set name | name in b.names then TypeError
    else CallPositional(b, NamedValues(b.names, parameters))
  }

  /** A query that reads as the analyzed text, with one value for each occurrence. */
  ghost predicate IsQueryFor<V>(call: Call<V>, b: Binding, occurrences: seq<Occurrence>, placeholder: Placeholder) {
    && call.Query?
    && TextOf(call.fragments, placeholder) == b.normalized
    && |ValuesOf(call.fragments)| == |occurrences|
  }

  lemma CallRenders<V>(b: Binding, content: Text, occurrences: seq<Occurrence>, placeholder: Placeholder,
                       values: seq<V>)
    requires IsBinding(b, content, occurrences, placeholder) && |values| == b.count && Callable(b)
    ensures IsQueryFor(CallPositional(b, values), b, occurrences, placeholder)
    ensures Supplies(ValuesOf(CallPositional(b, values).fragments), b.bindings, values)
  {
    AllFragmentsRender(b.parts, b.bindings, values, placeholder);
  }

  /** A positional call: occurrence k stands for the argument of its own index. */
  lemma PositionalCallRenders<V>(b: Binding, content: Text, occurrences: seq<Occurrence>, placeholder: Placeholder,
                                 values: seq<V>)
    requires IsBinding(b, content, occurrences, placeholder) && !b.named && |values| == b.count
    ensures Callable(b) && IsQueryFor(CallPositional(b, values), b, occurrences, placeholder)
    ensures forall k :: 0 <= k < |occurrences| ==>
      1 <= occurrences[k].index <= |values|
      && ValuesOf(CallPositional(b, values).fragments)[k] == values[occurrences[k].index - 1]
  {
    BindingIsCallable(b, content, occurrences, placeholder);
    CallRenders(b, content, occurrences, placeholder, values);
    forall k | 0 <= k < |occurrences|
      ensures 1 <= occurrences[k].index <= |values|
      ensures ValuesOf(CallPositional(b, values).fragments)[k] == values[occurrences[k].index - 1]
    {
      assert IsBoundTo(b, occurrences[k], k);
    }
  }

  /** A named call: occurrence k stands for the argument of its own name. */
  lemma NamedCallRenders<V>(b: Binding, content: Text, occurrences: seq<Occurrence>, placeholder: Placeholder,
                            parameters: map<Text, V>)
    requires IsBinding(b, content, occurrences, placeholder) && b.named
    requires parameters.Keys == set name | name in b.names
    ensures Callable(b) && IsQueryFor(CallNamed(b, parameters), b, occurrences, placeholder)
    ensures forall k :: 0 <= k < |occurrences| ==>
      && occurrences[k].name.Some? && occurrences[k].name.value in parameters
      && ValuesOf(CallNamed(b, parameters).fragments)[k] == parameters[occurrences[k].name.value]
  {
    BindingIsCallable(b, content, occurrences, placeholder);
    CallRenders(b, content, occurrences, placeholder, NamedValues(b.names, parameters));
    forall k | 0 <= k < |occurrences|
      ensures occurrences[k].name.Some? && occurrences[k].name.value in parameters
      ensures ValuesOf(CallNamed(b, parameters).fragments)[k] == parameters[occurrences[k].name.value]
    {
      assert IsBoundTo(b, occurrences[k], k);
    }
  }
}
