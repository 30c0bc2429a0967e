/** Bulk rows: chunking, progress and closing the source (packages/core/src/bulk.ts). */
module Bulk {
  import opened Text

  datatype Progress = Progress(rows: nat, bytes: nat)

  /** What asking the source for its next row gives: a row, which may fail to encode, or an exception. */
  datatype Item = Produces(encoded: Option<Bytes>) | Throws

  /** What happened at the source iterator. */
  datatype Call = NextValue | NextDone | NextThrew | Closed

  /** How the transfer consumes chunks: all of them, or only so many, then dropping or closing the generator. */
  datatype Consumer = Drains(fails: bool) | Stops(after: nat, closesGenerator: bool, fails: bool)

  datatype Outcome = Returned(total: Progress) | Threw

  function Size(rows: seq<Bytes>): nat {
    |Flatten(rows)|
  }

  // ---------------------------------------------------------------------------
  // The specification: rows grouped greedily
  // ---------------------------------------------------------------------------

  datatype Grouping = Grouping(groups: seq<seq<Bytes>>, pending: seq<Bytes>)

  predicate Overflows(pending: seq<Bytes>, row: Bytes, chunkBytes: nat) {
    Size(pending) > 0 && Size(pending) + |row| > chunkBytes
  }

  function Group(rows: seq<Bytes>, chunkBytes: nat): Grouping {
    if rows == [] then Grouping([], [])
    else
      var before, row := Group(rows[..|rows| - 1], chunkBytes), rows[|rows| - 1];
      if Overflows(before.pending, row, chunkBytes) then Grouping(before.groups + [before.pending], [row])
      else Grouping(before.groups, before.pending + [row])
  }

  /** The groups that become chunks: all of them, and the last if it has anything in it. */
  function Finished(g: Grouping): seq<seq<Bytes>> {
    if Size(g.pending) > 0 then g.groups + [g.pending] else g.groups
  }

  function Chunks(groups: seq<seq<Bytes>>): (chunks: seq<Bytes>)
    ensures |chunks| == |groups|
  {
    seq(|groups|, i requires 0 <= i < |groups| => Flatten(groups[i]))
  }

  /** What has been yielded once the first `k` chunks have. */
  function ReportAfter(groups: seq<seq<Bytes>>, k: nat): Progress
    requires k <= |groups|
  {
    Progress(|Flatten(groups[..k])|, |Flatten(Chunks(groups[..k]))|)
  }

  function Reports(groups: seq<seq<Bytes>>): (reports: seq<Progress>)
    ensures |reports| == |groups|
  {
    seq(|groups|, k requires 0 <= k < |groups| => ReportAfter(groups, k + 1))
  }

  lemma {:induction false} GroupKeepsRows(rows: seq<Bytes>, chunkBytes: nat)
    ensures var g := Group(rows, chunkBytes); Flatten(g.groups) + g.pending == rows
  {
    if rows != [] {
      var before, row := Group(rows[..|rows| - 1], chunkBytes), rows[|rows| - 1];
      GroupKeepsRows(rows[..|rows| - 1], chunkBytes);
      FlattenAppend(before.groups, before.pending);
      Associate(Flatten(before.groups), before.pending, [row]);
      assert rows == rows[..|rows| - 1] + [row];
    }
  }

  lemma {:induction false} FlattenAdds<T>(a: seq<seq<T>>, b: seq<seq<T>>)
    ensures Flatten(a + b) == Flatten(a) + Flatten(b)
  {
    if b == [] {
      assert a + b == a;
    } else {
      var n := |b| - 1;
      FlattenAdds(a, b[..n]);
      assert (a + b)[..|a + b| - 1] == a + b[..n];
      Associate(Flatten(a), Flatten(b[..n]), b[n]);
    }
  }

  lemma {:induction false} FlattenTwice(groups: seq<seq<Bytes>>)
    ensures Flatten(Chunks(groups)) == Flatten(Flatten(groups))
  {
    if groups != [] {
      var n := |groups| - 1;
      FlattenTwice(groups[..n]);
      assert Chunks(groups)[..n] == Chunks(groups[..n]);
      FlattenAdds(Flatten(groups[..n]), groups[n]);
    }
  }

  /** The chunks are the rows, in order, with nothing lost. */
  lemma ChunksAreTheRows(rows: seq<Bytes>, chunkBytes: nat)
    ensures Flatten(Chunks(Finished(Group(rows, chunkBytes)))) == Flatten(rows)
  {
    var g := Group(rows, chunkBytes);
    GroupKeepsRows(rows, chunkBytes);
    FlattenTwice(g.groups);
    FlattenAdds(Flatten(g.groups), g.pending);
    if Size(g.pending) > 0 {
      assert Chunks(Finished(g)) == Chunks(g.groups) + [Flatten(g.pending)];
      FlattenAppend(Chunks(g.groups), Flatten(g.pending));
    } else {
      assert Flatten(rows) == Flatten(Flatten(g.groups)) + [];
    }
  }

  /** Over the limit only when one row alone is, all others being empty. */
  ghost predicate FitsOrIsOneRow(group: seq<Bytes>, chunkBytes: nat) {
    Size(group) <= chunkBytes || exists i :: 0 <= i < |group| && |group[i]| == Size(group)
  }

  lemma {:induction false} GroupsFit(rows: seq<Bytes>, chunkBytes: nat)
    ensures var g := Group(rows, chunkBytes);
      && FitsOrIsOneRow(g.pending, chunkBytes)
      && forall i :: 0 <= i < |g.groups| ==> FitsOrIsOneRow(g.groups[i], chunkBytes) && Size(g.groups[i]) > 0
  {
    if rows == [] {
    } else {
      var before, row := Group(rows[..|rows| - 1], chunkBytes), rows[|rows| - 1];
      GroupsFit(rows[..|rows| - 1], chunkBytes);
      if Overflows(before.pending, row, chunkBytes) {
        assert Flatten([row]) == Flatten<Byte>([]) + row == row;
        assert [row][0] == row;
      } else {
        FlattenAppend(before.pending, row);
        var pending := before.pending + [row];
        if Size(before.pending) == 0 {
          assert |pending[|before.pending|]| == Size(pending);
        }
      }
    }
  }

  /** No chunk is empty, and one is larger than the limit only when a single row makes up all of it. */
  lemma ChunksFit(rows: seq<Bytes>, chunkBytes: nat)
    ensures forall i :: 0 <= i < |Finished(Group(rows, chunkBytes))| ==>
      var group := Finished(Group(rows, chunkBytes))[i];
      FitsOrIsOneRow(group, chunkBytes) && Size(group) > 0
  {
    GroupsFit(rows, chunkBytes);
  }

  // ---------------------------------------------------------------------------
  // The implementation
  // ---------------------------------------------------------------------------

  method Concatenate(chunks: seq<Bytes>, length: nat) returns (result: Bytes)
    requires length == Size(chunks)
    ensures result == Flatten(chunks)
  {
    if |chunks| == 1 {
      assert Flatten(chunks) == Flatten(chunks[..0]) + chunks[0] == chunks[0];
      return chunks[0];
    }
    var buffer := new Byte[length];
    var offset := 0;
    for i := 0 to |chunks|
      invariant offset == Size(chunks[..i]) <= length
      invariant buffer[..offset] == Flatten(chunks[..i])
    {
      var chunk := chunks[i];
      assert chunks[..i + 1] == chunks[..i] + [chunk];
      FlattenAppend(chunks[..i], chunk);
      PrefixIsShorter(chunks, i + 1);
      forall k | 0 <= k < |chunk| {
        buffer[offset + k] := chunk[k];
      }
      assert buffer[..offset + |chunk|] == buffer[..offset] + chunk;
      offset := offset + |chunk|;
    }
    assert chunks[..|chunks|] == chunks;
    return buffer[..];
  }

  lemma {:induction false} PrefixIsShorter<T>(chunks: seq<seq<T>>, n: nat)
    requires n <= |chunks|
    ensures |Flatten(chunks[..n])| <= |Flatten(chunks)|
  {
    FlattenAdds(chunks[..n], chunks[n..]);
    assert chunks == chunks[..n] + chunks[n..];
  }

  ghost predicate ClosedAtMostOnce(calls: seq<Call>) {
    forall i, j :: 0 <= i < j < |calls| ==> !(calls[i].Closed? && calls[j].Closed?)
  }

  /** Never closed after it said it was done. */
  ghost predicate NotClosedWhenDone(calls: seq<Call>) {
    forall i, j :: 0 <= i < j < |calls| ==> !(calls[i].NextDone? && calls[j].Closed?)
  }

  predicate IsEncoded(item: Item) {
    item.Produces? && item.encoded.Some?
  }

  /** The first `n` items are rows that encode. */
  ghost predicate AreEncoded(items: seq<Item>, n: nat) {
    n <= |items| && forall i :: 0 <= i < n ==> IsEncoded(items[i])
  }

  /** The encodings of the first `n` items. */
  ghost function Encodings(items: seq<Item>, n: nat): (rows: seq<Bytes>)
    requires AreEncoded(items, n)
    ensures |rows| == n
  {
    seq(n, i requires 0 <= i < n => items[i].encoded.value)
  }

  ghost predicate RowsGrouped(items: seq<Item>, n: nat, chunkBytes: nat, groups: seq<seq<Bytes>>, pending: seq<Bytes>) {
    && AreEncoded(items, n)
    && Group(Encodings(items, n), chunkBytes) == Grouping(groups, pending)
  }

  class Transfer {
    const items: seq<Item>
    const hasReturn: bool
    const chunkBytes: nat
    const consumer: Consumer
    /** The row at which the signal turns out to be aborted, if any. */
    const cancelledAt: Option<nat>
    /** The progress report whose callback throws, if any. */
    const reportFailsAt: Option<nat>
    /** Whether the first row's query compiles. */
    const compiles: bool
    /** Whether the signal is aborted before the call. */
    const abortedBefore: bool

    var calls: seq<Call>
    var iteratorClosed: bool
    var next: nat
    var yielded: seq<Bytes>
    var reports: seq<Progress>
    var rowCount: nat
    var byteCount: nat
    var inputComplete: bool

    ghost predicate Sound()
      reads this
    {
      && ClosedAtMostOnce(calls) && NotClosedWhenDone(calls)
      && (Closed in calls <==> iteratorClosed) && (iteratorClosed ==> hasReturn)
      && next <= |items|
      && (NextDone in calls ==> next == |items|)
    }

    constructor (items: seq<Item>, hasReturn: bool, chunkBytes: nat, consumer: Consumer, cancelledAt: Option<nat>,
                 reportFailsAt: Option<nat>, compiles: bool, abortedBefore: bool)
      ensures this.items == items && this.hasReturn == hasReturn && this.chunkBytes == chunkBytes
      ensures this.consumer == consumer && this.cancelledAt == cancelledAt
      ensures this.reportFailsAt == reportFailsAt && this.compiles == compiles && this.abortedBefore == abortedBefore
      ensures Sound() && calls == [] && yielded == [] && reports == [] && next == 0 && !iteratorClosed && !inputComplete
      ensures rowCount == byteCount == 0
    {
      this.items, this.hasReturn, this.chunkBytes := items, hasReturn, chunkBytes;
      this.consumer, this.cancelledAt, this.reportFailsAt, this.compiles, this.abortedBefore :=
        consumer, cancelledAt, reportFailsAt, compiles, abortedBefore;
      calls, iteratorClosed, next, yielded, reports, rowCount, byteCount, inputComplete :=
        [], false, 0, [], [], 0, 0, false;
    }

    // -------------------------------------------------------------------------
    // When a call fails
    // -------------------------------------------------------------------------

    /** Row `n` is there, it encodes, and the signal is not aborted when its turn comes. */
    ghost predicate RowIsGood(n: nat) {
      n < |items| && IsEncoded(items[n]) && cancelledAt != Some(n)
    }

    ghost predicate RowsAreGood(n: nat) {
      AreEncoded(items, n) && (cancelledAt.Some? ==> cancelledAt.value >= n)
    }

    /** How many chunks the first `n` rows make, not counting the one they leave pending. */
    ghost function ChunksBefore(n: nat): nat
      requires RowsAreGood(n)
    {
      |Group(Encodings(items, n), chunkBytes).groups|
    }

    /** The rows of each chunk. */
    ghost function AllGroups(): seq<seq<Bytes>>
      requires RowsAreGood(|items|)
    {
      Finished(Group(Encodings(items, |items|), chunkBytes))
    }

    /** How many chunks the rows make in all. */
    ghost function ChunksInAll(): nat
      requires RowsAreGood(|items|)
    {
      |AllGroups()|
    }

    /** The first `k` reports do not throw. */
    ghost predicate ReportsWork(k: nat) {
      reportFailsAt.Some? ==> reportFailsAt.value >= k
    }

    /** The consumer wants more after `k` chunks. */
    predicate Wants(k: nat) {
      consumer.Drains? || k < consumer.after
    }

    /** The generator comes to row `n`, or to the end of the rows. */
    ghost predicate Reaches(n: nat) {
      RowsAreGood(n) && ReportsWork(ChunksBefore(n)) && Wants(ChunksBefore(n))
    }

    /** It throws there: for the row, or for the report of the chunk that makes room for it, or of the last chunk. */
    ghost predicate ThrowsAt(n: nat)
      requires RowsAreGood(n)
    {
      if n < |items| then !RowIsGood(n) || !ReportsWork(ChunksBefore(n + 1)) else !ReportsWork(ChunksInAll())
    }

    ghost predicate GeneratorThrows() {
      exists n: nat :: Reaches(n) && ThrowsAt(n)
    }

    /** A row that overflows what is pending makes one chunk more. */
    lemma OneRowMore(n: nat, groups: seq<seq<Bytes>>, pending: seq<Bytes>, row: Bytes)
      requires RowsAreGood(n + 1) && items[n].encoded.value == row && RowsGrouped(items, n, chunkBytes, groups, pending)
      ensures |Flatten(groups)| + |pending| == n && ChunksBefore(n) == |groups|
      ensures Overflows(pending, row, chunkBytes) ==>
        RowsGrouped(items, n + 1, chunkBytes, groups + [pending], [row]) && ChunksBefore(n + 1) == |groups| + 1
      ensures !Overflows(pending, row, chunkBytes) ==>
        RowsGrouped(items, n + 1, chunkBytes, groups, pending + [row]) && ChunksBefore(n + 1) == |groups|
    {
      GroupOneMore(items, n, chunkBytes, groups, pending);
    }

    lemma {:induction false} ChunksOnlyGrow(n: nat, m: nat)
      requires n <= m && RowsAreGood(m)
      ensures ChunksBefore(n) <= ChunksBefore(m)
    {
      if n < m {
        ChunksOnlyGrow(n, m - 1);
        var g := Group(Encodings(items, m - 1), chunkBytes);
        OneRowMore(m - 1, g.groups, g.pending, items[m - 1].encoded.value);
      }
    }

    /** It has not thrown before it comes anywhere. */
    lemma NothingThrewBefore(n: nat, m: nat)
      requires Reaches(m) && n < m
      ensures Reaches(n) && !ThrowsAt(n)
    {
      ChunksOnlyGrow(n, m);
      ChunksOnlyGrow(n + 1, m);
    }

    /** A generator whose consumer has had enough does not throw any more. */
    lemma StoppedInTime(n: nat)
      requires Reaches(n) && n < |items| && !ThrowsAt(n) && !Wants(ChunksBefore(n + 1))
      ensures !GeneratorThrows()
    {
      forall m: nat | Reaches(m) ensures !ThrowsAt(m) {
        if m < n {
          NothingThrewBefore(m, n);
        } else if m > n {
          ChunksOnlyGrow(n + 1, m);
        }
      }
    }

    lemma CameToTheEnd()
      requires Reaches(|items|)
      ensures GeneratorThrows() <==> ThrowsAt(|items|)
    {
      forall m: nat | Reaches(m) && m < |items| ensures !ThrowsAt(m) {
        NothingThrewBefore(m, |items|);
      }
    }

    lemma LastReport(count: nat)
      requires Reaches(|items|) && ChunksInAll() == count
      ensures GeneratorThrows() <==> !ReportsWork(count)
    {
      CameToTheEnd();
    }

    /** Where the reports stop working, on the way to good rows. */
    lemma {:induction false} SomeReportThrows(n: nat) returns (m: nat)
      requires consumer.Drains? && RowsAreGood(n) && !ReportsWork(ChunksBefore(n))
      ensures Reaches(m) && ThrowsAt(m)
    {
      m := n - 1;
      if !ReportsWork(ChunksBefore(m)) {
        m := SomeReportThrows(m);
      }
    }

    lemma {:induction false} FirstBadRow(n: nat) returns (m: nat)
      requires n <= |items| && !RowsAreGood(n)
      ensures m < n && RowsAreGood(m) && !RowIsGood(m)
    {
      m := n - 1;
      if !RowsAreGood(m) {
        m := FirstBadRow(m);
      }
    }

    /** A drained generator throws exactly when some row is bad or the report of some chunk throws. */
    lemma DrainedThrowsIff()
      requires consumer.Drains?
      ensures GeneratorThrows() <==> !RowsAreGood(|items|) || !ReportsWork(ChunksInAll())
    {
      if !RowsAreGood(|items|) {
        var n := FirstBadRow(|items|);
        if !ReportsWork(ChunksBefore(n)) {
          n := SomeReportThrows(n);
        }
        assert Reaches(n) && ThrowsAt(n);
      } else if !ReportsWork(ChunksBefore(|items|)) {
        var n := SomeReportThrows(|items|);
        assert Reaches(n) && ThrowsAt(n);
      } else {
        CameToTheEnd();
      }
    }

    // -------------------------------------------------------------------------
    // The source
    // -------------------------------------------------------------------------

    /** Closes the source unless that has been done, or cannot be. */
    method CloseIterator()
      requires Sound() && NextDone !in calls
      modifies this`calls, this`iteratorClosed
      ensures Sound() && NextDone !in calls
      ensures hasReturn ==> Closed in calls
    {
      if iteratorClosed || !hasReturn {
        return;
      }
      iteratorClosed := true;
      calls := calls + [Closed];
    }

    method Next() returns (call: Call, row: Option<Bytes>)
      requires Sound() && NextDone !in calls && Closed !in calls
      modifies this`calls, this`next
      ensures Sound() && Closed !in calls
      ensures call.NextDone? <==> NextDone in calls
      ensures call ==
        if old(next) == |items| then NextDone else if items[old(next)].Throws? then NextThrew else NextValue
      ensures next == if call.NextDone? then old(next) else old(next) + 1
      ensures call.NextValue? ==> row == items[old(next)].encoded
    {
      row := None;
      if next == |items| {
        call := NextDone;
      } else {
        call := if items[next].Throws? then NextThrew else NextValue;
        row := if items[next].Throws? then None else items[next].encoded;
        next := next + 1;
      }
      calls := calls + [call];
    }

    /** Whether the consumer goes on after the chunks it has been given. */
    predicate WantsMore()
      reads this
    {
      Wants(|yielded|)
    }

    /** The rows taken so far are grouped as specified, and what has been yielded and reported says so. */
    ghost predicate HasGrouped(n: nat, groups: seq<seq<Bytes>>, pending: seq<Bytes>)
      reads this`yielded, this`reports, this`byteCount, this`rowCount
    {
      rowCount == n && RowsGrouped(items, n, chunkBytes, groups, pending) && HasYielded(groups)
    }

    ghost predicate HasYielded(groups: seq<seq<Bytes>>)
      reads this`yielded, this`reports, this`byteCount
    {
      yielded == Chunks(groups) && reports == Reports(groups) && byteCount == |Flatten(yielded)|
    }

    /** As many chunks as the consumer wants: those that some of the rows make. */
    ghost predicate AreAllItWants(groups: seq<seq<Bytes>>) {
      consumer.Stops? && |groups| == consumer.after && exists n :: AreGroupsOf(n, groups)
    }

    ghost predicate AreGroupsOf(n: nat, groups: seq<seq<Bytes>>) {
      RowsAreGood(n) && groups == Group(Encodings(items, n), chunkBytes).groups
    }

    /** The consumer has been given all it wants, and only the rows in it count. */
    ghost predicate HasStopped(groups: seq<seq<Bytes>>)
      reads this`yielded, this`reports, this`byteCount, this`rowCount
    {
      AreAllItWants(groups) && HasYielded(groups) && rowCount == |Flatten(groups)|
    }

    /** The consumer has been given every chunk, and had not yet had all it wants before the last. */
    ghost predicate YieldedAll()
      reads this`yielded, this`reports, this`byteCount, this`rowCount
    {
      && RowsAreGood(|items|) && rowCount == |items| && (consumer.Stops? ==> |yielded| <= consumer.after)
      && HasYielded(AllGroups())
    }

    ghost predicate GaveWhatWasWanted()
      reads this`yielded, this`reports, this`byteCount, this`rowCount
    {
      YieldedAll() || exists groups :: HasStopped(groups)
    }

    /** Reports and yields one chunk. */
    method Yield(pending: seq<Bytes>, pendingBytes: nat, ghost groups: seq<seq<Bytes>>) returns (reported: bool)
      requires HasYielded(groups) && pendingBytes == Size(pending)
      requires |Flatten(groups)| + |pending| == rowCount
      modifies this`yielded, this`reports, this`byteCount
      ensures reported ==> HasYielded(groups + [pending])
      ensures !reported ==> yielded == old(yielded)
      ensures reported <==> reportFailsAt != Some(|groups|)
    {
      var chunk := Concatenate(pending, pendingBytes);
      byteCount := byteCount + |chunk|;
      reports := reports + [Progress(rowCount, byteCount)];
      if reportFailsAt == Some(|reports| - 1) {
        return false;
      }
      YieldedOneMore(groups, pending);
      FlattenAppend(yielded, chunk);
      yielded := yielded + [chunk];
      return true;
    }

    /** Yields what is pending; closes the source when the generator does not go on. */
    method YieldPending(pending: seq<Bytes>, pendingBytes: nat, ghost groups: seq<seq<Bytes>>)
      returns (goesOn: bool, worked: bool)
      requires Sound() && NextDone !in calls && Closed !in calls
      requires HasYielded(groups) && pendingBytes == Size(pending) && |Flatten(groups)| + |pending| == rowCount
      modifies this`yielded, this`reports, this`byteCount, this`calls, this`iteratorClosed
      ensures Sound() && NextDone !in calls
      ensures worked <==> reportFailsAt != Some(|groups|)
      ensures goesOn <==> worked && Wants(|groups| + 1)
      ensures worked ==> HasYielded(groups + [pending])
      ensures goesOn ==> Closed !in calls
    {
      worked := Yield(pending, pendingBytes, groups);
      goesOn := worked && WantsMore();
      if !worked || (!goesOn && consumer.closesGenerator) {
        CloseIterator();
      }
    }

    /** A consumer that has had enough has had what some rows make. */
    lemma HasEnough(n: nat, groups: seq<seq<Bytes>>, pending: seq<Bytes>, last: seq<Bytes>)
      requires RowsAreGood(n) && RowsGrouped(items, n, chunkBytes, groups + [pending], last)
      requires Wants(|groups|) && !Wants(|groups| + 1)
      ensures AreAllItWants(groups + [pending])
      ensures |Flatten(groups + [pending])| == |Flatten(groups)| + |pending|
    {
      FlattenAppend(groups, pending);
      assert AreGroupsOf(n, groups + [pending]);
    }

    /** Yields what is pending, since the next row does not fit beside it. */
    method Overflow(encoded: Bytes, pending: seq<Bytes>, pendingBytes: nat, ghost groups: seq<seq<Bytes>>)
      returns (goesOn: bool, worked: bool)
      requires Sound() && NextDone !in calls && Closed !in calls
      requires RowsAreGood(rowCount + 1) && items[rowCount] == Produces(Some(encoded))
      requires HasGrouped(rowCount, groups, pending) && pendingBytes == Size(pending)
      requires Overflows(pending, encoded, chunkBytes) && Wants(|groups|) && ReportsWork(|groups|)
      modifies this`yielded, this`reports, this`byteCount, this`calls, this`iteratorClosed
      ensures Sound() && NextDone !in calls
      ensures RowsGrouped(items, rowCount + 1, chunkBytes, groups + [pending], [encoded])
      ensures ChunksBefore(rowCount + 1) == |groups| + 1
      ensures worked <==> ReportsWork(|groups| + 1)
      ensures goesOn <==> worked && Wants(|groups| + 1)
      ensures goesOn ==> HasYielded(groups + [pending]) && Closed !in calls
      ensures worked && !goesOn ==> HasStopped(groups + [pending])
    {
      OneRowMore(rowCount, groups, pending, encoded);
      if !Wants(|groups| + 1) {
        HasEnough(rowCount + 1, groups, pending, [encoded]);
      }
      goesOn, worked := YieldPending(pending, pendingBytes, groups);
    }

    /** Yields what is pending if the next row would not fit beside it. */
    method MakeRoom(encoded: Bytes, pending: seq<Bytes>, pendingBytes: nat, ghost groups: seq<seq<Bytes>>)
      returns (goesOn: bool, worked: bool, room: seq<Bytes>, roomBytes: nat, ghost grouped: seq<seq<Bytes>>)
      requires Sound() && NextDone !in calls && Closed !in calls
      requires rowCount < |items| && items[rowCount] == Produces(Some(encoded))
      requires HasGrouped(rowCount, groups, pending) && pendingBytes == Size(pending)
      requires Reaches(rowCount) && RowIsGood(rowCount)
      modifies this`yielded, this`reports, this`byteCount, this`calls, this`iteratorClosed
      ensures Sound() && NextDone !in calls
      ensures goesOn ==> worked && Closed !in calls
      ensures goesOn ==> HasYielded(grouped) && roomBytes == Size(room)
      ensures goesOn ==> RowsGrouped(items, rowCount + 1, chunkBytes, grouped, room + [encoded])
      ensures RowsAreGood(rowCount + 1) && (worked <==> ReportsWork(ChunksBefore(rowCount + 1)))
      ensures worked ==> (goesOn <==> Wants(ChunksBefore(rowCount + 1)))
      ensures worked && !goesOn ==> HasStopped(grouped)
    {
      room, roomBytes, grouped, goesOn, worked := pending, pendingBytes, groups, true, true;
      OneRowMore(rowCount, groups, pending, encoded);
      if pendingBytes > 0 && pendingBytes + |encoded| > chunkBytes {
        goesOn, worked := Overflow(encoded, pending, pendingBytes, groups);
        room, roomBytes, grouped := [], 0, groups + [pending];
        assert [] + [encoded] == [encoded];
      }
    }

    /** Takes one encoded row. */
    method TakeRow(encoded: Bytes, pending: seq<Bytes>, pendingBytes: nat, ghost groups: seq<seq<Bytes>>)
      returns (goesOn: bool, worked: bool, taken: seq<Bytes>, takenBytes: nat, ghost grouped: seq<seq<Bytes>>)
      requires Sound() && NextDone !in calls && Closed !in calls
      requires rowCount < |items| && items[rowCount] == Produces(Some(encoded))
      requires HasGrouped(rowCount, groups, pending) && pendingBytes == Size(pending)
      requires Reaches(rowCount) && RowIsGood(rowCount)
      modifies this`yielded, this`reports, this`byteCount, this`rowCount, this`calls, this`iteratorClosed
      ensures Sound() && NextDone !in calls
      ensures goesOn ==> worked && Closed !in calls
      ensures goesOn ==>
        rowCount == old(rowCount) + 1 && HasGrouped(rowCount, grouped, taken) && takenBytes == Size(taken)
      ensures RowsAreGood(old(rowCount) + 1) && (worked <==> ReportsWork(ChunksBefore(old(rowCount) + 1)))
      ensures worked ==> (goesOn <==> Wants(ChunksBefore(old(rowCount) + 1)))
      ensures worked && !goesOn ==> HasStopped(grouped)
    {
      goesOn, worked, taken, takenBytes, grouped := MakeRoom(encoded, pending, pendingBytes, groups);
      if goesOn {
        FlattenAppend(taken, encoded);
        taken := taken + [encoded];
        takenBytes := takenBytes + |encoded|;
        rowCount := rowCount + 1;
      }
    }

    /** Yields what is left once the source is done. */
    method Finish(pending: seq<Bytes>, pendingBytes: nat, ghost groups: seq<seq<Bytes>>) returns (worked: bool)
      requires HasYielded(groups) && pendingBytes == Size(pending) && |Flatten(groups)| + |pending| == rowCount
      modifies this`yielded, this`reports, this`byteCount
      ensures worked ==> HasYielded(if pendingBytes > 0 then groups + [pending] else groups)
      ensures worked <==> pendingBytes == 0 || reportFailsAt != Some(|groups|)
    {
      if pendingBytes == 0 {
        return true;
      }
      worked := Yield(pending, pendingBytes, groups);
    }

    /** The loop stands at row `rowCount`, or behind the last one. */
    ghost predicate StandsAt(current: Option<Option<Bytes>>, groups: seq<seq<Bytes>>, pending: seq<Bytes>,
                             pendingBytes: nat)
      reads this
    {
      && Sound() && Closed !in calls && Reaches(rowCount)
      && HasGrouped(rowCount, groups, pending) && pendingBytes == Size(pending)
      && (current.Some? ==> NextDone !in calls && next == rowCount + 1 && items[rowCount] == Produces(current.value))
      && (current.None? ==> NextDone in calls && rowCount == |items|)
    }

    /** What all the rows leave pending makes the last chunk, and only its report can still throw. */
    lemma LastChunk(groups: seq<seq<Bytes>>, pending: seq<Bytes>, pendingBytes: nat)
      requires Reaches(|items|) && RowsGrouped(items, |items|, chunkBytes, groups, pending)
      requires pendingBytes == Size(pending)
      ensures AllGroups() == if pendingBytes > 0 then groups + [pending] else groups
      ensures |Flatten(groups)| + |pending| == |items| && (consumer.Stops? ==> |groups| < consumer.after)
      ensures GeneratorThrows() <==> pendingBytes > 0 && reportFailsAt == Some(|groups|)
    {
      LastGroup(items, chunkBytes, groups, pending);
      LastReport(if pendingBytes > 0 then |groups| + 1 else |groups|);
    }

    /** One turn of the generator's loop. When it does not go on, it threw unless the consumer has had enough. */
    method Turn(row: Option<Bytes>, pending: seq<Bytes>, pendingBytes: nat, ghost groups: seq<seq<Bytes>>)
      returns (goesOn: bool, worked: bool, current: Option<Option<Bytes>>, taken: seq<Bytes>, takenBytes: nat,
               ghost grouped: seq<seq<Bytes>>)
      requires StandsAt(Some(row), groups, pending, pendingBytes)
      modifies this`yielded, this`reports, this`byteCount, this`rowCount, this`calls, this`iteratorClosed, this`next
      ensures goesOn ==> StandsAt(current, grouped, taken, takenBytes) && rowCount == old(rowCount) + 1
      ensures !goesOn ==> Sound() && NextDone !in calls && (worked <==> !GeneratorThrows())
      ensures !goesOn && worked ==> HasStopped(grouped)
    {
      current, taken, takenBytes, grouped := None, pending, pendingBytes, groups;
      if cancelledAt == Some(rowCount) || row.None? {
        assert ThrowsAt(rowCount);
        CloseIterator();
        return false, false, current, taken, takenBytes, grouped;
      }
      ghost var n := rowCount;
      goesOn, worked, taken, takenBytes, grouped := TakeRow(row.value, pending, pendingBytes, groups);
      if !goesOn {
        if worked {
          StoppedInTime(n);
        } else {
          assert Reaches(n) && ThrowsAt(n);
        }
        return;
      }
      var call, result := Next();
      if call.NextThrew? {
        assert Reaches(rowCount) && ThrowsAt(rowCount);
        CloseIterator();
        return false, false, current, taken, takenBytes, grouped;
      }
      current := if call.NextDone? then None else Some(result);
    }

    /** The end of the generator, behind its loop. */
    method Complete(pending: seq<Bytes>, pendingBytes: nat, ghost groups: seq<seq<Bytes>>) returns (worked: bool)
      requires StandsAt(None, groups, pending, pendingBytes)
      modifies this`yielded, this`reports, this`byteCount, this`inputComplete
      ensures inputComplete && Sound()
      ensures worked ==> YieldedAll()
      ensures worked <==> !GeneratorThrows()
    {
      inputComplete := true;
      LastChunk(groups, pending, pendingBytes);
      worked := Finish(pending, pendingBytes, groups);
    }

    /** The generator's loop. False means it threw. */
    method Generate(first: Option<Bytes>) returns (worked: bool)
      requires Sound() && NextDone !in calls && Closed !in calls
      requires next == 1 && items[0] == Produces(first)
      requires yielded == [] && reports == [] && rowCount == byteCount == 0 && !inputComplete
      requires WantsMore()
      modifies this
      ensures Sound() && (inputComplete <==> NextDone in calls)
      ensures worked ==> GaveWhatWasWanted() && (inputComplete ==> YieldedAll()) && (consumer.Drains? ==> inputComplete)
      ensures inputComplete ==> Closed !in calls
      ensures worked <==> !GeneratorThrows()
    {
      var pending: seq<Bytes>, pendingBytes := [], 0;
      var current := Some(first);
      ghost var groups: seq<seq<Bytes>> := [];
      while current.Some?
        invariant StandsAt(current, groups, pending, pendingBytes) && !inputComplete
        decreases |items| - rowCount, if current.Some? then 1 else 0
      {
        var goesOn;
        goesOn, worked, current, pending, pendingBytes, groups := Turn(current.value, pending, pendingBytes, groups);
        if !goesOn {
          return;
        }
      }
      worked := Complete(pending, pendingBytes, groups);
    }

    lemma NothingYieldedYet()
      requires yielded == [] && reports == [] && rowCount == byteCount == 0
      ensures items == [] ==> YieldedAll()
      ensures consumer.Stops? && consumer.after == 0 ==> HasStopped([])
    {
      assert AreGroupsOf(0, []);
    }

    /** One whole call. */
    method Execute() returns (outcome: Outcome)
      requires Sound() && calls == [] && yielded == [] && reports == [] && next == 0 && !iteratorClosed
      requires !inputComplete
      requires rowCount == byteCount == 0
      modifies this
      ensures ClosedAtMostOnce(calls) && NotClosedWhenDone(calls)
      ensures !abortedBefore ==> (Closed in calls <==> hasReturn && NextDone !in calls)
      // An aborted call does not touch the source.
      ensures abortedBefore ==> calls == []
      // A call fails exactly when it is aborted beforehand, its first row cannot be had, its statement does not
      // compile, its consumer fails, or its generator throws; a drained generator throws exactly when a row is bad
      // or a report throws.
      ensures outcome.Threw? <==>
        abortedBefore || (items != [] && (items[0].Throws? || !compiles || consumer.fails || GeneratorThrows()))
      // What a call returns counts what its consumer has been given: all chunks, or as many as it wants.
      ensures outcome.Returned? ==>
        outcome.total == Progress(rowCount, byteCount) && GaveWhatWasWanted()
      ensures consumer.Drains? && outcome.Returned? ==>
        && AreEncoded(items, |items|)
        && var rows := Encodings(items, |items|);
           var groups := Finished(Group(rows, chunkBytes));
           yielded == Chunks(groups) && reports == Reports(groups) && outcome.total == Progress(|rows|, |Flatten(rows)|)
    {
      if abortedBefore {
        return Threw;
      }
      var call, row := Next();
      if call.NextThrew? {
        CloseIterator();
        return Threw;
      }
      NothingYieldedYet();
      if call.NextDone? {
        return Returned(Progress(0, 0));
      }
      if !compiles {
        CloseIterator();
        return Threw;
      }
      var worked := true;
      if WantsMore() {
        worked := Generate(row);
      } else {
        assert HasStopped([]);
      }
      if consumer.Drains? && worked {
        ChunksAreTheRows(Encodings(items, |items|), chunkBytes);
      }
      if !inputComplete {
        CloseIterator();
      }
      return if !worked || consumer.fails then Threw else Returned(Progress(rowCount, byteCount));
    }
  }

  lemma YieldedOneMore(groups: seq<seq<Bytes>>, pending: seq<Bytes>)
    ensures Chunks(groups + [pending]) == Chunks(groups) + [Flatten(pending)]
    ensures Reports(groups + [pending]) == Reports(groups)
      + [Progress(|Flatten(groups)| + |pending|, |Flatten(Chunks(groups))| + Size(pending))]
  {
    var more := groups + [pending];
    FlattenAppend(groups, pending);
    FlattenAppend(Chunks(groups), Flatten(pending));
    forall k | 0 <= k < |groups| ensures Reports(more)[k] == Reports(groups)[k] {
      assert more[..k + 1] == groups[..k + 1];
    }
    assert more[..|more|] == more;
  }

  lemma LastGroup(items: seq<Item>, chunkBytes: nat, groups: seq<seq<Bytes>>, pending: seq<Bytes>)
    requires RowsGrouped(items, |items|, chunkBytes, groups, pending)
    ensures Finished(Group(Encodings(items, |items|), chunkBytes))
      == if Size(pending) > 0 then groups + [pending] else groups
    ensures |Flatten(groups)| + |pending| == |items|
  {
    GroupKeepsRows(Encodings(items, |items|), chunkBytes);
  }

  /** One more row is grouped as the loop groups it. */
  lemma GroupOneMore(items: seq<Item>, n: nat, chunkBytes: nat, groups: seq<seq<Bytes>>, pending: seq<Bytes>)
    requires AreEncoded(items, n + 1)
    requires Group(Encodings(items, n), chunkBytes) == Grouping(groups, pending)
    ensures var row := items[n].encoded.value;
      Group(Encodings(items, n + 1), chunkBytes)
      == if Overflows(pending, row, chunkBytes)
        then Grouping(groups + [pending], [row]) else Grouping(groups, pending + [row])
    ensures |Flatten(groups)| + |pending| == n
  {
    assert Encodings(items, n + 1)[..n] == Encodings(items, n);
    GroupKeepsRows(Encodings(items, n), chunkBytes);
  }
}
