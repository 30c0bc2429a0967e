/** Source and SQL text as sequences of UTF-16 code units, bytes, and the sequence facts shared by the other modules. */
module Text {
  type Unit = u: int | 0 <= u < 0x1_0000

  type Text = seq<Unit>

  type Byte = b: int | 0 <= b < 0x100

  type Bytes = seq<Byte>

  datatype Option<+T> = None | Some(value: T)

  function Min(a: int, b: int): int {
    if a <= b then a else b
  }

  function Max(a: int, b: int): int {
    if a >= b then a else b
  }

  /** `source[i]` as JavaScript reads it: out of range is no unit at all. */
  function At(source: Text, i: int): Option<Unit> {
    if 0 <= i < |source| then Some(source[i]) else None
  }

  /** `source.indexOf(needle, from)`, with the source length standing for "not found". */
  function IndexOf<T(==)>(source: seq<T>, needle: seq<T>, from: nat): (r: nat)
    requires needle != []
    ensures from <= |source| ==> from <= r <= |source|
    ensures r < |source| ==> r + |needle| <= |source| && source[r..r + |needle|] == needle
    decreases |source| - from
  {
    if from >= |source| || from + |needle| > |source| then |source|
    else if source[from..from + |needle|] == needle then from
    else IndexOf(source, needle, from + 1)
  }

  function Flatten<T>(chunks: seq<seq<T>>): seq<T> {
    if chunks == [] then [] else Flatten(chunks[..|chunks| - 1]) + chunks[|chunks| - 1]
  }

  lemma FlattenAppend<T>(chunks: seq<seq<T>>, chunk: seq<T>)
    ensures Flatten(chunks + [chunk]) == Flatten(chunks) + chunk
  {
    assert (chunks + [chunk])[..|chunks|] == chunks;
  }

  // Facts about sequences that are cheaper to call than to rediscover.

  lemma Associate<T>(a: seq<T>, b: seq<T>, c: seq<T>)
    ensures a + b + c == a + (b + c)
  {
  }

  lemma SliceOfPrefix<T>(prefix: seq<T>, whole: seq<T>, from: nat, to: nat)
    requires prefix <= whole && from <= to <= |prefix|
    ensures whole[from..to] == prefix[from..to]
  {
  }

  lemma SliceOfMiddle<T>(a: seq<T>, b: seq<T>, c: seq<T>)
    ensures (a + b + c)[|a|..|a| + |b|] == b
  {
  }

  lemma SliceOfTail<T>(front: seq<T>, tail: seq<T>, from: nat, to: nat)
    requires from <= to <= |tail|
    ensures (front + tail)[|front| + from..|front| + to] == tail[from..to]
    ensures (front + tail)[..|front| + to] == front + tail[..to]
  {
  }
}
