/**
 * Building a query manifest with and without a previous one (packages/compiler/src/manifest.ts, buildQueryManifest).
 *
 * What the compiler finds in a file, how schemas, policies and sources are hashed, and how capabilities are
 * fingerprinted are functions the model is given.
 */
module Manifest {
  import opened Text
  import opened Ordering
  import Compatibility

  const FORMAT_VERSION: Text := [0x31]
  const ALGORITHM: Text := [0x76, 0x31]
  const KIND: Text := [0x71]
  const CORE: Text := [0x63]

  datatype Dialect = Dialect(id: Text, grammarVersion: Text)

  datatype Schema = Schema(dialect: Text, formatVersion: nat, content: Text)

  datatype Input = Input(file: Text, source: Text)

  datatype Entry = Entry(file: Text, start: nat, body: Text)

  datatype FileHash = FileHash(file: Text, hash: Text)

  datatype Options = Options(
    compiler: Text, dialect: Dialect, schema: Schema, policy: Text, variantLimit: nat, projects: seq<Text>,
    sources: seq<Input>)

  /** Everything but the file that decides what the compiler finds in it. */
  datatype Context = Context(compiler: Text, dialect: Dialect, schema: Schema, policy: Text, variantLimit: nat)

  datatype Manifest = Manifest(
    formatVersion: Text, compiler: Text, algorithm: Text, dialect: Dialect, capabilityFingerprint: Option<Text>,
    schemaFormat: Option<nat>, schemaHash: Text, policyHash: Text, projects: seq<Text>, sources: seq<FileHash>,
    queries: seq<Entry>)

  datatype Result = Built(manifest: Manifest) | NoCompilerVersion | WrongDialect | DuplicateSource

  datatype Tools = Tools(
    hash: Text -> Text, schemaHash: Schema -> Text, policyHash: Text -> Text,
    capabilities: (Dialect, Schema, Text) -> Text, analyze: (Context, Text, Text) -> seq<Entry>)

  // ---------------------------------------------------------------------------
  // Building from scratch
  // ---------------------------------------------------------------------------

  function FilesFirst(): (Input, Input) -> bool {
    (a: Input, b: Input) => Less(a.file, b.file)
  }

  function FilesThenStarts(): (Entry, Entry) -> bool {
    (a: Entry, b: Entry) => Less(a.file, b.file) || (a.file == b.file && a.start < b.start)
  }

  /** Sorted by file, each file at most as large as every later one. */
  ghost predicate Ascending(inputs: seq<Input>) {
    forall i, j :: 0 <= i < j < |inputs| ==> !Less(inputs[j].file, inputs[i].file)
  }

  lemma FilesAreOrdered()
    ensures IsOrder(FilesFirst()) && IsOrder(FilesThenStarts())
  {
    forall a: Text, b: Text ensures Less(a, b) ==> !Less(b, a) {
      LessIsTotal(a, b);
    }
    forall a: Text, b: Text, c: Text | !Less(a, b) && !Less(b, c) ensures !Less(a, c) {
      NotLessIsTransitive(c, b, a);
    }
    forall a: Text, b: Text | !Less(a, b) && !Less(b, a) ensures a == b {
      LessIsTotal(a, b);
    }
  }

  lemma SortAscends(items: seq<Input>)
    ensures Ascending(Sort(items, FilesFirst()))
  {
    FilesAreOrdered();
    Ordering.SortAscends(items, FilesFirst());
  }

  predicate HasDuplicate(inputs: seq<Input>) {
    exists i :: 0 < i < |inputs| && inputs[i].file == inputs[i - 1].file
  }

  function ContextOf(options: Options): Context {
    Context(options.compiler, options.dialect, options.schema, options.policy, options.variantLimit)
  }

  function Analyze(tools: Tools, options: Options, input: Input): seq<Entry> {
    tools.analyze(ContextOf(options), input.file, input.source)
  }

  function ManifestOf(tools: Tools, options: Options, inputs: seq<Input>, lists: seq<seq<Entry>>): Manifest {
    Manifest(FORMAT_VERSION, options.compiler, ALGORITHM, options.dialect,
             Some(tools.capabilities(options.dialect, options.schema, options.policy)),
             Some(options.schema.formatVersion), tools.schemaHash(options.schema), tools.policyHash(options.policy),
             options.projects,
             seq(|inputs|, i requires 0 <= i < |inputs| => FileHash(inputs[i].file, tools.hash(inputs[i].source))),
             Sort(Flatten(lists), FilesThenStarts()))
  }

  function At(file: Text, start: nat): Entry -> bool {
    (e: Entry) => e.file == file && e.start == start
  }

  /** The entries of a manifest go by file and then by start, those of one place in the order they were found. */
  lemma EntriesAreSorted(tools: Tools, options: Options, inputs: seq<Input>, lists: seq<seq<Entry>>, file: Text,
                         start: nat)
    ensures var entries := ManifestOf(tools, options, inputs, lists).queries;
      && (forall i, j :: 0 <= i < j < |entries| ==>
            || Less(entries[i].file, entries[j].file)
            || (entries[i].file == entries[j].file && entries[i].start <= entries[j].start))
      && multiset(entries) == multiset(Flatten(lists))
      && With(entries, At(file, start)) == With(Flatten(lists), At(file, start))
  {
    FilesAreOrdered();
    LessIsTotal(file, file);
    Ordering.SortAscends(Flatten(lists), FilesThenStarts());
    SortIsStable(Flatten(lists), FilesThenStarts(), At(file, start));
    var entries := ManifestOf(tools, options, inputs, lists).queries;
    forall i, j | 0 <= i < j < |entries|
      ensures Less(entries[i].file, entries[j].file)
           || (entries[i].file == entries[j].file && entries[i].start <= entries[j].start)
    {
      LessIsTotal(entries[i].file, entries[j].file);
    }
  }

  /** The checks made before anything is built. */
  function Refusal(options: Options): (r: Option<Result>)
    ensures r.Some? ==> !r.value.Built?
    ensures r.None? ==> !HasDuplicate(Sort(options.sources, FilesFirst()))
  {
    if options.compiler == [] then Some(NoCompilerVersion)
    else if options.schema.dialect != options.dialect.id then Some(WrongDialect)
    else if HasDuplicate(Sort(options.sources, FilesFirst())) then Some(DuplicateSource)
    else None
  }

  function Analyses(tools: Tools, options: Options, inputs: seq<Input>): (lists: seq<seq<Entry>>)
    ensures |lists| == |inputs|
    ensures forall i :: 0 <= i < |inputs| ==> lists[i] == Analyze(tools, options, inputs[i])
  {
    seq(|inputs|, i requires 0 <= i < |inputs| => Analyze(tools, options, inputs[i]))
  }

  function Scratch(tools: Tools, options: Options): Result {
    if Refusal(options).Some? then Refusal(options).value
    else
      var inputs := Sort(options.sources, FilesFirst());
      Built(ManifestOf(tools, options, inputs, Analyses(tools, options, inputs)))
  }

  // ---------------------------------------------------------------------------
  // What is refused
  // ---------------------------------------------------------------------------

  /** Two inputs of the same file, wherever they stand. */
  ghost predicate HasTwins(inputs: seq<Input>) {
    exists i, j :: 0 <= i < j < |inputs| && inputs[i].file == inputs[j].file
  }

  ghost predicate HasFile(inputs: seq<Input>, file: Text) {
    exists i :: 0 <= i < |inputs| && inputs[i].file == file
  }

  lemma TwinsOfSnoc(items: seq<Input>, x: Input)
    ensures HasTwins(items + [x]) <==> HasTwins(items) || HasFile(items, x.file)
    ensures forall file :: HasFile(items + [x], file) <==> HasFile(items, file) || x.file == file
  {
    var more := items + [x];
    assert more[|items|] == x;
    if HasTwins(items) {
      var i, j :| 0 <= i < j < |items| && items[i].file == items[j].file;
      assert more[i].file == more[j].file;
    }
    if HasFile(items, x.file) {
      var i :| 0 <= i < |items| && items[i].file == x.file;
      assert more[i].file == more[|items|].file;
    }
    forall file | HasFile(items, file) ensures HasFile(more, file) {
      var i :| 0 <= i < |items| && items[i].file == file;
      assert more[i].file == file;
    }
  }

  lemma {:induction false} InsertKeepsTwins(items: seq<Input>, x: Input)
    ensures HasTwins(Insert(items, x, FilesFirst())) <==> HasTwins(items) || HasFile(items, x.file)
    ensures forall file :: HasFile(Insert(items, x, FilesFirst()), file) <==> HasFile(items, file) || x.file == file
  {
    if items == [] || !Less(x.file, items[|items| - 1].file) {
      TwinsOfSnoc(items, x);
    } else {
      var front, last := items[..|items| - 1], items[|items| - 1];
      assert items == front + [last];
      InsertKeepsTwins(front, x);
      TwinsOfSnoc(front, last);
      TwinsOfSnoc(Insert(front, x, FilesFirst()), last);
    }
  }

  lemma {:induction false} SortKeepsTwins(items: seq<Input>)
    ensures HasTwins(Sort(items, FilesFirst())) <==> HasTwins(items)
    ensures forall file :: HasFile(Sort(items, FilesFirst()), file) <==> HasFile(items, file)
  {
    if items != [] {
      var front, last := items[..|items| - 1], items[|items| - 1];
      assert items == front + [last];
      SortKeepsTwins(front);
      TwinsOfSnoc(front, last);
      InsertKeepsTwins(Sort(front, FilesFirst()), last);
    }
  }

  /** Sorted, two inputs of the same file stand side by side. */
  lemma TwinsStandTogether(inputs: seq<Input>)
    requires Ascending(inputs)
    ensures HasDuplicate(inputs) <==> HasTwins(inputs)
  {
    if i, j :| 0 <= i < j < |inputs| && inputs[i].file == inputs[j].file {
      LessIsTotal(inputs[i].file, inputs[i + 1].file);
      assert !Less(inputs[i + 1].file, inputs[i].file);
      assert i + 1 < j ==> !Less(inputs[j].file, inputs[i + 1].file);
      assert inputs[i + 1].file == inputs[i].file;
    }
    if HasDuplicate(inputs) {
      var i :| 0 < i < |inputs| && inputs[i].file == inputs[i - 1].file;
      assert HasTwins(inputs);
    }
  }

  /** What is refused, and why: the first of these that applies; anything else is built. */
  lemma WhatIsRefused(tools: Tools, options: Options)
    ensures match Scratch(tools, options)
      case NoCompilerVersion => options.compiler == []
      case WrongDialect => options.compiler != [] && options.schema.dialect != options.dialect.id
      case DuplicateSource =>
        options.compiler != [] && options.schema.dialect == options.dialect.id && HasTwins(options.sources)
      case Built(_) =>
        options.compiler != [] && options.schema.dialect == options.dialect.id && !HasTwins(options.sources)
  {
    SortKeepsTwins(options.sources);
    SortAscends(options.sources);
    TwinsStandTogether(Sort(options.sources, FilesFirst()));
  }

  // ---------------------------------------------------------------------------
  // Building from a previous manifest
  // ---------------------------------------------------------------------------

  function IdentityOf(manifest: Manifest): Compatibility.Identity
    requires manifest.schemaFormat.Some? && manifest.capabilityFingerprint.Some?
  {
    Compatibility.Identity(
      KIND, manifest.formatVersion, Some(manifest.algorithm), CORE, Some(manifest.compiler),
      manifest.dialect.id, manifest.dialect.grammarVersion, None, manifest.capabilityFingerprint.value,
      None, manifest.schemaFormat.value, manifest.schemaHash, manifest.policyHash, None, None)
  }

  /**
   * May anything of the previous manifest be used again? Nothing that makes an artifact incompatible may have changed.
   */
  ghost predicate MayReuse(tools: Tools, options: Options, previous: Option<Manifest>) {
    && previous.Some? && previous.value.schemaFormat.Some? && previous.value.capabilityFingerprint.Some?
    && forall reason: Compatibility.Reason ::
         !Compatibility.Changed(IdentityOf(ManifestOf(tools, options, [], [])), IdentityOf(previous.value), reason)
  }

  function HashIn(sources: seq<FileHash>, file: Text): Option<Text> {
    if sources == [] then None
    else if sources[|sources| - 1].file == file then Some(sources[|sources| - 1].hash)
    else HashIn(sources[..|sources| - 1], file)
  }

  function EntriesIn(entries: seq<Entry>, file: Text): seq<Entry> {
    if entries == [] then []
    else
      EntriesIn(entries[..|entries| - 1], file)
      + if entries[|entries| - 1].file == file then [entries[|entries| - 1]] else []
  }

  ghost predicate IsReused(tools: Tools, options: Options, previous: Option<Manifest>, input: Input) {
    MayReuse(tools, options, previous) && HashIn(previous.value.sources, input.file) == Some(tools.hash(input.source))
  }

  ghost function EntriesFor(tools: Tools, options: Options, previous: Option<Manifest>, input: Input): seq<Entry> {
    if IsReused(tools, options, previous, input) then EntriesIn(previous.value.queries, input.file)
    else Analyze(tools, options, input)
  }

  ghost function Lists(tools: Tools, options: Options, previous: Option<Manifest>,
                       inputs: seq<Input>): (lists: seq<seq<Entry>>)
    ensures |lists| == |inputs|
    ensures forall i :: 0 <= i < |inputs| ==> lists[i] == EntriesFor(tools, options, previous, inputs[i])
  {
    seq(|inputs|, i requires 0 <= i < |inputs| => EntriesFor(tools, options, previous, inputs[i]))
  }

  ghost function Rebuilt(tools: Tools, options: Options, previous: Option<Manifest>): Result {
    if Refusal(options).Some? then Refusal(options).value
    else
      var inputs := Sort(options.sources, FilesFirst());
      Built(ManifestOf(tools, options, inputs, Lists(tools, options, previous, inputs)))
  }

  ghost function CountReused(tools: Tools, options: Options, previous: Option<Manifest>, inputs: seq<Input>): nat {
    if inputs == [] then 0
    else
      CountReused(tools, options, previous, inputs[..|inputs| - 1])
      + if IsReused(tools, options, previous, inputs[|inputs| - 1]) then 1 else 0
  }

  method CompatiblePrevious(tools: Tools, options: Options, previous: Option<Manifest>) returns (compatible: bool)
    ensures compatible <==> MayReuse(tools, options, previous)
  {
    if previous.None? || previous.value.schemaFormat.None? || previous.value.capabilityFingerprint.None? {
      return false;
    }
    var outcome, _ := Compatibility.Assess(IdentityOf(ManifestOf(tools, options, [], [])), IdentityOf(previous.value));
    return outcome.Compatible?;
  }

  method HashesByFile(sources: seq<FileHash>) returns (hashes: map<Text, Text>)
    ensures forall file :: HashIn(sources, file) == if file in hashes then Some(hashes[file]) else None
  {
    hashes := map[];
    for i := 0 to |sources|
      invariant forall file :: HashIn(sources[..i], file) == if file in hashes then Some(hashes[file]) else None
    {
      hashes := hashes[sources[i].file := sources[i].hash];
      assert sources[..i + 1][..i] == sources[..i];
    }
    assert sources[..|sources|] == sources;
  }

  method GroupByFile(entries: seq<Entry>) returns (groups: map<Text, seq<Entry>>)
    ensures forall file :: EntriesIn(entries, file) == if file in groups then groups[file] else []
  {
    groups := map[];
    for i := 0 to |entries|
      invariant forall file :: EntriesIn(entries[..i], file) == if file in groups then groups[file] else []
    {
      var entry := entries[i];
      groups := groups[entry.file := if entry.file in groups then groups[entry.file] + [entry] else [entry]];
      assert entries[..i + 1][..i] == entries[..i];
    }
    assert entries[..|entries|] == entries;
  }

  lemma CountOneMore(tools: Tools, options: Options, previous: Option<Manifest>, inputs: seq<Input>, i: nat)
    requires i < |inputs|
    ensures CountReused(tools, options, previous, inputs[..i + 1])
      == CountReused(tools, options, previous, inputs[..i])
         + if IsReused(tools, options, previous, inputs[i]) then 1 else 0
  {
    assert inputs[..i + 1][..i] == inputs[..i];
  }

  /** The entries of one input: those of the previous manifest, or newly analyzed. */
  method TakeInput(tools: Tools, options: Options, input: Input, mayReuse: bool, hashes: map<Text, Text>,
                   groups: map<Text, seq<Entry>>, ghost previous: Option<Manifest>)
    returns (list: seq<Entry>, isReused: bool)
    requires mayReuse <==> MayReuse(tools, options, previous)
    requires previous.Some? ==>
      var file, m := input.file, previous.value;
      && HashIn(m.sources, file) == (if file in hashes then Some(hashes[file]) else None)
      && EntriesIn(m.queries, file) == if file in groups then groups[file] else []
    ensures list == EntriesFor(tools, options, previous, input)
    ensures isReused <==> IsReused(tools, options, previous, input)
  {
    isReused := mayReuse && input.file in hashes && hashes[input.file] == tools.hash(input.source);
    if isReused {
      list := if input.file in groups then groups[input.file] else [];
    } else {
      list := Analyze(tools, options, input);
    }
  }

  method CollectEntries(tools: Tools, options: Options, previous: Option<Manifest>, inputs: seq<Input>)
    returns (lists: seq<seq<Entry>>, analyzed: nat, reused: nat)
    ensures lists == Lists(tools, options, previous, inputs)
    ensures reused == CountReused(tools, options, previous, inputs) && analyzed + reused == |inputs|
  {
    var mayReuse := CompatiblePrevious(tools, options, previous);
    var hashes := HashesByFile(if previous.Some? then previous.value.sources else []);
    var groups := GroupByFile(if previous.Some? then previous.value.queries else []);
    lists, analyzed, reused := [], 0, 0;
    for i := 0 to |inputs|
      invariant |lists| == i && forall k :: 0 <= k < i ==> lists[k] == EntriesFor(tools, options, previous, inputs[k])
      invariant reused == CountReused(tools, options, previous, inputs[..i]) && analyzed + reused == i
    {
      CountOneMore(tools, options, previous, inputs, i);
      var list, isReused := TakeInput(tools, options, inputs[i], mayReuse, hashes, groups, previous);
      lists := lists + [list];
      if isReused {
        reused := reused + 1;
      } else {
        analyzed := analyzed + 1;
      }
    }
    assert inputs[..|inputs|] == inputs;
  }

  method Build(tools: Tools, options: Options, previous: Option<Manifest>)
    returns (r: Result, analyzed: nat, reused: nat)
    ensures r == Rebuilt(tools, options, previous)
    ensures r.Built? ==>
      && reused == CountReused(tools, options, previous, Sort(options.sources, FilesFirst()))
      && analyzed + reused == |options.sources|
  {
    if options.compiler == [] {
      return NoCompilerVersion, 0, 0;
    }
    if options.schema.dialect != options.dialect.id {
      return WrongDialect, 0, 0;
    }
    var inputs := Sort(options.sources, FilesFirst());
    if HasDuplicate(inputs) {
      return DuplicateSource, 0, 0;
    }
    var lists;
    lists, analyzed, reused := CollectEntries(tools, options, previous, inputs);
    assert |inputs| == |multiset(inputs)| == |options.sources|;
    r := Built(ManifestOf(tools, options, inputs, lists));
  }

  // ---------------------------------------------------------------------------
  // Entries kept by file
  // ---------------------------------------------------------------------------

  ghost predicate StrictlyAscending(inputs: seq<Input>) {
    forall i, j :: 0 <= i < j < |inputs| ==> Less(inputs[i].file, inputs[j].file)
  }

  lemma NoDuplicateIsStrict(inputs: seq<Input>)
    requires Ascending(inputs) && !HasDuplicate(inputs)
    ensures StrictlyAscending(inputs)
  {
    forall i, j | 0 <= i < j < |inputs| ensures Less(inputs[i].file, inputs[j].file) {
      var next := i + 1;
      assert inputs[next].file != inputs[next - 1].file;
      LessIsTotal(inputs[i].file, inputs[next].file);
      LessIsTotal(inputs[i].file, inputs[j].file);
    }
  }

  /** The entries of one file, in the order of their starts. */
  ghost predicate IsListOf(list: seq<Entry>, file: Text) {
    && (forall k :: 0 <= k < |list| ==> list[k].file == file)
    && InOrder(list, FilesThenStarts())
  }

  ghost predicate Filed(lists: seq<seq<Entry>>, inputs: seq<Input>) {
    && |lists| == |inputs| && StrictlyAscending(inputs)
    && forall i :: 0 <= i < |lists| ==> IsListOf(lists[i], inputs[i].file)
  }

  lemma {:induction false} EntriesOfList(list: seq<Entry>, listFile: Text, file: Text)
    requires forall k :: 0 <= k < |list| ==> list[k].file == listFile
    ensures EntriesIn(list, file) == if file == listFile then list else []
  {
    if list != [] {
      EntriesOfList(list[..|list| - 1], listFile, file);
      assert list == list[..|list| - 1] + [list[|list| - 1]];
    }
  }

  lemma {:induction false} EntriesAppend(a: seq<Entry>, b: seq<Entry>, file: Text)
    ensures EntriesIn(a + b, file) == EntriesIn(a, file) + EntriesIn(b, file)
  {
    if b == [] {
      assert a + b == a;
    } else {
      assert (a + b)[..|a + b| - 1] == a + b[..|b| - 1];
      EntriesAppend(a, b[..|b| - 1], file);
    }
  }

  lemma FiledFront(lists: seq<seq<Entry>>, inputs: seq<Input>)
    requires Filed(lists, inputs) && lists != []
    ensures Filed(lists[..|lists| - 1], inputs[..|inputs| - 1])
  {
  }

  lemma LastEntries(lists: seq<seq<Entry>>, inputs: seq<Input>, file: Text)
    requires Filed(lists, inputs) && lists != []
    ensures var last := |lists| - 1;
      && EntriesIn(Flatten(lists), file)
         == EntriesIn(Flatten(lists[..last]), file) + (if inputs[last].file == file then lists[last] else [])
      && forall i :: 0 <= i < last ==> inputs[i].file != inputs[last].file
  {
    var last := |lists| - 1;
    EntriesAppend(Flatten(lists[..last]), lists[last], file);
    EntriesOfList(lists[last], inputs[last].file, file);
    forall i | 0 <= i < last ensures inputs[i].file != inputs[last].file {
      LessIsTotal(inputs[i].file, inputs[last].file);
    }
  }

  /** What was filed under a file comes back under it, and nothing under any other. */
  lemma {:induction false} EntriesOfFlat(lists: seq<seq<Entry>>, inputs: seq<Input>, file: Text)
    requires Filed(lists, inputs)
    ensures forall i :: 0 <= i < |inputs| && inputs[i].file == file ==> EntriesIn(Flatten(lists), file) == lists[i]
    ensures (forall i :: 0 <= i < |inputs| ==> inputs[i].file != file) ==> EntriesIn(Flatten(lists), file) == []
  {
    if lists != [] {
      var last := |lists| - 1;
      var listsBefore, inputsBefore := lists[..last], inputs[..last];
      FiledFront(lists, inputs);
      EntriesOfFlat(listsBefore, inputsBefore, file);
      LastEntries(lists, inputs, file);
      forall i | 0 <= i < last ensures inputsBefore[i] == inputs[i] && listsBefore[i] == lists[i] {
      }
    }
  }

  lemma {:induction false} FlatFiles(lists: seq<seq<Entry>>, inputs: seq<Input>, file: Text)
    requires Filed(lists, inputs) && forall i :: 0 <= i < |inputs| ==> Less(inputs[i].file, file)
    ensures forall k :: 0 <= k < |Flatten(lists)| ==> Less(Flatten(lists)[k].file, file)
  {
    if lists != [] {
      FiledFront(lists, inputs);
      FlatFiles(lists[..|lists| - 1], inputs[..|inputs| - 1], file);
    }
  }

  lemma InOrderAppend(a: seq<Entry>, b: seq<Entry>)
    requires InOrder(a, FilesThenStarts()) && InOrder(b, FilesThenStarts())
    requires a != [] && b != [] ==> Less(a[|a| - 1].file, b[0].file)
    ensures InOrder(a + b, FilesThenStarts())
  {
    forall i | 0 < i < |a + b| ensures NotBefore(a + b, i, FilesThenStarts()) {
      if i < |a| {
        assert NotBefore(a, i, FilesThenStarts());
      } else if i > |a| {
        assert NotBefore(b, i - |a|, FilesThenStarts());
      } else {
        LessIsTotal(a[|a| - 1].file, b[0].file);
      }
    }
  }

  /** Lists filed in order need no more sorting. */
  lemma {:induction false} FlatInOrder(lists: seq<seq<Entry>>, inputs: seq<Input>)
    requires Filed(lists, inputs)
    ensures InOrder(Flatten(lists), FilesThenStarts())
  {
    if lists != [] {
      var last := |lists| - 1;
      FiledFront(lists, inputs);
      FlatInOrder(lists[..last], inputs[..last]);
      FlatFiles(lists[..last], inputs[..last], inputs[last].file);
      InOrderAppend(Flatten(lists[..last]), lists[last]);
    }
  }

  // ---------------------------------------------------------------------------
  // Main results
  // ---------------------------------------------------------------------------

  ghost predicate Injective<A(!new), B>(f: A -> B) {
    forall x, y :: f(x) == f(y) ==> x == y
  }

  /** Distinct things have distinct hashes, and the compiler lists what it finds in a file in order, under that file. */
  ghost predicate Trusted(tools: Tools) {
    && Injective(tools.hash) && Injective(tools.schemaHash) && Injective(tools.policyHash)
    && forall context, file, source :: IsListOf(tools.analyze(context, file, source), file)
  }

  lemma InputsAreStrict(options: Options)
    requires Refusal(options).None?
    ensures StrictlyAscending(Sort(options.sources, FilesFirst()))
  {
    SortAscends(options.sources);
    NoDuplicateIsStrict(Sort(options.sources, FilesFirst()));
  }

  /** What a manifest built from scratch has: for every source, its hash and what was found in it. */
  lemma ScratchHolds(tools: Tools, options: Options, manifest: Manifest, file: Text)
    requires Trusted(tools) && Scratch(tools, options) == Built(manifest) && HashIn(manifest.sources, file).Some?
    ensures exists source ::
      && HashIn(manifest.sources, file) == Some(tools.hash(source))
      && EntriesIn(manifest.queries, file) == tools.analyze(ContextOf(options), file, source)
  {
    var inputs := Sort(options.sources, FilesFirst());
    InputsAreStrict(options);
    var lists := Analyses(tools, options, inputs);
    assert Filed(lists, inputs);
    FlatInOrder(lists, inputs);
    SortOfSorted(Flatten(lists), FilesThenStarts());
    EntriesOfFlat(lists, inputs, file);
    var i := HashIndex(manifest.sources, file);
    assert inputs[i].file == file && lists[i] == tools.analyze(ContextOf(options), file, inputs[i].source);
  }

  lemma {:induction false} HashIndex(sources: seq<FileHash>, file: Text) returns (i: nat)
    requires HashIn(sources, file).Some?
    ensures i < |sources| && sources[i].file == file && HashIn(sources, file) == Some(sources[i].hash)
  {
    i := |sources| - 1;
    if sources[i].file != file {
      i := HashIndex(sources[..i], file);
    }
  }

  lemma UnchangedFields(a: Compatibility.Identity, b: Compatibility.Identity)
    requires forall reason: Compatibility.Reason :: !Compatibility.Changed(a, b, reason)
    ensures a.grammar == b.grammar && a.grammarVersion == b.grammarVersion && a.schemaHash == b.schemaHash
    ensures a.typePolicyHash == b.typePolicyHash && (a.compiler.Some? ==> a.compiler == b.compiler)
  {
    assert !Compatibility.Changed(a, b, Compatibility.CompilerCompatibility);
    assert !Compatibility.Changed(a, b, Compatibility.Grammar);
    assert !Compatibility.Changed(a, b, Compatibility.GrammarVersion);
    assert !Compatibility.Changed(a, b, Compatibility.SchemaContent);
    assert !Compatibility.Changed(a, b, Compatibility.TypePolicy);
  }

  /** A compatible manifest came from the same compiler, dialect, schema and policy. */
  lemma CompatibleContexts(tools: Tools, options: Options, before: Options, previous: Manifest)
    requires Trusted(tools) && Scratch(tools, before) == Built(previous) && MayReuse(tools, options, Some(previous))
    ensures ContextOf(before) == ContextOf(options).(variantLimit := before.variantLimit)
  {
    UnchangedFields(IdentityOf(ManifestOf(tools, options, [], [])), IdentityOf(previous));
  }

  /** A reused file brings back what was found in the same text under the previous variant limit. */
  lemma ReusedIsAnalyzed(tools: Tools, options: Options, before: Options, previous: Manifest, input: Input)
    requires Trusted(tools) && Scratch(tools, before) == Built(previous)
    requires IsReused(tools, options, Some(previous), input)
    ensures EntriesFor(tools, options, Some(previous), input)
            == Analyze(tools, options.(variantLimit := before.variantLimit), input)
  {
    CompatibleContexts(tools, options, before, previous);
    ScratchHolds(tools, before, previous, input.file);
  }

  lemma SameListsIfSameFlat(a: seq<seq<Entry>>, b: seq<seq<Entry>>, inputs: seq<Input>)
    requires Filed(a, inputs) && Filed(b, inputs)
    ensures Sort(Flatten(a), FilesThenStarts()) == Sort(Flatten(b), FilesThenStarts()) ==> a == b
  {
    FlatInOrder(a, inputs);
    FlatInOrder(b, inputs);
    SortOfSorted(Flatten(a), FilesThenStarts());
    SortOfSorted(Flatten(b), FilesThenStarts());
    if Flatten(a) == Flatten(b) {
      forall i | 0 <= i < |inputs| ensures a[i] == b[i] {
        EntriesOfFlat(a, inputs, inputs[i].file);
        EntriesOfFlat(b, inputs, inputs[i].file);
      }
    }
  }

  /** Nothing found in a reused file depends on the change of the variant limit. */
  ghost predicate LimitDoesNotShow(tools: Tools, options: Options, before: Options, previous: Manifest) {
    forall input :: input in options.sources && IsReused(tools, options, Some(previous), input) ==>
      Analyze(tools, options.(variantLimit := before.variantLimit), input) == Analyze(tools, options, input)
  }

  lemma ReusedListsAreFiled(tools: Tools, options: Options, before: Options, previous: Manifest, inputs: seq<Input>)
    requires Trusted(tools) && Scratch(tools, before) == Built(previous) && StrictlyAscending(inputs)
    ensures Filed(Lists(tools, options, Some(previous), inputs), inputs)
  {
    forall i | 0 <= i < |inputs| ensures IsListOf(Lists(tools, options, Some(previous), inputs)[i], inputs[i].file) {
      if IsReused(tools, options, Some(previous), inputs[i]) {
        ReusedIsAnalyzed(tools, options, before, previous, inputs[i]);
      }
    }
  }

  lemma SameListsIffLimitDoesNotShow(tools: Tools, options: Options, before: Options, previous: Manifest,
                                     inputs: seq<Input>)
    requires Trusted(tools) && Scratch(tools, before) == Built(previous)
    requires forall input :: input in options.sources <==> input in inputs
    ensures Lists(tools, options, Some(previous), inputs) == Analyses(tools, options, inputs)
            <==> LimitDoesNotShow(tools, options, before, previous)
  {
    var reused, analyzed := Lists(tools, options, Some(previous), inputs), Analyses(tools, options, inputs);
    forall i | 0 <= i < |inputs|
      ensures reused[i] == if IsReused(tools, options, Some(previous), inputs[i])
                           then Analyze(tools, options.(variantLimit := before.variantLimit), inputs[i])
                             else analyzed[i]
    {
      if IsReused(tools, options, Some(previous), inputs[i]) {
        ReusedIsAnalyzed(tools, options, before, previous, inputs[i]);
      }
    }
    if reused == analyzed {
      forall input | input in options.sources && IsReused(tools, options, Some(previous), input)
        ensures Analyze(tools, options.(variantLimit := before.variantLimit), input) == Analyze(tools, options, input)
      {
        var i :| 0 <= i < |inputs| && inputs[i] == input;
        assert reused[i] == analyzed[i];
      }
    }
  }

  lemma SortKeepsInputs(sources: seq<Input>)
    ensures forall input :: input in sources <==> input in Sort(sources, FilesFirst())
  {
    var inputs := Sort(sources, FilesFirst());
    forall input ensures input in sources <==> input in inputs {
      assert input in sources <==> input in multiset(sources);
      assert input in inputs <==> input in multiset(inputs);
    }
  }

  /**
   * Building with a previous manifest of the same builder, whatever files were changed, added or removed, gives what
   * building from scratch gives, exactly when no reused file shows the change of the variant limit; so it always does
   * when the limit is the same.
   */
  lemma RebuildingIsBuilding(tools: Tools, options: Options, before: Options, previous: Manifest)
    requires Trusted(tools) && Scratch(tools, before) == Built(previous)
    ensures Rebuilt(tools, options, Some(previous)) == Scratch(tools, options)
            <==> Refusal(options).Some? || LimitDoesNotShow(tools, options, before, previous)
    ensures before.variantLimit == options.variantLimit ==>
      Rebuilt(tools, options, Some(previous)) == Scratch(tools, options)
  {
    if Refusal(options).None? {
      var inputs := Sort(options.sources, FilesFirst());
      InputsAreStrict(options);
      SortKeepsInputs(options.sources);
      ReusedListsAreFiled(tools, options, before, previous, inputs);
      SameListsIffLimitDoesNotShow(tools, options, before, previous, inputs);
      SameListsIfSameFlat(Lists(tools, options, Some(previous), inputs), Analyses(tools, options, inputs), inputs);
    }
  }

  /** Without a previous manifest, or with one that may not be used, everything is analyzed. */
  lemma NothingToReuse(tools: Tools, options: Options, previous: Option<Manifest>)
    requires !MayReuse(tools, options, previous)
    ensures Rebuilt(tools, options, previous) == Scratch(tools, options)
  {
    var inputs := Sort(options.sources, FilesFirst());
    assert Lists(tools, options, previous, inputs) == Analyses(tools, options, inputs);
  }

  lemma {:induction false} HashOfScratch(tools: Tools, inputs: seq<Input>, sources: seq<FileHash>, i: nat)
    requires StrictlyAscending(inputs) && |sources| == |inputs| && i < |inputs|
    requires forall k :: 0 <= k < |inputs| ==> sources[k] == FileHash(inputs[k].file, tools.hash(inputs[k].source))
    ensures HashIn(sources, inputs[i].file) == Some(tools.hash(inputs[i].source))
  {
    var last := |sources| - 1;
    if i < last {
      LessIsTotal(inputs[i].file, inputs[last].file);
      HashOfScratch(tools, inputs[..last], sources[..last], i);
    }
  }

  /** Building again with nothing changed analyzes nothing: every file is reused. */
  lemma UnchangedFilesAreReused(tools: Tools, options: Options, manifest: Manifest, input: Input)
    requires Scratch(tools, options) == Built(manifest) && input in options.sources
    ensures IsReused(tools, options, Some(manifest), input)
  {
    var inputs := Sort(options.sources, FilesFirst());
    InputsAreStrict(options);
    SortKeepsInputs(options.sources);
    var i :| 0 <= i < |inputs| && inputs[i] == input;
    HashOfScratch(tools, inputs, manifest.sources, i);
    forall reason: Compatibility.Reason
      ensures !Compatibility.Changed(IdentityOf(ManifestOf(tools, options, [], [])), IdentityOf(manifest), reason)
    {
      assert IdentityOf(ManifestOf(tools, options, [], [])) == IdentityOf(manifest);
    }
  }
}
