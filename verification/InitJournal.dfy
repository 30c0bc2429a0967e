/** Journaled setup and its recovery (packages/cli/src/init-apply.ts, init-files.ts). */
module InitJournal {
  import opened Text

  type Path = Text

  const SEPARATOR: Unit := 0x2F

  datatype FileState = FileState(text: Text, mode: nat)

  type Files = map<Path, FileState>

  function Look(files: Files, path: Path): Option<FileState> {
    if path in files then Some(files[path]) else None
  }

  function Put(files: Files, path: Path, state: Option<FileState>): Files {
    match state
    case None => files - {path}
    case Some(file) => files[path := file]
  }

  /** One file of the journal: the state it was found in and the state it is to reach. */
  datatype Entry = Entry(path: Path, before: Option<FileState>, after: FileState)

  datatype Status = Applying | Completed | RolledBack

  datatype Journal = Journal(status: Status, entries: seq<Entry>)

  /** One file of a setup plan: the text it was planned against, or none, and the text it is to have. */
  datatype PlanFile = PlanFile(path: Path, expected: Option<Text>, content: Text)

  /** What the world does before an atomic step: outside edits, losing the lock, failing the step, or a crash. */
  datatype Event = Event(edits: map<Path, Option<FileState>>, losesLock: bool, fails: bool, crashes: bool)

  datatype Step = Ready | Fails | Crashes

  /** How an operation ends: it returns, it throws, or the process dies. */
  datatype Outcome = Returned | Threw | Died

  /**
   * A change the tool made to a project file: what the file was last read as, what it was, what it became, and how many
   * steps had been taken when this one began.
   */
  datatype Write = Write(path: Path, seen: Option<FileState>, replaced: Option<FileState>, left: Option<FileState>,
                         at: nat)

  /** A journal the tool wrote, and how many steps had been taken when this one began. */
  datatype Page = Page(journal: Journal, at: nat)

  function TextOf(state: Option<FileState>): Option<Text> {
    match state
    case None => None
    case Some(file) => Some(file.text)
  }

  ghost predicate Quiet(script: seq<Event>) {
    forall i :: 0 <= i < |script| ==> script[i].edits == map[]
  }

  function Edited(files: Files, edits: map<Path, Option<FileState>>): Files {
    files - edits.Keys + map path | path in edits && edits[path].Some? :: edits[path].value
  }

  /** The files once the world has moved before the next step. */
  function Moved(files: Files, script: seq<Event>): Files {
    if script == [] then files else Edited(files, script[0].edits)
  }

  /** Whether the next step may take effect. */
  function NextStep(script: seq<Event>): Step {
    if script == [] then Ready
    else if script[0].crashes then Crashes
    else if script[0].fails then Fails
    else Ready
  }

  /** What the world does during the next step: nothing, once the script is empty. */
  function Coming(script: seq<Event>): Event {
    if script == [] then Event(map[], false, false, false) else script[0]
  }

  function Rest(script: seq<Event>): seq<Event> {
    if script == [] then [] else script[1..]
  }

  lemma QuietStep(files: Files, script: seq<Event>)
    requires Quiet(script)
    ensures Moved(files, script) == files && Quiet(Rest(script))
  {
  }

  /** The lock has not been lost during steps `from` to `to`. */
  ghost predicate Held(past: seq<Event>, from: int, to: int) {
    forall i :: 0 <= i < |past| && from <= i < to ==> !past[i].losesLock
  }

  /** More steps have been taken, and the tool knows whether the lock has been lost in them. */
  ghost predicate KnowsLoss(before: seq<Event>, past: seq<Event>, was: bool, now: bool) {
    before <= past && (now <==> was || !Held(past, |before|, |past|))
  }

  lemma LossOfOneStep(before: seq<Event>, event: Event, was: bool)
    ensures KnowsLoss(before, before + [event], was, was || event.losesLock)
  {
    var past := before + [event];
    assert past[|before|] == event;
  }

  lemma LossAdds(a: seq<Event>, b: seq<Event>, c: seq<Event>, x: bool, y: bool, z: bool)
    requires KnowsLoss(a, b, x, y) && KnowsLoss(b, c, y, z)
    ensures KnowsLoss(a, c, x, z)
  {
    HeldStays(b, c, |a|, |b|);
  }

  lemma HeldStays(past: seq<Event>, longer: seq<Event>, from: nat, to: nat)
    requires past <= longer && to <= |past|
    ensures Held(longer, from, to) <==> Held(past, from, to)
  {
    if Held(longer, from, to) {
      forall i | 0 <= i < |past| && from <= i < to ensures !past[i].losesLock {
        assert longer[i] == past[i];
      }
    }
  }

  /** More steps have been taken, none of them after the process has died. */
  ghost predicate DiesLast(before: seq<Event>, past: seq<Event>, died: bool) {
    && before <= past
    && (died <==> |before| < |past| && past[|past| - 1].crashes)
    && forall i :: |before| <= i < |past| - 1 ==> !past[i].crashes
  }

  lemma DeathAdds(a: seq<Event>, b: seq<Event>, c: seq<Event>, died: bool)
    requires DiesLast(a, b, false) && DiesLast(b, c, died)
    ensures DiesLast(a, c, died)
  {
    forall i | |a| <= i < |c| - 1 ensures !c[i].crashes {
      if i < |b| {
        assert c[i] == b[i];
      }
    }
    if a != b && b == c {
      assert c[|c| - 1] == b[|b| - 1];
    }
  }

  /** Each file written since the `k`-th was written with the lock not lost in any earlier step since step `from`. */
  ghost predicate WritesHeld(log: seq<Write>, k: nat, past: seq<Event>, from: nat) {
    forall j :: k <= j < |log| ==> from <= log[j].at < |past| && Held(past, from, log[j].at)
  }

  /** The same, except that the lock may have been lost in the very step before, in which the file was read. */
  ghost predicate VisitsHeld(log: seq<Write>, k: nat, past: seq<Event>, from: nat) {
    forall j :: k <= j < |log| ==> from <= log[j].at < |past| && Held(past, from, log[j].at - 1)
  }

  lemma WritesStay(log: seq<Write>, more: seq<Write>, k: nat, past: seq<Event>, longer: seq<Event>, from: nat)
    requires WritesHeld(log, k, past, from) && past <= longer && log <= more && WritesHeld(more, |log|, longer, from)
    ensures WritesHeld(more, k, longer, from)
  {
    forall j | k <= j < |more| ensures from <= more[j].at < |longer| && Held(longer, from, more[j].at) {
      if j < |log| {
        assert more[j] == log[j];
        HeldStays(past, longer, from, log[j].at);
      }
    }
  }

  /** A step taken with the lock still held, which writes a file or not. */
  lemma OneMoreWrite(start: seq<Event>, past: seq<Event>, longer: seq<Event>, event: Event, log: seq<Write>,
                     more: seq<Write>, k: nat, was: bool)
    requires longer == past + [event] && KnowsLoss(start, past, was, false) && WritesHeld(log, k, past, |start|)
    requires more == log || (|more| == |log| + 1 && log <= more && more[|log|].at == |past|)
    ensures KnowsLoss(start, longer, was, event.losesLock) && WritesHeld(more, k, longer, |start|)
    ensures !was && Held(longer, |start|, |past|)
  {
    LossOfOneStep(past, event, false);
    LossAdds(start, past, longer, was, false, event.losesLock);
    HeldStays(past, longer, |start|, |past|);
    WritesStay(log, more, k, past, longer, |start|);
  }

  lemma VisitsStay(log: seq<Write>, more: seq<Write>, k: nat, past: seq<Event>, longer: seq<Event>, from: nat)
    requires VisitsHeld(log, k, past, from) && past <= longer && log <= more && VisitsHeld(more, |log|, longer, from)
    ensures VisitsHeld(more, k, longer, from)
  {
    forall j | k <= j < |more| ensures from <= more[j].at < |longer| && Held(longer, from, more[j].at - 1) {
      if j < |log| {
        assert more[j] == log[j];
        HeldStays(past, longer, from, Max(0, log[j].at - 1));
      }
    }
  }

  /** What holds since a step holds since an earlier one, if the lock was held in between. */
  lemma VisitsSince(log: seq<Write>, k: nat, past: seq<Event>, from: nat, start: nat)
    requires VisitsHeld(log, k, past, from) && start <= from && Held(past, start, from)
    ensures VisitsHeld(log, k, past, start)
  {
  }

  lemma WritesSince(log: seq<Write>, k: nat, past: seq<Event>, from: nat, start: nat)
    requires WritesHeld(log, k, past, from) && start <= from && Held(past, start, from)
    ensures WritesHeld(log, k, past, start) && VisitsHeld(log, k, past, start)
  {
  }

  lemma PagesStay(pages: seq<Page>, more: seq<Page>, k: nat, past: seq<Event>, longer: seq<Event>, from: nat)
    requires PagesHeld(pages, k, past, from) && past <= longer && pages <= more
    requires PagesHeld(more, |pages|, longer, from)
    ensures PagesHeld(more, k, longer, from)
  {
    forall j | k <= j < |more| ensures from <= more[j].at < |longer| && Held(longer, from, more[j].at) {
      if j < |pages| {
        assert more[j] == pages[j];
        HeldStays(past, longer, from, pages[j].at);
      }
    }
  }

  /** Two stretches of work, the lock still held after the first. */
  lemma HeldOver(start: seq<Event>, middle: seq<Event>, past: seq<Event>, was: bool, now: bool, log: seq<Write>,
                 more: seq<Write>, k: nat)
    requires KnowsLoss(start, middle, was, false) && KnowsLoss(middle, past, false, now)
    requires VisitsHeld(log, k, middle, |start|) && log <= more && VisitsHeld(more, |log|, past, |middle|)
    ensures KnowsLoss(start, past, was, now) && VisitsHeld(more, k, past, |start|)
    ensures !was && Held(past, |start|, |middle|)
  {
    LossAdds(start, middle, past, was, false, now);
    HeldStays(middle, past, |start|, |middle|);
    VisitsSince(more, |log|, past, |middle|, |start|);
    VisitsStay(log, more, k, middle, past, |start|);
  }

  /** All that has been written since `start` was written under the lock, but for visits that missed its loss. */
  ghost predicate IsHeldWork(start: seq<Event>, past: seq<Event>, lost: bool, log: seq<Write>, k: nat,
                             before: seq<Page>, pages: seq<Page>)
  {
    && KnowsLoss(start, past, false, lost) && VisitsHeld(log, k, past, |start|)
    && before <= pages && PagesHeld(pages, |before|, past, |start|)
  }

  /** And up to its last step nothing was lost at all. */
  ghost predicate IsHeldThroughout(start: seq<Event>, past: seq<Event>, log: seq<Write>, k: nat) {
    |start| < |past| && Held(past, |start|, |past| - 1) && WritesHeld(log, k, past, |start|)
  }

  lemma PagesSince(pages: seq<Page>, k: nat, past: seq<Event>, from: nat, start: nat)
    requires PagesHeld(pages, k, past, from) && start <= from && Held(past, start, from)
    ensures PagesHeld(pages, k, past, start)
  {
  }

  lemma HeldWorkSince(start: seq<Event>, middle: seq<Event>, past: seq<Event>, lost: bool, log: seq<Write>, k: nat,
                      before: seq<Page>, pages: seq<Page>)
    requires KnowsLoss(start, middle, false, false) && IsHeldWork(middle, past, lost, log, k, before, pages)
    ensures IsHeldWork(start, past, lost, log, k, before, pages)
  {
    LossAdds(start, middle, past, false, false, lost);
    HeldStays(middle, past, |start|, |middle|);
    VisitsSince(log, k, past, |middle|, |start|);
    PagesSince(pages, |before|, past, |middle|, |start|);
  }

  /** The journal is written under the lock; if the lock is lost in that very step nothing else is. */
  lemma HeldSinceJournal(start: seq<Event>, begun: seq<Event>, past: seq<Event>, known: bool, lost: bool,
                         done: seq<Write>, log: seq<Write>, before: seq<Page>, first: seq<Page>, pages: seq<Page>)
    requires |begun| == |start| + 1 && KnowsLoss(start, begun, false, known) && KnowsLoss(begun, past, known, lost)
    requires |first| == |before| + 1 && before <= first <= pages && first[|before|].at == |start|
    requires VisitsHeld(log, |done|, past, |begun|) && PagesHeld(pages, |first|, past, |begun|)
    requires known ==> log == done && pages == first
    ensures IsHeldWork(start, past, lost, log, |done|, before, pages)
  {
    LossAdds(start, begun, past, false, known, lost);
    assert pages[|before|] == first[|before|];
    if !known {
      HeldStays(begun, past, |start|, |begun|);
      VisitsSince(log, |done|, past, |begun|, |start|);
      PagesSince(pages, |first|, past, |begun|, |start|);
    }
    forall j | |before| <= j < |pages| ensures |start| <= pages[j].at < |past| && Held(past, |start|, pages[j].at) {
      if j >= |first| {
        assert PagesHeld(pages, |first|, past, |start|);
      }
    }
  }

  /** A rollback after the step that read the journal. */
  lemma RolledBackSince(start: seq<Event>, read: seq<Event>, past: seq<Event>, known: bool, lost: bool,
                        done: seq<Write>, log: seq<Write>, before: seq<Page>, pages: seq<Page>)
    requires |read| == |start| + 1 && KnowsLoss(start, read, false, known) && KnowsLoss(read, past, known, lost)
    requires VisitsHeld(log, |done|, past, |read|) && (known ==> log == done && pages == before)
    requires pages == before || (|pages| == |before| + 1 && before <= pages && |read| < |past|
                                 && pages[|before|].at == |past| - 1 && Held(past, |read|, |past| - 1))
    ensures IsHeldWork(start, past, lost, log, |done|, before, pages)
    ensures !known && |read| < |past| && Held(past, |read|, |past| - 1) ==> Held(past, |start|, |past| - 1)
  {
    LossAdds(start, read, past, false, known, lost);
    if !known {
      HeldStays(read, past, |start|, |read|);
      VisitsSince(log, |done|, past, |read|, |start|);
    }
  }

  /** A file is written after the lock was lost exactly when it was lost while that visit read the file. */
  lemma OnlyOwnReadsAreMissed(log: seq<Write>, k: nat, past: seq<Event>, from: nat, j: nat)
    requires VisitsHeld(log, k, past, from) && k <= j < |log| && from < log[j].at
    ensures !Held(past, from, log[j].at) <==> past[log[j].at - 1].losesLock
  {
  }

  ghost predicate PagesHeld(pages: seq<Page>, k: nat, past: seq<Event>, from: nat) {
    forall j :: k <= j < |pages| ==> from <= pages[j].at < |past| && Held(past, from, pages[j].at)
  }

  ghost predicate DistinctPaths(entries: seq<Entry>) {
    forall i, j :: 0 <= i < j < |entries| ==> entries[i].path != entries[j].path
  }

  ghost predicate IsBefore(files: Files, entry: Entry) {
    Look(files, entry.path) == entry.before
  }

  ghost predicate IsAfter(files: Files, entry: Entry) {
    Look(files, entry.path) == Some(entry.after)
  }

  ghost predicate AllBefore(files: Files, entries: seq<Entry>) {
    forall i :: 0 <= i < |entries| ==> IsBefore(files, entries[i])
  }

  ghost predicate AllAfter(files: Files, entries: seq<Entry>) {
    forall i :: 0 <= i < |entries| ==> IsAfter(files, entries[i])
  }

  ghost predicate BeforeOrAfter(files: Files, entries: seq<Entry>) {
    forall i :: 0 <= i < |entries| ==> IsBefore(files, entries[i]) || IsAfter(files, entries[i])
  }

  /** Nobody's version: neither what was recorded nor what was to be. */
  ghost predicate IsNeither(files: Files, entry: Entry) {
    !IsBefore(files, entry) && !IsAfter(files, entry)
  }

  ghost predicate ElsewhereSame(files: Files, original: Files, entries: seq<Entry>) {
    forall path :: (forall i :: 0 <= i < |entries| ==> entries[i].path != path) ==>
      Look(files, path) == Look(original, path)
  }

  // ---------------------------------------------------------------------------
  // One visit of a rollback
  // ---------------------------------------------------------------------------

  datatype Visit = Keeps | Conflicts | Restores | Throws

  /** What a rollback does with a file it read as `seen` and found as `current` when it came to write. */
  function VisitOf(entry: Entry, seen: Option<FileState>, current: Option<FileState>): Visit {
    if seen == entry.before then Keeps
    else if seen != Some(entry.after) then Conflicts
    else if TextOf(current) != Some(entry.after.text) then Throws
    else Restores
  }

  /** A visit: how it ended, what it read, what it found when it came to write, and the files it leaves. */
  datatype Visited = Visited(step: Step, visit: Visit, seen: Option<FileState>, found: Option<FileState>, files: Files)

  /** A whole visit under whatever the world does before its read and before its write. */
  function VisitUnder(entry: Entry, files: Files, script: seq<Event>): Visited {
    var atRead := Moved(files, script);
    var seen := Look(atRead, entry.path);
    if !NextStep(script).Ready? then Visited(NextStep(script), Throws, seen, seen, atRead)
    else if !VisitOf(entry, seen, Some(entry.after)).Restores? then
      Visited(Ready, VisitOf(entry, seen, seen), seen, seen, atRead)
    else
      var atWrite := Moved(atRead, Rest(script));
      var found := Look(atWrite, entry.path);
      if !NextStep(Rest(script)).Ready? then Visited(NextStep(Rest(script)), Throws, seen, found, atWrite)
      else if VisitOf(entry, seen, found).Throws? then Visited(Fails, Throws, seen, found, atWrite)
      else Visited(Ready, Restores, seen, found, Put(atWrite, entry.path, entry.before))
  }

  /**
   * Under every script, a visit does what its two looks at the file call for. A file that is not in its after state
   * when the visit writes is overwritten exactly when it was in that state when read and nothing but its mode has
   * changed since: the write compares text only.
   */
  lemma OnlyModeRacesAreLost(entry: Entry, files: Files, script: seq<Event>)
    ensures var v := VisitUnder(entry, files, script);
      && (v.step.Ready? ==> v.visit == VisitOf(entry, v.seen, v.found))
      && (v.visit.Restores? && v.found != Some(entry.after)
          <==> && NextStep(script).Ready? && NextStep(Rest(script)).Ready?
               && v.seen == Some(entry.after) && v.seen != entry.before
               && v.found.Some? && v.found.value.text == entry.after.text && v.found.value.mode != entry.after.mode)
  {
    var v := VisitUnder(entry, files, script);
    if v.found.Some? {
      assert v.found.value == FileState(v.found.value.text, v.found.value.mode);
      assert entry.after == FileState(entry.after.text, entry.after.mode);
    }
  }

  /** A run that loses such an edit: the mode becomes 7 between the read and the write, and is 2 afterwards. */
  lemma ModeRaceIsLost()
    ensures var path: Path, text: Text, old_: Text := [0x70], [0x74], [0x6F];
      var entry := Entry(path, Some(FileState(old_, 2)), FileState(text, 2));
      var files: Files := map[path := FileState(text, 2)];
      var calm := Event(map[], false, false, false);
      var edit := Event(map[path := Some(FileState(text, 7))], false, false, false);
      var v := VisitUnder(entry, files, [calm, edit]);
      && Moved(files, [edit]) == map[path := FileState(text, 7)] && IsNeither(Moved(files, [edit]), entry)
      && v.step.Ready? && v.visit.Restores? && v.files == map[path := FileState(old_, 2)]
  {
    var path: Path, text: Text, old_: Text := [0x70], [0x74], [0x6F];
    var files: Files := map[path := FileState(text, 2)];
    var calm := Event(map[], false, false, false);
    var edit := Event(map[path := Some(FileState(text, 7))], false, false, false);
    assert Moved(files, [calm, edit]) == files && Rest([calm, edit]) == [edit];
    assert Moved(files, [edit]) == map[path := FileState(text, 7)];
    assert old_[0] != text[0];
  }

  // ---------------------------------------------------------------------------
  // The disk, and the steps taken on it
  // ---------------------------------------------------------------------------

  /**
   * A file of a plan has the text the plan expects, and its path is not, or inside or around, that of an earlier one.
   */
  ghost predicate FileFits(files: Files, plan: seq<PlanFile>, i: nat)
    requires i < |plan|
  {
    && TextOf(Look(files, plan[i].path)) == plan[i].expected
    && forall j :: 0 <= j < i ==> !Overlap(plan[j].path, plan[i].path)
  }

  ghost predicate PlanFits(files: Files, plan: seq<PlanFile>) {
    forall i :: 0 <= i < |plan| ==> FileFits(files, plan, i)
  }

  /** The files written since the `k`-th write, in order. */
  function Touched(log: seq<Write>, k: nat): seq<Path> {
    if |log| <= k then [] else Touched(log[..|log| - 1], k) + [log[|log| - 1].path]
  }

  lemma {:induction false} TouchedAdds(log: seq<Write>, more: seq<Write>, k: nat)
    requires k <= |log| && log <= more
    ensures Touched(more, k) == Touched(log, k) + Touched(more, |log|)
  {
    if |more| > |log| {
      TouchedAdds(log, more[..|more| - 1], k);
    } else {
      assert more == log;
    }
  }

  class Disk {
    var files: Files
    var journal: Option<Journal>
    /** What the world will do, one event before each atomic step; nothing more once it is empty. */
    var script: seq<Event>
    var compromised: bool
    ghost var log: seq<Write>
    ghost var pages: seq<Page>
    /** What the world has done during each step taken. */
    ghost var past: seq<Event>

    constructor (files: Files, journal: Option<Journal>)
      ensures this.files == files && this.journal == journal && script == [] && !compromised
      ensures log == [] && pages == [] && past == []
    {
      this.files, this.journal, script, compromised, log, pages, past := files, journal, [], false, [], [], [];
    }

    /** Lets the world move, and says whether the step may take effect. */
    method Await() returns (step: Step)
      modifies this
      ensures journal == old(journal) && log == old(log) && pages == old(pages)
      ensures files == Moved(old(files), old(script)) && script == Rest(old(script)) && step == NextStep(old(script))
      ensures past == old(past) + [Coming(old(script))]
      ensures compromised == (old(compromised) || Coming(old(script)).losesLock)
    {
      past := past + [Coming(script)];
      if script == [] {
        return Ready;
      }
      var event := script[0];
      script := script[1..];
      files := Edited(files, event.edits);
      compromised := compromised || event.losesLock;
      return if event.crashes then Crashes else if event.fails then Fails else Ready;
    }

    /** Creates or replaces a file whose text is still the expected one; its mode is kept unless given. */
    method WriteFile(path: Path, content: Text, expected: Option<Text>, mode: Option<nat>, defaultMode: nat,
                     ghost seen: Option<FileState>)
      returns (step: Step)
      modifies this
      ensures journal == old(journal) && pages == old(pages) && script == Rest(old(script))
      ensures past == old(past) + [Coming(old(script))]
      ensures compromised == (old(compromised) || Coming(old(script)).losesLock)
      ensures var moved := Moved(old(files), old(script));
        var found := Look(moved, path);
        var written := FileState(content, if mode.Some? then mode.value
                                          else if found.Some? then found.value.mode else defaultMode);
        && step == (if NextStep(old(script)).Ready? && TextOf(found) != expected then Fails else NextStep(old(script)))
        && files == (if step.Ready? then moved[path := written] else moved)
        && log == old(log) + if step.Ready? then [Write(path, seen, found, Some(written), |old(past)|)] else []
    {
      step := Await();
      if !step.Ready? {
        return;
      }
      var current := Look(files, path);
      if TextOf(current) != expected {
        return Fails;
      }
      var written := FileState(content, if mode.Some? then mode.value
                                        else if current.Some? then current.value.mode else defaultMode);
      files := files[path := written];
      log := log + [Write(path, seen, current, Some(written), |past| - 1)];
    }

    /** Deletes a file whose text is still the expected one. */
    method DeleteFile(path: Path, expected: Text, ghost seen: Option<FileState>) returns (step: Step)
      modifies this
      ensures journal == old(journal) && pages == old(pages) && script == Rest(old(script))
      ensures past == old(past) + [Coming(old(script))]
      ensures compromised == (old(compromised) || Coming(old(script)).losesLock)
      ensures var moved := Moved(old(files), old(script));
        var found := Look(moved, path);
        && step == (if NextStep(old(script)).Ready? && TextOf(found) != Some(expected)
                    then Fails else NextStep(old(script)))
        && files == (if step.Ready? then moved - {path} else moved)
        && log == old(log) + if step.Ready? then [Write(path, seen, found, None, |old(past)|)] else []
    {
      step := Await();
      if !step.Ready? {
        return;
      }
      var current := Look(files, path);
      if TextOf(current) != Some(expected) {
        return Fails;
      }
      files := files - {path};
      log := log + [Write(path, seen, current, None, |past| - 1)];
    }

    method ReadFile(path: Path) returns (step: Step, state: Option<FileState>)
      modifies this
      ensures journal == old(journal) && log == old(log) && pages == old(pages)
      ensures files == Moved(old(files), old(script)) && script == Rest(old(script)) && step == NextStep(old(script))
      ensures past == old(past) + [Coming(old(script))]
      ensures compromised == (old(compromised) || Coming(old(script)).losesLock)
      ensures state == Look(files, path)
    {
      step := Await();
      state := Look(files, path);
    }

    /** Replaces the journal if it is still the expected one. */
    method WriteJournal(next: Journal, expected: Option<Journal>) returns (step: Step)
      modifies this
      ensures log == old(log) && files == Moved(old(files), old(script)) && script == Rest(old(script))
      ensures past == old(past) + [Coming(old(script))]
      ensures compromised == (old(compromised) || Coming(old(script)).losesLock)
      ensures pages == old(pages) + if step.Ready? then [Page(next, |old(past)|)] else []
      ensures step == if NextStep(old(script)).Ready? && old(journal) != expected then Fails else NextStep(old(script))
      ensures journal == if step.Ready? then Some(next) else old(journal)
    {
      step := Await();
      if step.Ready? {
        if journal != expected {
          return Fails;
        }
        journal := Some(next);
        pages := pages + [Page(next, |past| - 1)];
      }
    }

    // -------------------------------------------------------------------------
    // Rolling back
    // -------------------------------------------------------------------------

    /** Puts a file back as it was before, if its text is still the one that was installed. */
    method RestoreFile(entry: Entry, ghost seen: Option<FileState>) returns (step: Step)
      modifies this
      ensures journal == old(journal) && pages == old(pages) && script == Rest(old(script))
      ensures past == old(past) + [Coming(old(script))]
      ensures compromised == (old(compromised) || Coming(old(script)).losesLock)
      ensures var moved := Moved(old(files), old(script));
        var found := Look(moved, entry.path);
        && step == (if NextStep(old(script)).Ready? && TextOf(found) != Some(entry.after.text)
                    then Fails else NextStep(old(script)))
        && files == (if step.Ready? then Put(moved, entry.path, entry.before) else moved)
        && log == old(log) + if step.Ready? then [Write(entry.path, seen, found, entry.before, |old(past)|)] else []
    {
      if entry.before.None? {
        step := DeleteFile(entry.path, entry.after.text, seen);
      } else {
        step := WriteFile(entry.path, entry.before.value.text, Some(entry.after.text), Some(entry.before.value.mode), 0,
                          seen);
      }
    }

    method VisitFile(entry: Entry) returns (step: Step, visit: Visit)
      modifies this
      ensures journal == old(journal) && pages == old(pages)
      ensures old(script) == [] ==> script == [] && compromised == old(compromised)
      ensures KnowsLoss(old(past), past, old(compromised), compromised) && |old(past)| < |past|
      ensures past[|old(past)|] == Coming(old(script)) && DiesLast(old(past), past, step.Crashes?)
      ensures Quiet(old(script)) ==> Quiet(script)
      ensures var v := VisitUnder(entry, old(files), old(script));
        && step == v.step && files == v.files && (step.Ready? ==> visit == v.visit)
        && log == old(log)
           + if v.visit.Restores? then [Write(entry.path, v.seen, v.found, entry.before, |old(past)| + 1)] else []
      ensures log != old(log) ==> |past| == |old(past)| + 2
    {
      ghost var start, was := past, compromised;
      ghost var atRead, rest := Moved(files, script), Rest(script);
      if Quiet(script) {
        QuietStep(files, script);
        QuietStep(files, rest);
      }
      var current;
      visit := Keeps;
      step, current := ReadFile(entry.path);
      LossOfOneStep(start, past[|start|], was);
      if !step.Ready? {
        return;
      }
      if current == entry.before {
        return;
      }
      if current != Some(entry.after) {
        visit := Conflicts;
        return;
      }
      visit := Restores;
      ghost var middle, known := past, compromised;
      step := RestoreFile(entry, current);
      LossOfOneStep(middle, past[|middle|], known);
      LossAdds(start, middle, past, was, known, compromised);
      DeathAdds(start, middle, past, step.Crashes?);
    }

    /** The visit of one turn of a rollback. The lock has been held since step `from`. */
    method VisitEntry(entries: seq<Entry>, i: nat, ghost from: nat) returns (step: Step, visit: Visit)
      requires i < |entries| && from <= |past| && Held(past, from, |past|)
      modifies this
      ensures journal == old(journal) && pages == old(pages)
      ensures KnowsLoss(old(past), past, old(compromised), compromised) && DiesLast(old(past), past, step.Crashes?)
      ensures OnlyRestores(entries, old(log), log) && VisitsHeld(log, |old(log)|, past, from)
      ensures Touched(log, |old(log)|) == if step.Ready? && visit.Restores? then [entries[i].path] else []
      ensures old(script) == [] ==> script == [] && compromised == old(compromised)
      ensures Quiet(old(script)) ==> Quiet(script)
      ensures var v := VisitUnder(entries[i], old(files), old(script));
        step == v.step && files == v.files && (step.Ready? ==> visit == v.visit)
    {
      ghost var before, start, done := files, past, log;
      ghost var v := VisitUnder(entries[i], files, script);
      step, visit := VisitFile(entries[i]);
      HeldStays(start, past, from, |start|);
      ghost var write := Write(entries[i].path, v.seen, v.found, entries[i].before, |start| + 1);
      if v.visit.Restores? {
        VisitIsRestore(entries, i, before, old(script), write);
      }
      OneRestore(entries, done, log, write, past, from);
    }

    /** One turn of a rollback. The lock has been held since step `from`. */
    method UndoEntry(entries: seq<Entry>, i: nat, conflicts: seq<Path>, restored: seq<Path>, ghost original: Files,
                     ghost from: nat)
      returns (step: Step, named: seq<Path>, put: seq<Path>)
      requires DistinctPaths(entries) && i < |entries| && from <= |past| && Held(past, from, |past|)
      modifies this
      ensures journal == old(journal) && pages == old(pages)
      ensures KnowsLoss(old(past), past, old(compromised), compromised) && DiesLast(old(past), past, step.Crashes?)
      ensures OnlyRestores(entries, old(log), log) && VisitsHeld(log, |old(log)|, past, from)
      ensures put == restored + Touched(log, |old(log)|)
      ensures old(script) == [] ==> step.Ready? && script == [] && compromised == old(compromised)
      ensures Quiet(old(script)) ==> Quiet(script)
      ensures (Quiet(old(script)) && Undone(old(files), original, entries, i + 1)
               && NamesTheOthers(conflicts, original, entries, i + 1)) ==>
        && Undone(files, original, entries, if step.Ready? then i else i + 1)
        && (step.Ready? ==> NamesTheOthers(named, original, entries, i))
    {
      if Quiet(script) && Undone(files, original, entries, i + 1)
        && NamesTheOthers(conflicts, original, entries, i + 1)
      {
        UndoOne(entries, i, files, script, original, conflicts);
      }
      if script == [] {
        VisitLeftAlone(entries[i], files);
      }
      var visit;
      step, visit := VisitEntry(entries, i, from);
      named := if step.Ready? && visit.Conflicts? then conflicts + [entries[i].path] else conflicts;
      put := restored + if step.Ready? && visit.Restores? then [entries[i].path] else [];
    }

    /** The loop of a rollback, from the last file to the first. */
    method UndoFiles(entries: seq<Entry>) returns (step: Step, conflicts: seq<Path>, restored: seq<Path>)
      requires DistinctPaths(entries)
      modifies this
      ensures journal == old(journal) && pages == old(pages) && OnlyRestores(entries, old(log), log)
      ensures KnowsLoss(old(past), past, old(compromised), compromised) && DiesLast(old(past), past, step.Crashes?)
      ensures old(compromised) ==> log == old(log)
      ensures VisitsHeld(log, |old(log)|, past, |old(past)|) && restored == Touched(log, |old(log)|)
      ensures old(script) == [] ==> script == [] && compromised == old(compromised)
      ensures Quiet(old(script)) ==> Quiet(script) && IsUndone(files, old(files), entries)
      ensures Quiet(old(script)) && step.Ready? ==>
        Undone(files, old(files), entries, 0) && NamesTheOthers(conflicts, old(files), entries, 0)
      ensures old(script) == [] && !old(compromised) ==> step.Ready?
    {
      step, conflicts, restored := Ready, [], [];
      ghost var quiet, original, start, was := Quiet(script), files, past, compromised;
      for i := |entries| downto 0
        invariant journal == old(journal) && pages == old(pages) && OnlyRestores(entries, old(log), log)
        invariant KnowsLoss(start, past, was, compromised) && VisitsHeld(log, |old(log)|, past, |start|)
        invariant was ==> log == old(log)
        invariant DiesLast(start, past, false) && restored == Touched(log, |old(log)|) && step.Ready?
        invariant quiet ==> Quiet(script) && Undone(files, original, entries, i)
        invariant quiet ==> NamesTheOthers(conflicts, original, entries, i)
        invariant old(script) == [] ==> script == [] && compromised == was
      {
        if compromised {
          step := Fails;
          return;
        }
        ghost var middle, done := past, log;
        step, conflicts, restored := UndoEntry(entries, i, conflicts, restored, original, |start|);
        LossAdds(start, middle, past, was, false, compromised);
        VisitsStay(done, log, |old(log)|, middle, past, |start|);
        DeathAdds(start, middle, past, step.Crashes?);
        TouchedAdds(done, log, |old(log)|);
        if !step.Ready? {
          return;
        }
      }
    }

    method Rollback(entries: seq<Entry>) returns (outcome: Outcome, conflicts: seq<Path>, restored: seq<Path>)
      requires DistinctPaths(entries)
      modifies this
      // Only files seen in their after state are touched, and only to put their before state back.
      ensures OnlyRestores(entries, old(log), log)
      // The journal moves only at the very end, and only when no file was in conflict.
      ensures !outcome.Returned? ==> journal == old(journal) && pages == old(pages)
      ensures outcome.Returned? ==>
        conflicts == [] && old(journal) == Some(Journal(Applying, entries))
          && journal == Some(Journal(RolledBack, entries))
      // A process that dies does nothing more.
      ensures DiesLast(old(past), past, outcome.Died?)
      // The files named as restored are those that were.
      ensures restored == Touched(log, |old(log)|)
      // Nothing is touched once the lock is lost, except by a visit during whose read it was; the journal never is.
      ensures KnowsLoss(old(past), past, old(compromised), compromised)
      ensures old(compromised) ==> !outcome.Returned? && log == old(log)
      ensures VisitsHeld(log, |old(log)|, past, |old(past)|)
      ensures outcome.Returned? ==> |old(past)| < |past| && Held(past, |old(past)|, |past| - 1)
      ensures outcome.Returned? ==> pages == old(pages) + [Page(Journal(RolledBack, entries), |past| - 1)]
      // Without edits meanwhile, the files in their after state are put back, from the last on, and no other is
      // changed.
      ensures Quiet(old(script)) ==> Quiet(script) && IsUndone(files, old(files), entries)
      // Then it returns only when every file was before or after, and all are before.
      ensures Quiet(old(script)) && outcome.Returned? ==>
        BeforeOrAfter(old(files), entries) && AllBefore(files, entries)
      // Left alone, it puts all of them back, names exactly the others, and returns exactly when there are none.
      ensures old(script) == [] && !old(compromised) ==>
        && Undone(files, old(files), entries, 0) && NamesTheOthers(conflicts, old(files), entries, 0)
        && (old(journal) == Some(Journal(Applying, entries)) ==>
            (outcome.Returned? <==> BeforeOrAfter(old(files), entries)))
    {
      ghost var original, start, was := files, past, compromised;
      var step;
      step, conflicts, restored := UndoFiles(entries);
      if Quiet(script) && Undone(files, original, entries, 0) && NamesTheOthers(conflicts, original, entries, 0) {
        NobodyElse(conflicts, files, original, entries);
        QuietStep(files, script);
      }
      if !step.Ready? || conflicts != [] || compromised {
        outcome := if step.Crashes? then Died else Threw;
        return;
      }
      ghost var middle := past;
      step := WriteJournal(Journal(RolledBack, entries), Some(Journal(Applying, entries)));
      LossOfOneStep(middle, past[|middle|], false);
      LossAdds(start, middle, past, was, false, compromised);
      HeldStays(middle, past, |start|, |middle|);
      VisitsStay(log, log, |old(log)|, middle, past, |start|);
      DeathAdds(start, middle, past, step.Crashes?);
      outcome := if step.Ready? then Returned else if step.Crashes? then Died else Threw;
    }

    // -------------------------------------------------------------------------
    // Applying a plan
    // -------------------------------------------------------------------------

    /** Reads one file of the plan, which must not overlap those recorded before and must be as planned against. */
    method RecordOne(file: PlanFile, entries: seq<Entry>, defaultMode: nat) returns (step: Step, entry: Option<Entry>)
      modifies this
      ensures journal == old(journal) && log == old(log) && pages == old(pages)
      ensures KnowsLoss(old(past), past, old(compromised), compromised) && DiesLast(old(past), past, step.Crashes?)
      ensures Quiet(old(script)) ==> Quiet(script) && files == old(files)
      ensures old(script) == [] ==> script == [] && compromised == old(compromised)
      ensures step.Ready? <==> entry.Some?
      ensures step.Ready? ==> !OverlapsAny(entries, file.path) && TextOf(Look(files, file.path)) == file.expected
      ensures step.Ready? ==>
        var before := Look(files, file.path);
        entry.value == Entry(file.path, before,
                             FileState(file.content, if before.Some? then before.value.mode else defaultMode))
      ensures old(script) == [] && !step.Ready? ==>
        OverlapsAny(entries, file.path) || TextOf(Look(files, file.path)) != file.expected
    {
      entry := None;
      if Quiet(script) {
        QuietStep(files, script);
      }
      if OverlapsAny(entries, file.path) {
        return Fails, None;
      }
      ghost var start, was := past, compromised;
      var before;
      step, before := ReadFile(file.path);
      LossOfOneStep(start, past[|start|], was);
      if step.Ready? {
        if TextOf(before) != file.expected {
          return Fails, None;
        }
        var mode := if before.Some? then before.value.mode else defaultMode;
        entry := Some(Entry(file.path, before, FileState(file.content, mode)));
      }
    }

    /** Checks the plan against the disk and records the state of every file. */
    method Record(plan: seq<PlanFile>, defaultMode: nat) returns (step: Step, entries: seq<Entry>)
      modifies this
      ensures journal == old(journal) && log == old(log) && pages == old(pages)
      ensures KnowsLoss(old(past), past, old(compromised), compromised) && (plan == [] ==> past == old(past))
      ensures DiesLast(old(past), past, step.Crashes?)
      ensures Quiet(old(script)) ==> Quiet(script) && files == old(files)
      ensures step.Ready? ==> RecordsAll(entries, plan) && DistinctPaths(entries)
      ensures ModesKept(entries, defaultMode)
      ensures Quiet(old(script)) && step.Ready? ==> AllBefore(files, entries)
      ensures old(script) == [] ==> script == [] && compromised == old(compromised)
      ensures old(script) == [] ==> (step.Ready? <==> PlanFits(files, plan))
    {
      step, entries := Ready, [];
      for i := 0 to |plan|
        invariant journal == old(journal) && log == old(log) && pages == old(pages) && step.Ready?
        invariant KnowsLoss(old(past), past, old(compromised), compromised) && (i == 0 ==> past == old(past))
        invariant DiesLast(old(past), past, false)
        invariant old(script) == [] ==> script == [] && compromised == old(compromised)
        invariant old(script) == [] ==> forall j :: 0 <= j < i ==> FileFits(files, plan, j)
        invariant Quiet(old(script)) ==> Quiet(script) && files == old(files)
        invariant |entries| == i && DistinctPaths(entries)
        invariant forall j :: 0 <= j < i ==> RecordsPlan(entries[j], plan[j])
        invariant ModesKept(entries, defaultMode)
        invariant Quiet(old(script)) ==> AllBefore(files, entries)
      {
        ghost var middle, known := past, compromised;
        var entry;
        step, entry := RecordOne(plan[i], entries, defaultMode);
        LossAdds(old(past), middle, past, old(compromised), known, compromised);
        DeathAdds(old(past), middle, past, step.Crashes?);
        OverlapsRecorded(entries, plan, i);
        if !step.Ready? {
          assert old(script) == [] ==> !FileFits(files, plan, i);
          return;
        }
        entries := entries + [entry.value];
      }
    }

    method InstallFile(entry: Entry, defaultMode: nat) returns (step: Step)
      modifies this
      ensures journal == old(journal) && pages == old(pages)
      ensures past == old(past) + [Coming(old(script))] && (step.Crashes? <==> Coming(old(script)).crashes)
      ensures compromised == (old(compromised) || Coming(old(script)).losesLock)
      ensures !step.Ready? ==> log == old(log)
      ensures step.Ready? ==> |log| == |old(log)| + 1 && log[..|old(log)|] == old(log)
      ensures step.Ready? ==> IsInstall(entry, log[|old(log)|]) && log[|old(log)|].at == |old(past)|
      ensures Quiet(old(script)) ==> Quiet(script)
      ensures Quiet(old(script)) ==>
        var found := Look(old(files), entry.path);
        var mode := if found.Some? then found.value.mode else defaultMode;
        files == if step.Ready? then old(files)[entry.path := FileState(entry.after.text, mode)] else old(files)
      ensures old(script) == [] ==> script == [] && compromised == old(compromised)
      ensures old(script) == [] ==> (step.Ready? <==> TextOf(Look(old(files), entry.path)) == TextOf(entry.before))
    {
      if Quiet(script) {
        QuietStep(files, script);
      }
      step := WriteFile(entry.path, entry.after.text, TextOf(entry.before), None, defaultMode, entry.before);
    }

    /** Writes the files one by one; stops at the first step that fails. */
    method InstallFiles(entries: seq<Entry>, defaultMode: nat) returns (step: Step)
      requires DistinctPaths(entries)
      modifies this
      ensures journal == old(journal) && pages == old(pages) && OnlyInstalls(entries, old(log), log)
      ensures step.Ready? ==> |log| == |old(log)| + |entries|
      ensures KnowsLoss(old(past), past, old(compromised), compromised)
      ensures old(compromised) ==> log == old(log)
      ensures WritesHeld(log, |old(log)|, past, |old(past)|) && DiesLast(old(past), past, step.Crashes?)
      ensures Quiet(old(script)) ==> Quiet(script)
      ensures old(script) == [] ==> script == [] && compromised == old(compromised)
      ensures Quiet(old(script)) && AllBefore(old(files), entries) && ModesKept(entries, defaultMode) ==>
        BeforeOrAfter(files, entries) && ElsewhereSame(files, old(files), entries)
          && (step.Ready? ==> AllAfter(files, entries))
      ensures (old(script) == [] && !old(compromised) && AllBefore(old(files), entries)
               && ModesKept(entries, defaultMode)) ==> step.Ready?
    {
      step := Ready;
      ghost var calm := Quiet(script) && AllBefore(files, entries) && ModesKept(entries, defaultMode);
      ghost var start, was := past, compromised;
      for i := 0 to |entries|
        invariant journal == old(journal) && pages == old(pages)
        invariant OnlyInstalls(entries, old(log), log) && |log| == |old(log)| + i
        invariant KnowsLoss(start, past, was, compromised) && (was ==> log == old(log))
        invariant WritesHeld(log, |old(log)|, past, |start|) && DiesLast(start, past, false)
        invariant Quiet(old(script)) ==> Quiet(script)
        invariant calm ==> Installed(files, old(files), entries, i)
        invariant old(script) == [] ==> script == [] && compromised == old(compromised)
        invariant step.Ready?
      {
        if compromised {
          return Fails;
        }
        ghost var filesBefore, middle, done := files, past, log;
        step := InstallFile(entries[i], defaultMode);
        OneMoreWrite(start, middle, past, past[|middle|], done, log, |old(log)|, was);
        DeathAdds(start, middle, past, step.Crashes?);
        if !step.Ready? {
          return;
        }
        InstallsGrow(entries, old(log), done, log, i);
        if calm {
          InstallOne(entries, i, filesBefore, files, old(files), defaultMode);
        }
      }
    }

    /** Writes the files one by one and then marks the journal completed; stops at the first step that fails. */
    method Install(entries: seq<Entry>, defaultMode: nat) returns (step: Step)
      requires DistinctPaths(entries)
      modifies this
      ensures OnlyInstalls(entries, old(log), log)
      ensures Quiet(old(script)) ==> Quiet(script)
      ensures step.Ready? ==> |log| == |old(log)| + |entries|
      ensures step.Ready? ==>
        old(journal) == Some(Journal(Applying, entries)) && journal == Some(Journal(Completed, entries))
      ensures !step.Ready? ==> journal == old(journal) && pages == old(pages)
      ensures DiesLast(old(past), past, step.Crashes?)
      // Nothing is written once the lock is lost, neither a file nor the journal.
      ensures KnowsLoss(old(past), past, old(compromised), compromised)
      ensures old(compromised) ==> !step.Ready? && log == old(log)
      ensures WritesHeld(log, |old(log)|, past, |old(past)|)
      ensures step.Ready? ==> |old(past)| < |past| && Held(past, |old(past)|, |past| - 1)
      ensures step.Ready? ==> pages == old(pages) + [Page(Journal(Completed, entries), |past| - 1)]
      ensures Quiet(old(script)) && AllBefore(old(files), entries) && ModesKept(entries, defaultMode) ==>
        BeforeOrAfter(files, entries) && ElsewhereSame(files, old(files), entries)
          && (step.Ready? ==> AllAfter(files, entries))
      ensures (old(script) == [] && !old(compromised) && old(journal) == Some(Journal(Applying, entries))
               && AllBefore(old(files), entries) && ModesKept(entries, defaultMode)) ==> step.Ready?
    {
      ghost var start, was := past, compromised;
      step := InstallFiles(entries, defaultMode);
      if !step.Ready? || compromised {
        return if step.Crashes? then Crashes else Fails;
      }
      if Quiet(script) {
        QuietStep(files, script);
      }
      ghost var middle := past;
      step := WriteJournal(Journal(Completed, entries), Some(Journal(Applying, entries)));
      OneMoreWrite(start, middle, past, past[|middle|], log, log, |old(log)|, was);
      DeathAdds(start, middle, past, step.Crashes?);
    }

    /** Installs the recorded files, and puts back what it has installed when that fails. */
    method InstallOrUndo(entries: seq<Entry>, defaultMode: nat) returns (outcome: Outcome)
      requires DistinctPaths(entries) && journal == Some(Journal(Applying, entries))
      modifies this
      ensures InstallsThenRestores(entries, old(log), log)
      ensures journal.Some? && journal.value.entries == entries
      ensures KnowsLoss(old(past), past, old(compromised), compromised)
      ensures old(compromised) ==> !outcome.Returned? && log == old(log) && pages == old(pages)
      ensures VisitsHeld(log, |old(log)|, past, |old(past)|) && DiesLast(old(past), past, outcome.Died?)
      ensures old(pages) <= pages && PagesHeld(pages, |old(pages)|, past, |old(past)|)
      ensures outcome.Returned? ==>
        && |old(past)| < |past| && Held(past, |old(past)|, |past| - 1)
        && WritesHeld(log, |old(log)|, past, |old(past)|)
      ensures outcome.Returned? ==>
        journal.value.status == Completed && OnlyInstalls(entries, old(log), log) && |log| == |old(log)| + |entries|
      ensures Quiet(old(script)) ==> Quiet(script)
      ensures Quiet(old(script)) && AllBefore(old(files), entries) && ModesKept(entries, defaultMode) ==>
        && Carried(files, journal.value, old(files), entries) && (outcome.Returned? ==> AllAfter(files, entries))
      ensures old(script) == [] && !old(compromised) && AllBefore(old(files), entries)
              && ModesKept(entries, defaultMode) ==>
        outcome.Returned?
    {
      ghost var start, was := past, compromised;
      var step := Install(entries, defaultMode);
      ghost var installed, middle, known := log, past, compromised;
      Split(entries, old(log), log, log);
      WritesSince(log, |old(log)|, past, |start|, |start|);
      if step.Ready? {
        return Returned;
      }
      if step.Crashes? {
        return Died;
      }
      outcome := Threw;
      if !compromised {
        ghost var filesBefore := files;
        var conflicts, restored;
        outcome, conflicts, restored := Rollback(entries);
        Split(entries, old(log), installed, log);
        HeldOver(start, middle, past, was, compromised, installed, log, |old(log)|);
        DeathAdds(start, middle, past, outcome.Died?);
        if IsUndone(files, filesBefore, entries) && BeforeOrAfter(filesBefore, entries) {
          UndoneStaysBetween(files, filesBefore, entries);
        }
        if outcome.Returned? {
          outcome := Threw;
        }
      }
    }

    /** The work of a setup once the files are recorded: the journal, then the files. */
    method CarryOut(entries: seq<Entry>, previous: Option<Journal>, defaultMode: nat) returns (outcome: Outcome)
      requires DistinctPaths(entries) && !compromised && journal == previous
      modifies this
      ensures InstallsThenRestores(entries, old(log), log)
      ensures journal == previous || (journal.Some? && journal.value.entries == entries)
      ensures outcome.Returned? ==>
        && journal == Some(Journal(Completed, entries)) && OnlyInstalls(entries, old(log), log)
        && |log| == |old(log)| + |entries|
      ensures IsHeldWork(old(past), past, compromised, log, |old(log)|, old(pages), pages)
      ensures DiesLast(old(past), past, outcome.Died?)
      ensures outcome.Returned? ==> IsHeldThroughout(old(past), past, log, |old(log)|)
      ensures Quiet(old(script)) ==> Quiet(script)
      ensures Quiet(old(script)) && AllBefore(old(files), entries) && ModesKept(entries, defaultMode) ==>
        && (outcome.Returned? ==> AllAfter(files, entries))
        && ((journal == previous && files == old(files))
            || (journal.Some? && journal.value.entries == entries
              && Carried(files, journal.value, old(files), entries)))
      ensures old(script) == [] && AllBefore(old(files), entries) && ModesKept(entries, defaultMode)
        ==> outcome.Returned?
    {
      ghost var start, done, written := past, log, pages;
      if Quiet(script) {
        QuietStep(files, script);
      }
      NoWrites(log);
      var step := WriteJournal(Journal(Applying, entries), previous);
      LossOfOneStep(start, past[|start|], false);
      if !step.Ready? {
        return if step.Crashes? then Died else Threw;
      }
      ghost var begun, known, first := past, compromised, pages;
      outcome := InstallOrUndo(entries, defaultMode);
      HeldSinceJournal(start, begun, past, known, compromised, done, log, written, first, pages);
      DeathAdds(start, begun, past, outcome.Died?);
      if outcome.Returned? {
        HeldStays(begun, past, |start|, |begun|);
        WritesSince(log, |done|, past, |begun|, |start|);
      }
    }

    /** Everything before the journal: it writes nothing, and says whether there is anything to carry out. */
    method Prepare(plan: seq<PlanFile>, defaultMode: nat)
      returns (goesOn: bool, outcome: Outcome, previous: Option<Journal>, entries: seq<Entry>)
      requires !compromised
      modifies this
      ensures journal == old(journal) == previous && log == old(log) && pages == old(pages)
      ensures KnowsLoss(old(past), past, false, compromised)
      ensures DiesLast(old(past), past, outcome.Died?) && (goesOn ==> outcome.Threw?)
      ensures Quiet(old(script)) ==> Quiet(script) && files == old(files)
      ensures goesOn ==> !compromised && !IsApplying(journal)
      ensures goesOn ==> RecordsAll(entries, plan) && DistinctPaths(entries) && ModesKept(entries, defaultMode)
      ensures goesOn && Quiet(old(script)) ==> AllBefore(files, entries)
      ensures !goesOn ==> entries == []
      ensures !goesOn && outcome.Returned? ==> plan == [] && |past| == |old(past)| + 1 && !IsApplying(journal)
      ensures old(script) == [] ==> script == []
      ensures old(script) == [] ==>
        (goesOn || outcome.Returned? <==> |plan| <= 32 && !IsApplying(old(journal)) && PlanFits(old(files), plan))
    {
      goesOn, outcome, previous, entries := false, Threw, journal, [];
      if |plan| > 32 {
        return;
      }
      if Quiet(script) {
        QuietStep(files, script);
      }
      ghost var start := past;
      var step := Await();
      LossOfOneStep(start, past[|start|], false);
      ghost var read, known := past, compromised;
      if !step.Ready? || IsApplying(journal) {
        outcome := if step.Crashes? then Died else Threw;
        return;
      }
      var recorded;
      step, recorded := Record(plan, defaultMode);
      LossAdds(start, read, past, false, known, compromised);
      DeathAdds(start, read, past, step.Crashes?);
      if !step.Ready? {
        outcome := if step.Crashes? then Died else Threw;
      } else if recorded == [] {
        outcome := Returned;
      } else if !compromised {
        goesOn, entries := true, recorded;
      }
    }

    method Apply(plan: seq<PlanFile>, defaultMode: nat) returns (outcome: Outcome, entries: seq<Entry>)
      modifies this
      // Whatever else happens to the disk meanwhile, the tool only installs, in order, and then only puts back.
      ensures InstallsThenRestores(entries, old(log), log)
      // What is installed is what was planned.
      ensures entries != [] || outcome.Returned? ==> RecordsAll(entries, plan)
      ensures Quiet(old(script)) && outcome.Returned? ==> AsPlanned(files, plan)
      ensures outcome.Returned? && entries != [] ==>
        journal == Some(Journal(Completed, entries)) && OnlyInstalls(entries, old(log), log)
          && |log| == |old(log)| + |entries|
      // A process that dies does nothing more.
      ensures DiesLast(old(past), past, outcome.Died?)
      // Once the lock is lost no file is written, except by a visit that was reading it, and no journal; and a setup
      // that returns has held the lock up to its last step, and written every file under it.
      ensures IsHeldWork(old(past), past, compromised, log, |old(log)|, old(pages), pages)
      ensures outcome.Returned? ==> IsHeldThroughout(old(past), past, log, |old(log)|)
      ensures Quiet(old(script)) ==> Quiet(script)
      ensures (Quiet(old(script)) && !IsApplying(old(journal))
               && (old(journal).Some? ==> DistinctPaths(old(journal).value.entries))) ==>
        Sound(files, journal, old(files), old(journal), entries) && (outcome.Returned? ==> AllAfter(files, entries))
      ensures IsApplying(old(journal)) ==> !outcome.Returned? && journal == old(journal) && log == old(log)
      ensures ComesFrom(journal, old(journal), entries)
      // Left alone, it succeeds exactly when no setup is pending and the plan is one for the files there are.
      ensures old(script) == [] ==>
        (outcome.Returned? <==> |plan| <= 32 && !IsApplying(old(journal)) && PlanFits(old(files), plan))
    {
      compromised := false;
      NoWrites(log);
      ghost var start, done, written := past, log, pages;
      var goesOn, previous;
      goesOn, outcome, previous, entries := Prepare(plan, defaultMode);
      if goesOn {
        ghost var prepared := past;
        outcome := CarryOut(entries, previous, defaultMode);
        HeldWorkSince(start, prepared, past, compromised, log, |done|, written, pages);
        DeathAdds(start, prepared, past, outcome.Died?);
        if outcome.Returned? {
          HeldStays(prepared, past, |start|, |prepared|);
          WritesSince(log, |done|, past, |prepared|, |start|);
          if AllAfter(files, entries) {
            InstalledAsPlanned(files, entries, plan);
          }
        }
      }
    }

    method Recover() returns (outcome: Outcome, restored: seq<Path>)
      requires journal.Some? ==> DistinctPaths(journal.value.entries)
      modifies this
      ensures Quiet(old(script)) ==> Quiet(script)
      ensures !IsApplying(old(journal)) ==> journal == old(journal) && log == old(log)
      ensures IsApplying(old(journal)) ==>
        var entries := old(journal).value.entries;
        && OnlyRestores(entries, old(log), log)
        && journal == if outcome.Returned? then Some(Journal(RolledBack, entries)) else old(journal)
      ensures Quiet(old(script)) && !IsApplying(old(journal)) ==> files == old(files)
      // A process that dies does nothing more, and the files named as restored are those that were.
      ensures DiesLast(old(past), past, outcome.Died?) && restored == Touched(log, |old(log)|)
      // Once the lock is lost no file is written, except by a visit that was reading it, and no journal.
      ensures IsHeldWork(old(past), past, compromised, log, |old(log)|, old(pages), pages)
      ensures outcome.Returned? ==> |old(past)| < |past| && Held(past, |old(past)|, |past| - 1)
      // Without edits meanwhile, whatever was edited before: files in neither state stay as they are, and returning
      // means there were none and all files are before.
      ensures Quiet(old(script)) && IsApplying(old(journal)) ==>
        var entries := old(journal).value.entries;
        && IsUndone(files, old(files), entries)
        && (outcome.Returned? ==> BeforeOrAfter(old(files), entries) && AllBefore(files, entries))
      // Left alone, it puts back every file in its after state, and returns exactly when none is in neither state.
      ensures old(script) == [] && IsApplying(old(journal)) ==>
        var entries := old(journal).value.entries;
        Undone(files, old(files), entries, 0) && (outcome.Returned? <==> BeforeOrAfter(old(files), entries))
      ensures old(script) == [] && !IsApplying(old(journal)) ==> outcome.Returned?
    {
      compromised := false;
      ghost var entries := if journal.Some? then journal.value.entries else [];
      if Quiet(script) {
        QuietStep(files, script);
        assert Undone(files, files, entries, |entries|);
      }
      ghost var start, done, written := past, log, pages;
      var step := Await();
      LossOfOneStep(start, past[|start|], false);
      if !step.Ready? || !IsApplying(journal) {
        return if step.Ready? then Returned else if step.Crashes? then Died else Threw, [];
      }
      ghost var read, known := past, compromised;
      var conflicts;
      outcome, conflicts, restored := Rollback(journal.value.entries);
      RolledBackSince(start, read, past, known, compromised, done, log, written, pages);
      DeathAdds(start, read, past, outcome.Died?);
    }

    /**
     * A setup that may die, fail or lose its lock at any step, any number of recoveries that may do the same, and then
     * one recovery that is left alone: every file is as it was found, unless the setup had completed.
     */
    method Lifetime(plan: seq<PlanFile>, defaultMode: nat, applying: seq<Event>, recovering: seq<seq<Event>>)
      returns (entries: seq<Entry>)
      requires !IsApplying(journal) && (journal.Some? ==> DistinctPaths(journal.value.entries))
      requires Quiet(applying) && forall i :: 0 <= i < |recovering| ==> Quiet(recovering[i])
      modifies this
      ensures entries != [] ==> RecordsAll(entries, plan)
      ensures !IsApplying(journal)
      ensures (journal == Some(Journal(Completed, entries)) && AllAfter(files, entries)
               && ElsewhereSame(files, old(files), entries))
           || files == old(files)
    {
      ghost var original, previous := files, journal;
      script := applying;
      var outcome, restored;
      outcome, entries := Apply(plan, defaultMode);
      for i := 0 to |recovering|
        invariant Sound(files, journal, original, previous, entries)
      {
        script := recovering[i];
        ghost var filesBefore := files;
        assert Quiet(recovering[i]);
        outcome, restored := Recover();
        if IsUndone(files, filesBefore, entries) {
          UndoneStaysBetween(files, filesBefore, entries);
        }
      }
      script := [];
      outcome, restored := Recover();
      if AllBefore(files, entries) {
        NothingMoved(files, original, entries);
      }
    }

    /**
     * The same with anything at all happening meanwhile, other programs' edits included, up to a last recovery during
     * which only the tool writes. `found` and `left` are the files and the journal that recovery finds.
     */
    method DisturbedLifetime(plan: seq<PlanFile>, defaultMode: nat, applying: seq<Event>, recovering: seq<seq<Event>>,
                             last: seq<Event>)
      returns (entries: seq<Entry>, outcome: Outcome, found: Files, left: Option<Journal>)
      requires !IsApplying(journal) && (journal.Some? ==> DistinctPaths(journal.value.entries))
      requires Quiet(last)
      modifies this
      ensures entries != [] ==> RecordsAll(entries, plan)
      // All through, the tool has only installed, in order, and then only put back files seen in their after state.
      ensures InstallsThenRestores(entries, old(log), log) && ComesFrom(left, old(journal), entries)
      // A journal that is not applying is left alone, and so are the files.
      ensures !IsApplying(left) ==> journal == left && files == found
      // Otherwise the files in neither state stay as they are; the journal ends rolled back only if there are none, and
      // then all are before.
      ensures IsApplying(left) ==> IsUndone(files, found, entries)
      ensures IsApplying(left) && outcome.Returned? ==>
        journal == Some(Journal(RolledBack, entries)) && BeforeOrAfter(found, entries) && AllBefore(files, entries)
      ensures IsApplying(left) && !outcome.Returned? ==> journal == left
      // A last recovery that is left alone succeeds exactly then.
      ensures IsApplying(left) && last == [] ==>
        Undone(files, found, entries, 0) && (outcome.Returned? <==> BeforeOrAfter(found, entries))
    {
      ghost var previous, start := journal, log;
      script := applying;
      var restored;
      outcome, entries := Apply(plan, defaultMode);
      for i := 0 to |recovering|
        invariant ComesFrom(journal, previous, entries) && InstallsThenRestores(entries, start, log)
      {
        script := recovering[i];
        ghost var logBefore := log;
        outcome, restored := Recover();
        RestoresMore(entries, start, logBefore, log);
      }
      found, left, script := files, journal, last;
      ghost var logBefore := log;
      outcome, restored := Recover();
      RestoresMore(entries, start, logBefore, log);
    }
  }

  /**
   * A visit does not look at the lock between its read and its write: one during whose read the lock is lost writes
   * the file all the same.
   */
  method LockLostWhileReading() returns (disk: Disk)
    ensures fresh(disk) && disk.compromised && |disk.past| == 2 && disk.past[0].losesLock
    ensures |disk.log| == 1 && disk.log[0].at == 1
  {
    var path: Path, before, after := [0x70], FileState([0x6F], 2), FileState([0x74], 2);
    disk := new Disk(map[path := after], None);
    disk.script := [Event(map[], true, false, false)];
    var entry := Entry(path, Some(before), after);
    ghost var script := disk.script;
    assert Moved(disk.files, script) == disk.files && Rest(script) == [];
    assert before.text[0] != after.text[0];
    var step, visit := disk.VisitFile(entry);
    assert !Held(disk.past, 0, |disk.past|);
  }

  /** A write that puts an entry's before state over its after text, the file having been seen in its after state. */
  ghost predicate IsRestore(entry: Entry, write: Write) {
    && write.path == entry.path && write.seen == Some(entry.after)
    && TextOf(write.replaced) == Some(entry.after.text) && write.left == entry.before
  }

  ghost predicate RestoresSome(entries: seq<Entry>, write: Write) {
    exists i :: 0 <= i < |entries| && IsRestore(entries[i], write)
  }

  ghost predicate OnlyRestores(entries: seq<Entry>, before: seq<Write>, after: seq<Write>) {
    && |before| <= |after| && after[..|before|] == before
    && forall k :: |before| <= k < |after| ==> RestoresSome(entries, after[k])
  }

  /** What the file of an entry is once it has been put back, or as it was if it is not one to put back. */
  ghost function PutBack(original: Files, entry: Entry): Option<FileState> {
    if IsAfter(original, entry) then entry.before else Look(original, entry.path)
  }

  /** From entry `i` on, files in their after state are put back; nothing else is different. */
  ghost predicate Undone(files: Files, original: Files, entries: seq<Entry>, i: nat) {
    && ElsewhereSame(files, original, entries)
    && forall j :: 0 <= j < |entries| ==>
         Look(files, entries[j].path)
           == if j < i then Look(original, entries[j].path) else PutBack(original, entries[j])
  }

  ghost predicate IsUndone(files: Files, original: Files, entries: seq<Entry>) {
    exists i: nat :: i <= |entries| && Undone(files, original, entries, i)
  }

  /** The paths are those of the entries, from `i` on, whose files are in neither state. */
  ghost predicate NamesTheOthers(paths: seq<Path>, original: Files, entries: seq<Entry>, i: nat) {
    && (forall j :: i <= j < |entries| ==> (entries[j].path in paths <==> IsNeither(original, entries[j])))
    && (forall path :: path in paths ==> exists j :: i <= j < |entries| && entries[j].path == path)
  }

  lemma VisitIsRestore(entries: seq<Entry>, i: nat, files: Files, script: seq<Event>, write: Write)
    requires i < |entries|
    requires var v := VisitUnder(entries[i], files, script);
      && v.visit.Restores? && write.path == entries[i].path && write.seen == v.seen && write.replaced == v.found
      && write.left == entries[i].before
    ensures RestoresSome(entries, write)
  {
    assert IsRestore(entries[i], write);
  }

  lemma OneRestore(entries: seq<Entry>, log: seq<Write>, more: seq<Write>, write: Write, past: seq<Event>, from: nat)
    requires more == log || (more == log + [write] && RestoresSome(entries, write))
    requires more != log ==> from <= write.at < |past| && Held(past, from, write.at - 1)
    ensures OnlyRestores(entries, log, more) && VisitsHeld(more, |log|, past, from)
    ensures Touched(more, |log|) == if more == log then [] else [write.path]
  {
    if more != log {
      TouchedAdds(log, more[..|log|], |log|);
    }
  }

  lemma VisitLeftAlone(entry: Entry, files: Files)
    ensures VisitUnder(entry, files, []).step.Ready?
  {
  }

  /** A file in neither state comes out of an undisturbed rollback as it was, however far that gets. */
  lemma EditedFilesAreSpared(files: Files, original: Files, entries: seq<Entry>, j: nat)
    requires IsUndone(files, original, entries) && j < |entries| && IsNeither(original, entries[j])
    ensures Look(files, entries[j].path) == Look(original, entries[j].path)
  {
  }

  /** One undisturbed visit puts its file back, or names it, or leaves it. */
  lemma UndoOne(entries: seq<Entry>, i: nat, files: Files, script: seq<Event>, original: Files, conflicts: seq<Path>)
    requires DistinctPaths(entries) && i < |entries| && Quiet(script)
    requires Undone(files, original, entries, i + 1) && NamesTheOthers(conflicts, original, entries, i + 1)
    ensures var v := VisitUnder(entries[i], files, script);
      && (v.step.Ready? ==> Undone(v.files, original, entries, i))
      && (!v.step.Ready? ==> v.files == files)
      && (v.step.Ready? ==>
            NamesTheOthers(if v.visit.Conflicts? then conflicts + [entries[i].path] else conflicts,
                           original, entries, i))
  {
    QuietStep(files, script);
    QuietStep(files, Rest(script));
    var v := VisitUnder(entries[i], files, script);
    assert Look(files, entries[i].path) == Look(original, entries[i].path);
    if v.step.Ready? {
      assert v.visit.Conflicts? <==> IsNeither(original, entries[i]);
      forall j | 0 <= j < |entries|
        ensures j != i ==> Look(v.files, entries[j].path) == Look(files, entries[j].path)
        ensures j == i ==> Look(v.files, entries[j].path) == PutBack(original, entries[j])
      {
      }
      NameOne(entries, i, original, conflicts);
    }
  }

  lemma NameOne(entries: seq<Entry>, i: nat, original: Files, conflicts: seq<Path>)
    requires DistinctPaths(entries) && i < |entries| && NamesTheOthers(conflicts, original, entries, i + 1)
    ensures NamesTheOthers(if IsNeither(original, entries[i]) then conflicts + [entries[i].path] else conflicts,
                           original, entries, i)
  {
    assert forall j :: i + 1 <= j < |entries| ==> entries[j].path != entries[i].path;
    assert entries[i].path !in conflicts;
  }

  /** Nobody named means every file was before or after, and so is before now. */
  lemma NobodyElse(conflicts: seq<Path>, files: Files, original: Files, entries: seq<Entry>)
    requires Undone(files, original, entries, 0) && NamesTheOthers(conflicts, original, entries, 0)
    ensures conflicts == [] <==> BeforeOrAfter(original, entries)
    ensures conflicts == [] ==> AllBefore(files, entries)
  {
    if conflicts != [] {
      assert conflicts[0] in conflicts;
    }
  }

  /** Undoing files that are all before or after keeps them so. */
  lemma UndoneStaysBetween(files: Files, original: Files, entries: seq<Entry>)
    requires IsUndone(files, original, entries) && BeforeOrAfter(original, entries)
    ensures BeforeOrAfter(files, entries) && ElsewhereSame(files, original, entries)
  {
    forall j | 0 <= j < |entries| ensures IsBefore(files, entries[j]) || IsAfter(files, entries[j]) {
      assert IsBefore(original, entries[j]) || IsAfter(original, entries[j]);
    }
  }

  // ---------------------------------------------------------------------------
  // What applying promises
  // ---------------------------------------------------------------------------

  /** One path is the other, or lies below it. */
  predicate Overlap(a: Path, b: Path) {
    a == b || a + [SEPARATOR] <= b || b + [SEPARATOR] <= a
  }

  /** A path that is another, or begins with it and a separator. */
  ghost predicate IsWithin(a: Path, b: Path) {
    exists rest: Path :: a == b + rest && (rest == [] || rest[0] == SEPARATOR)
  }

  lemma OverlapIsNesting(a: Path, b: Path)
    ensures Overlap(a, b) <==> IsWithin(a, b) || IsWithin(b, a)
  {
    if b <= a {
      assert a == b + a[|b|..];
    }
    if a <= b {
      assert b == a + b[|a|..];
    }
    assert a + [SEPARATOR] <= b ==> b[|a|..][0] == SEPARATOR;
    assert b + [SEPARATOR] <= a ==> a[|b|..][0] == SEPARATOR;
    if rest: Path :| a == b + rest && (rest == [] || rest[0] == SEPARATOR) {
      assert rest != [] ==> rest == [SEPARATOR] + rest[1..];
    }
    if rest: Path :| b == a + rest && (rest == [] || rest[0] == SEPARATOR) {
      assert rest != [] ==> rest == [SEPARATOR] + rest[1..];
    }
  }

  predicate OverlapsAny(entries: seq<Entry>, path: Path) {
    exists j :: 0 <= j < |entries| && Overlap(entries[j].path, path)
  }

  lemma OverlapsRecorded(entries: seq<Entry>, plan: seq<PlanFile>, i: nat)
    requires |entries| == i < |plan| && forall j :: 0 <= j < i ==> RecordsPlan(entries[j], plan[j])
    ensures OverlapsAny(entries, plan[i].path) <==> exists j :: 0 <= j < i && Overlap(plan[j].path, plan[i].path)
  {
    if j :| 0 <= j < i && Overlap(plan[j].path, plan[i].path) {
      assert entries[j].path == plan[j].path;
    }
  }

  predicate RecordsPlan(entry: Entry, file: PlanFile) {
    entry.path == file.path && TextOf(entry.before) == file.expected && entry.after.text == file.content
  }

  ghost predicate RecordsAll(entries: seq<Entry>, plan: seq<PlanFile>) {
    |entries| == |plan| && forall i :: 0 <= i < |plan| ==> RecordsPlan(entries[i], plan[i])
  }

  /** Every file of the plan has the text planned for it. */
  ghost predicate AsPlanned(files: Files, plan: seq<PlanFile>) {
    forall i :: 0 <= i < |plan| ==> TextOf(Look(files, plan[i].path)) == Some(plan[i].content)
  }

  lemma InstalledAsPlanned(files: Files, entries: seq<Entry>, plan: seq<PlanFile>)
    requires RecordsAll(entries, plan) && AllAfter(files, entries)
    ensures AsPlanned(files, plan)
  {
    forall i | 0 <= i < |plan| ensures TextOf(Look(files, plan[i].path)) == Some(plan[i].content) {
      assert RecordsPlan(entries[i], plan[i]) && IsAfter(files, entries[i]);
    }
  }

  predicate IsApplying(journal: Option<Journal>) {
    journal.Some? && journal.value.status.Applying?
  }

  /** The recorded after mode is the one that writing without a mode leaves. */
  ghost predicate ModesKept(entries: seq<Entry>, defaultMode: nat) {
    forall i :: 0 <= i < |entries| ==>
      entries[i].after.mode == if entries[i].before.Some? then entries[i].before.value.mode else defaultMode
  }

  /** A write that puts an entry's after text over its before text. */
  ghost predicate IsInstall(entry: Entry, write: Write) {
    && write.path == entry.path && write.seen == entry.before
    && TextOf(write.replaced) == TextOf(entry.before) && TextOf(write.left) == Some(entry.after.text)
  }

  /** The writes made are those of the entries, in order. */
  ghost predicate OnlyInstalls(entries: seq<Entry>, before: seq<Write>, after: seq<Write>) {
    && |before| <= |after| <= |before| + |entries| && after[..|before|] == before
    && forall k :: |before| <= k < |after| ==> IsInstall(entries[k - |before|], after[k])
  }

  lemma InstallsGrow(entries: seq<Entry>, before: seq<Write>, log: seq<Write>, more: seq<Write>, i: nat)
    requires i < |entries| && OnlyInstalls(entries, before, log) && |log| == |before| + i
    requires |more| == |log| + 1 && more[..|log|] == log && IsInstall(entries[i], more[|log|])
    ensures OnlyInstalls(entries, before, more)
  {
    assert more[..|before|] == log[..|before|];
    forall k | |before| <= k < |more| ensures IsInstall(entries[k - |before|], more[k]) {
      assert k < |log| ==> more[k] == log[k];
    }
  }

  ghost predicate InstallsThenRestores(entries: seq<Entry>, before: seq<Write>, after: seq<Write>) {
    exists m :: 0 <= m <= |after| && OnlyInstalls(entries, before, after[..m])
      && OnlyRestores(entries, after[..m], after)
  }

  /** A journal a setup with these entries may leave: the one it found, or one of its own. */
  ghost predicate ComesFrom(journal: Option<Journal>, previous: Option<Journal>, entries: seq<Entry>) {
    journal == previous || (DistinctPaths(entries) && journal.Some? && journal.value.entries == entries)
  }

  lemma RestoresMore(entries: seq<Entry>, before: seq<Write>, middle: seq<Write>, after: seq<Write>)
    requires InstallsThenRestores(entries, before, middle) && (after == middle || OnlyRestores(entries, middle, after))
    ensures InstallsThenRestores(entries, before, after)
  {
    var m :| 0 <= m <= |middle| && OnlyInstalls(entries, before, middle[..m])
      && OnlyRestores(entries, middle[..m], middle);
    assert after[..|middle|] == middle && after[..m] == middle[..m];
    forall k | m <= k < |after| ensures RestoresSome(entries, after[k]) {
      if k < |middle| {
        assert after[k] == middle[k];
      }
    }
  }

  lemma NoWrites(log: seq<Write>)
    ensures forall entries :: InstallsThenRestores(entries, log, log)
  {
    forall entries: seq<Entry> ensures InstallsThenRestores(entries, log, log) {
      Split(entries, log, log, log);
    }
  }

  lemma Split(entries: seq<Entry>, before: seq<Write>, middle: seq<Write>, after: seq<Write>)
    requires OnlyInstalls(entries, before, middle) && OnlyRestores(entries, middle, after)
    ensures InstallsThenRestores(entries, before, after)
  {
    assert after[..|middle|] == middle;
  }

  /** The first `i` files are in their after state, the rest in their before state, everything else untouched. */
  ghost predicate Installed(files: Files, original: Files, entries: seq<Entry>, i: nat)
    requires i <= |entries|
  {
    AllAfter(files, entries[..i]) && AllBefore(files, entries[i..]) && ElsewhereSame(files, original, entries)
  }

  lemma InstallOne(entries: seq<Entry>, i: nat, before: Files, after: Files, original: Files, defaultMode: nat)
    requires i < |entries| && DistinctPaths(entries) && Installed(before, original, entries, i)
    requires ModesKept(entries, defaultMode)
    requires var current := Look(before, entries[i].path);
      after == before[entries[i].path :=
        FileState(entries[i].after.text, if current.Some? then current.value.mode else defaultMode)]
    ensures Installed(after, original, entries, i + 1)
  {
    assert entries[i..][0] == entries[i];
    assert IsBefore(before, entries[i]);
    assert entries[i].after == FileState(entries[i].after.text, entries[i].after.mode);
    var done, left := entries[..i + 1], entries[i + 1..];
    forall j | 0 <= j < |done| ensures IsAfter(after, done[j]) {
      if j < i {
        assert entries[..i][j] == entries[j] && IsAfter(before, entries[j]);
      }
    }
    forall j | 0 <= j < |left| ensures IsBefore(after, left[j]) {
      assert entries[i..][j + 1] == entries[i + 1 + j] && IsBefore(before, entries[i + 1 + j]);
    }
  }

  /** Where an undisturbed installation of recorded files can stop. */
  ghost predicate Carried(files: Files, journal: Journal, original: Files, entries: seq<Entry>) {
    && ElsewhereSame(files, original, entries) && BeforeOrAfter(files, entries)
    && (journal.status.Completed? ==> AllAfter(files, entries))
    && (journal.status.RolledBack? ==> AllBefore(files, entries))
  }

  /**
   * The state of the world at any moment of a setup that nobody else disturbs: each file before or after, the journal
   * telling which promises hold.
   */
  ghost predicate Sound(files: Files, journal: Option<Journal>, original: Files, previous: Option<Journal>,
                        entries: seq<Entry>) {
    && DistinctPaths(entries) && AllBefore(original, entries)
    && ElsewhereSame(files, original, entries) && BeforeOrAfter(files, entries)
    && !IsApplying(previous) && (previous.Some? ==> DistinctPaths(previous.value.entries))
    && (|| (journal == previous && AllBefore(files, entries))
        || journal == Some(Journal(Applying, entries))
        || (journal == Some(Journal(Completed, entries)) && AllAfter(files, entries))
        || (journal == Some(Journal(RolledBack, entries)) && AllBefore(files, entries)))
  }

  lemma NothingMoved(files: Files, original: Files, entries: seq<Entry>)
    requires AllBefore(files, entries) && AllBefore(original, entries) && ElsewhereSame(files, original, entries)
    ensures files == original
  {
    forall path ensures Look(files, path) == Look(original, path) {
      if i :| 0 <= i < |entries| && entries[i].path == path {
        assert IsBefore(files, entries[i]) && IsBefore(original, entries[i]);
      }
    }
    forall path ensures path in files <==> path in original {
      assert Look(files, path) == Look(original, path);
    }
    forall path | path in files ensures files[path] == original[path] {
      assert Look(files, path) == Look(original, path);
    }
  }
}
