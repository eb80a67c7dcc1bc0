/**
 Exactly when a dry run predicts an apply, and exactly when an apply settles, for manifests whose
 entries may share targets; and that both hold when targets are separate.
 */
module MetarepoShared {
  import opened Wrappers
  import opened MetarepoSync
  import opened MetarepoLaws

  /** No backup lands on a target; targets may be shared. */
  ghost predicate KeepsBackupsApart(w: World, items: seq<Item>) {
    forall item <- items, other <- items :: item.Copy? && other.Copy? ==> w.backupOf(item.path) != other.path
  }

  // ----- runs, one item more at a time -----

  lemma OneMoreItem(w: World, apply: bool, st: State, items: seq<Item>, j: nat)
    requires j < |items|
    ensures RunItems(w, apply, st, items[..j + 1]) == RunItem(w, apply, RunItems(w, apply, st, items[..j]), items[j])
  {
    assert items[..j + 1] == items[..j] + [items[j]];
    RunItemsSplits(w, apply, st, items[..j], [items[j]]);
    OneItem(w, apply, RunItems(w, apply, st, items[..j]), items[j]);
  }

  /** The decision that the report records for an item. */
  function Recorded(w: World, files: Files, item: Item): Decision {
    if item.Broken? then Decision(Error, item.reason) else Decide(w, files, item)
  }

  function DetailOf(item: Item, d: Decision): Detail { Detail(item.id, item.target, d.action, d.reason) }

  /** In either mode a writable item is recorded with the decision taken on the files at that point. */
  lemma ItemIsRecorded(w: World, apply: bool, st: State, item: Item)
    requires item.Copy? ==> item.path !in w.unwritable && item.path !in w.noBackup
    ensures RunItem(w, apply, st, item).report == st.report.Record(DetailOf(item, Recorded(w, st.files, item)))
    ensures !apply ==> RunItem(w, apply, st, item).files == st.files
  {}

  lemma {:induction false} DryRunKeepsFiles(w: World, st: State, items: seq<Item>)
    requires AreWritable(w, items)
    ensures RunItems(w, false, st, items).files == st.files
    decreases |items|
  {
    if items != [] {
      assert items[0] in items;
      ItemIsRecorded(w, false, st, items[0]);
      DryRunKeepsFiles(w, RunItem(w, false, st, items[0]), items[1..]);
    }
  }

  lemma {:induction false} DetailsGrow(w: World, apply: bool, st: State, items: seq<Item>)
    ensures st.report.details <= RunItems(w, apply, st, items).report.details
    decreases |items|
  {
    if items != [] { DetailsGrow(w, apply, RunItem(w, apply, st, items[0]), items[1..]); }
  }

  lemma DetailsOfPrefix(w: World, apply: bool, st: State, items: seq<Item>, j: nat)
    requires j <= |items|
    ensures RunItems(w, apply, st, items[..j]).report.details <= RunItems(w, apply, st, items).report.details
  {
    assert items == items[..j] + items[j..];
    RunItemsSplits(w, apply, st, items[..j], items[j..]);
    DetailsGrow(w, apply, RunItems(w, apply, st, items[..j]), items[j..]);
  }

  // ----- when a dry run predicts an apply -----

  /** The item would write to its target. */
  predicate IsWriter(w: World, files: Files, item: Item) {
    item.Copy? && WritesTarget(Decide(w, files, item))
  }

  /** The last of the first `j` items that a dry run would write to `p`. */
  function LastWriter(w: World, files: Files, items: seq<Item>, p: Path, j: nat): (r: Option<nat>)
    requires j <= |items|
    ensures r.Some? ==> r.value < j && items[r.value].Copy? && items[r.value].path == p
  {
    if j == 0 then None
    else if IsWriter(w, files, items[j - 1]) && items[j - 1].path == p then Some(j - 1)
    else LastWriter(w, files, items, p, j - 1)
  }

  lemma {:induction false} LastWriterIs(w: World, files: Files, items: seq<Item>, p: Path, j: nat, i: nat)
    requires i < j <= |items|
    ensures LastWriter(w, files, items, p, j) == Some(i) <==>
            && IsWriter(w, files, items[i]) && items[i].path == p
            && forall k :: i < k < j && IsWriter(w, files, items[k]) ==> items[k].path != p
  {
    if i < j - 1 {
      LastWriterIs(w, files, items, p, j - 1, i);
    }
  }

  /** The files as the dry run leads one to expect them at `p` before item `j`. */
  function Expected(w: World, files: Files, items: seq<Item>, p: Path, j: nat): Files
    requires j <= |items|
  {
    match LastWriter(w, files, items, p, j)
    case None => files
    case Some(i) => files[p := items[i].data]
  }

  /** What the last earlier writer of its target leaves there does not change the decision for item `j`. */
  predicate IsUnaffected(w: World, files: Files, items: seq<Item>, j: nat)
    requires j < |items|
  {
    items[j].Copy? ==>
      Decide(w, Expected(w, files, items, items[j].path, j), items[j]) == Decide(w, files, items[j])
  }

  /** As long as all decisions are unaffected, apply and dry run have the same report and the expected files. */
  ghost predicate InStep(w: World, files: Files, items: seq<Item>, j: nat)
    requires j <= |items|
  {
    var applied := RunItems(w, true, State(files, EMPTY_REPORT), items[..j]);
    && applied.report == RunItems(w, false, State(files, EMPTY_REPORT), items[..j]).report
    && forall item <- items :: item.Copy? ==> HoldsExpected(w, files, items, j, applied.files, item.path)
  }

  predicate HoldsExpected(w: World, files: Files, items: seq<Item>, j: nat, now: Files, p: Path)
    requires j <= |items|
  {
    At(now, p) == At(Expected(w, files, items, p, j), p)
  }

  lemma InStepAtStart(w: World, files: Files, items: seq<Item>)
    ensures InStep(w, files, items, 0)
  {
    assert items[..0] == [];
  }

  /** Carrying out item `j` with the decision of the dry run leads to the files expected after it. */
  lemma ExpectedAfterItem(w: World, files: Files, items: seq<Item>, j: nat, st: State, p: Path)
    requires j < |items| && AreWritable(w, items) && KeepsBackupsApart(w, items)
    requires HoldsExpected(w, files, items, j, st.files, p)
    requires exists item <- items :: item.Copy? && item.path == p
    requires items[j].Copy? ==> Decide(w, st.files, items[j]) == Decide(w, files, items[j])
    ensures HoldsExpected(w, files, items, j + 1, RunItem(w, true, st, items[j]).files, p)
  {
    assert items[j] in items;
    if items[j].Copy? { ItemWrites(w, st, items[j], p); }
  }

  lemma InStepAdvances(w: World, files: Files, items: seq<Item>, j: nat)
    requires j < |items| && AreWritable(w, items) && KeepsBackupsApart(w, items)
    requires InStep(w, files, items, j) && IsUnaffected(w, files, items, j)
    ensures InStep(w, files, items, j + 1)
  {
    var start, item := State(files, EMPTY_REPORT), items[j];
    var applied, dry := RunItems(w, true, start, items[..j]), RunItems(w, false, start, items[..j]);
    assert item in items;
    OneMoreItem(w, true, start, items, j);
    OneMoreItem(w, false, start, items, j);
    DryRunKeepsFiles(w, start, items[..j]);
    SameDecision(w, files, items, j);
    ItemIsRecorded(w, true, applied, item);
    ItemIsRecorded(w, false, dry, item);
    forall other <- items | other.Copy?
      ensures HoldsExpected(w, files, items, j + 1, RunItem(w, true, applied, item).files, other.path)
    {
      ExpectedAfterItem(w, files, items, j, applied, other.path);
    }
  }

  /** In step, apply decides on item `j` as one would on the expected files. */
  lemma SameDecision(w: World, files: Files, items: seq<Item>, j: nat)
    requires j < |items| && InStep(w, files, items, j)
    ensures var now := RunItems(w, true, State(files, EMPTY_REPORT), items[..j]).files;
            items[j].Copy? ==>
              Decide(w, now, items[j]) == Decide(w, Expected(w, files, items, items[j].path, j), items[j])
  {
    var now := RunItems(w, true, State(files, EMPTY_REPORT), items[..j]).files;
    if items[j].Copy? {
      assert items[j] in items && HoldsExpected(w, files, items, j, now, items[j].path);
      DecisionIsLocal(w, now, Expected(w, files, items, items[j].path, j), items[j]);
    }
  }

  lemma OutOfStep(w: World, files: Files, items: seq<Item>, j: nat)
    requires j < |items| && AreWritable(w, items)
    requires InStep(w, files, items, j) && !IsUnaffected(w, files, items, j)
    ensures RunItems(w, true, State(files, EMPTY_REPORT), items).report
         != RunItems(w, false, State(files, EMPTY_REPORT), items).report
  {
    var start, item := State(files, EMPTY_REPORT), items[j];
    var applied, dry := RunItems(w, true, start, items[..j]), RunItems(w, false, start, items[..j]);
    assert item in items;
    OneMoreItem(w, true, start, items, j);
    OneMoreItem(w, false, start, items, j);
    DryRunKeepsFiles(w, start, items[..j]);
    SameDecision(w, files, items, j);
    ItemIsRecorded(w, true, applied, item);
    ItemIsRecorded(w, false, dry, item);
    var n := |dry.report.details|;
    DetailsOfPrefix(w, true, start, items, j + 1);
    DetailsOfPrefix(w, false, start, items, j + 1);
    assert RunItems(w, true, start, items[..j + 1]).report.details[n]
        != RunItems(w, false, start, items[..j + 1]).report.details[n];
  }

  lemma {:induction false} InStepWhileUnaffected(w: World, files: Files, items: seq<Item>, j: nat)
    requires j <= |items| && AreWritable(w, items) && KeepsBackupsApart(w, items)
    requires forall k :: 0 <= k < j ==> IsUnaffected(w, files, items, k)
    ensures InStep(w, files, items, j)
  {
    if j == 0 {
      InStepAtStart(w, files, items);
    } else {
      InStepWhileUnaffected(w, files, items, j - 1);
      InStepAdvances(w, files, items, j - 1);
    }
  }

  /**
   A dry run reports what an apply reports exactly if no item's decision is changed by what the last
   earlier writer of its target would leave there.
   */
  lemma DryRunPredictsIff(w: World, files: Files, items: seq<Item>)
    requires AreWritable(w, items) && KeepsBackupsApart(w, items)
    ensures SyncItems(w, false, files, items).report == SyncItems(w, true, files, items).report <==>
            forall j :: 0 <= j < |items| ==> IsUnaffected(w, files, items, j)
  {
    if forall j :: 0 <= j < |items| ==> IsUnaffected(w, files, items, j) {
      InStepWhileUnaffected(w, files, items, |items|);
      assert items[..|items|] == items;
    } else {
      var j := FirstAffected(w, files, items, |items|);
      InStepWhileUnaffected(w, files, items, j);
      OutOfStep(w, files, items, j);
    }
  }

  lemma {:induction false} FirstAffected(w: World, files: Files, items: seq<Item>, n: nat) returns (j: nat)
    requires n <= |items| && exists k :: 0 <= k < n && !IsUnaffected(w, files, items, k)
    ensures j < n && !IsUnaffected(w, files, items, j)
    ensures forall k :: 0 <= k < j ==> IsUnaffected(w, files, items, k)
  {
    if k :| 0 <= k < n - 1 && !IsUnaffected(w, files, items, k) {
      j := FirstAffected(w, files, items, n - 1);
    } else {
      j := n - 1;
    }
  }

  // ----- when an apply settles -----

  /** What a target holds after one more item, given what it held before. */
  function HeldAfter(w: World, p: Path, held: Option<Bytes>, item: Item): Option<Bytes> {
    if item.Copy? && item.path == p && WritesTarget(Decide(w, Holding(p, held), item)) then Some(item.data) else held
  }

  function Holding(p: Path, held: Option<Bytes>): Files {
    if held.Some? then map[p := held.value] else map[]
  }

  function HeldAfterAll(w: World, p: Path, held: Option<Bytes>, items: seq<Item>): Option<Bytes>
    decreases |items|
  {
    if items == [] then held else HeldAfterAll(w, p, HeldAfter(w, p, held, items[0]), items[1..])
  }

  /** What an apply leaves at a target depends on what was there alone. */
  lemma {:induction false} TargetAfterApply(w: World, st: State, items: seq<Item>, p: Path)
    requires AreWritable(w, items) && forall item <- items :: item.Copy? ==> w.backupOf(item.path) != p
    ensures At(RunItems(w, true, st, items).files, p) == HeldAfterAll(w, p, At(st.files, p), items)
    decreases |items|
  {
    if items != [] {
      var item := items[0];
      assert item in items;
      if item.Copy? {
        ItemWrites(w, st, item, p);
        if item.path == p { DecisionIsLocal(w, st.files, Holding(p, At(st.files, p)), item); }
      }
      TargetAfterApply(w, RunItem(w, true, st, item), items[1..], p);
    }
  }

  // The copies in mode "copy" of one target decide its fate.

  function CopiesFor(items: seq<Item>, p: Path): seq<Bytes> {
    if items == [] then []
    else
      (if items[0].Copy? && items[0].path == p && items[0].mode == "copy" then [items[0].data] else [])
      + CopiesFor(items[1..], p)
  }

  /** What stands at the target first: the file, or else the first item's data. */
  function StartAt(held: Option<Bytes>, items: seq<Item>, p: Path): Option<Bytes> {
    if held.Some? || items == [] then held
    else if items[0].Copy? && items[0].path == p then Some(items[0].data)
    else StartAt(held, items[1..], p)
  }

  /** A copy replaces managed content of another hash. */
  function Evolve(w: World, held: Bytes, copies: seq<Bytes>): Bytes
    decreases |copies|
  {
    if copies == [] then held
    else Evolve(w, if w.sha(held) != w.sha(copies[0]) && w.hasMarker(held) then copies[0] else held, copies[1..])
  }

  lemma {:induction false} PresentEvolves(w: World, held: Bytes, items: seq<Item>, p: Path)
    requires AreHonest(w, items) && p !in w.unreadable
    ensures HeldAfterAll(w, p, Some(held), items) == Some(Evolve(w, held, CopiesFor(items, p)))
    decreases |items|
  {
    if items != [] {
      var item, rest := items[0], CopiesFor(items[1..], p);
      assert item in items;
      var next := HeldAfter(w, p, Some(held), item);
      PresentEvolves(w, next.value, items[1..], p);
      if item.Copy? && item.path == p && item.mode == "copy" {
        assert ([item.data] + rest)[1..] == rest;
      } else {
        assert [] + rest == rest;
      }
    }
  }

  lemma {:induction false} TargetEvolves(w: World, held: Option<Bytes>, items: seq<Item>, p: Path)
    requires AreHonest(w, items) && p !in w.unreadable && exists item <- items :: item.Copy? && item.path == p
    ensures StartAt(held, items, p).Some?
    ensures HeldAfterAll(w, p, held, items) == Some(Evolve(w, StartAt(held, items, p).value, CopiesFor(items, p)))
    decreases |items|
  {
    if held.Some? {
      PresentEvolves(w, held.value, items, p);
    } else if items[0].Copy? && items[0].path == p {
      var item, rest := items[0], CopiesFor(items[1..], p);
      PresentEvolves(w, item.data, items[1..], p);
      if item.mode == "copy" {
        assert ([item.data] + rest)[1..] == rest;
      } else {
        assert [] + rest == rest;
      }
    } else {
      TargetEvolves(w, held, items[1..], p);
      assert [] + CopiesFor(items[1..], p) == CopiesFor(items[1..], p);
    }
  }

  /** Every copy whose hash differs from what precedes it carries the marker. */
  predicate ChangesAreMarked(w: World, start: Bytes, copies: seq<Bytes>) {
    forall i :: 0 <= i < |copies| ==> IsMarkedChange(w, start, copies, i)
  }

  predicate IsMarkedChange(w: World, start: Bytes, copies: seq<Bytes>, i: nat)
    requires i < |copies|
  {
    w.sha(copies[i]) != w.sha(if i == 0 then start else copies[i - 1]) ==> w.hasMarker(copies[i])
  }

  predicate HaveTwoHashes(w: World, copies: seq<Bytes>) {
    exists i, j :: 0 <= i < |copies| && 0 <= j < |copies| && w.sha(copies[i]) != w.sha(copies[j])
  }

  /** The target is updated again and again. */
  predicate Churns(w: World, start: Bytes, copies: seq<Bytes>) {
    w.hasMarker(start) && ChangesAreMarked(w, start, copies) && HaveTwoHashes(w, copies)
  }

  lemma ChangesAfterFirst(w: World, held: Bytes, next: Bytes, copies: seq<Bytes>)
    requires copies != [] && w.sha(next) == w.sha(copies[0])
    ensures ChangesAreMarked(w, held, copies) <==>
            && (w.sha(copies[0]) != w.sha(held) ==> w.hasMarker(copies[0]))
            && ChangesAreMarked(w, next, copies[1..])
  {
    var rest := copies[1..];
    forall i | 0 <= i < |rest| ensures IsMarkedChange(w, next, rest, i) <==> IsMarkedChange(w, held, copies, i + 1) {
      assert rest[i] == copies[i + 1] && (i > 0 ==> rest[i - 1] == copies[i]);
    }
    assert IsMarkedChange(w, held, copies, 0) <==> (w.sha(copies[0]) != w.sha(held) ==> w.hasMarker(copies[0]));
    if IsMarkedChange(w, held, copies, 0) && ChangesAreMarked(w, next, rest) {
      forall i | 0 <= i < |copies| ensures IsMarkedChange(w, held, copies, i) {
        if i > 0 { assert IsMarkedChange(w, next, rest, i - 1); }
      }
    }
  }

  /** Managed content that only marked copies replace stays managed, and ends with the last copy's hash. */
  lemma {:induction false} EvolvesMarked(w: World, held: Bytes, copies: seq<Bytes>)
    requires w.hasMarker(held) && ChangesAreMarked(w, held, copies)
    ensures w.hasMarker(Evolve(w, held, copies))
    ensures copies != [] ==> w.sha(Evolve(w, held, copies)) == w.sha(copies[|copies| - 1])
    decreases |copies|
  {
    if copies != [] {
      var next := if w.sha(held) != w.sha(copies[0]) then copies[0] else held;
      ChangesAfterFirst(w, held, next, copies);
      EvolvesMarked(w, next, copies[1..]);
    }
  }

  lemma {:induction false} UnmarkedStays(w: World, held: Bytes, copies: seq<Bytes>)
    requires !w.hasMarker(held)
    ensures Evolve(w, held, copies) == held
    decreases |copies|
  {
    if copies != [] { UnmarkedStays(w, held, copies[1..]); }
  }

  /** The first unmarked copy that replaces something is never replaced. */
  lemma {:induction false} EndsUnmarked(w: World, held: Bytes, copies: seq<Bytes>)
    requires w.hasMarker(held) && !ChangesAreMarked(w, held, copies)
    ensures !w.hasMarker(Evolve(w, held, copies))
    decreases |copies|
  {
    var next := if w.sha(held) != w.sha(copies[0]) then copies[0] else held;
    ChangesAfterFirst(w, held, next, copies);
    if w.hasMarker(next) {
      EndsUnmarked(w, next, copies[1..]);
    } else {
      UnmarkedStays(w, next, copies[1..]);
    }
  }

  /** The next run updates a target that holds managed content of another hash than some copy. */
  predicate NeedsUpdate(w: World, held: Bytes, copies: seq<Bytes>) {
    w.hasMarker(held) && exists d <- copies :: w.sha(d) != w.sha(held)
  }

  lemma ChurnsIff(w: World, start: Bytes, copies: seq<Bytes>)
    ensures NeedsUpdate(w, Evolve(w, start, copies), copies) <==> Churns(w, start, copies)
  {
    var held := Evolve(w, start, copies);
    if !w.hasMarker(start) {
      UnmarkedStays(w, start, copies);
    } else if !ChangesAreMarked(w, start, copies) {
      EndsUnmarked(w, start, copies);
    } else {
      EvolvesMarked(w, start, copies);
      if HaveTwoHashes(w, copies) {
        var i, j :| 0 <= i < |copies| && 0 <= j < |copies| && w.sha(copies[i]) != w.sha(copies[j]);
        assert copies[i] in copies && copies[j] in copies;
      }
      if d :| d in copies && w.sha(d) != w.sha(held) {
        var i :| 0 <= i < |copies| && copies[i] == d;
        assert w.sha(copies[i]) != w.sha(copies[|copies| - 1]);
      }
    }
  }

  // ----- runs that write nothing -----

  function Writes(s: Summary): nat { s.add + s.update }

  lemma {:induction false} WritesGrow(w: World, apply: bool, st: State, items: seq<Item>)
    ensures Writes(RunItems(w, apply, st, items).report.summary) >= Writes(st.report.summary)
    decreases |items|
  {
    if items != [] { WritesGrow(w, apply, RunItem(w, apply, st, items[0]), items[1..]); }
  }

  lemma {:induction false} NothingWrittenIff(w: World, apply: bool, st: State, items: seq<Item>)
    requires AreWritable(w, items)
    ensures Writes(RunItems(w, apply, st, items).report.summary) == Writes(st.report.summary) <==>
            forall item <- items :: !IsWriter(w, st.files, item)
    decreases |items|
  {
    if items != [] {
      var next := RunItem(w, apply, st, items[0]);
      assert items[0] in items && items == [items[0]] + items[1..];
      ItemIsRecorded(w, apply, st, items[0]);
      if IsWriter(w, st.files, items[0]) {
        WritesGrow(w, apply, next, items[1..]);
      } else {
        NothingWrittenIff(w, apply, next, items[1..]);
      }
    }
  }

  /** Some item writes to `p`. */
  ghost predicate HasWriter(w: World, files: Files, items: seq<Item>, p: Path) {
    exists item <- items :: IsWriter(w, files, item) && item.path == p
  }

  lemma NoWritersIff(w: World, files: Files, items: seq<Item>)
    ensures (forall item <- items :: !IsWriter(w, files, item)) <==> forall p :: !HasWriter(w, files, items, p)
  {
    if item :| item in items && IsWriter(w, files, item) {
      assert HasWriter(w, files, items, item.path);
    }
  }

  lemma {:induction false} CopiesForIff(items: seq<Item>, p: Path, d: Bytes)
    ensures d in CopiesFor(items, p) <==>
            exists item <- items :: item.Copy? && item.path == p && item.mode == "copy" && item.data == d
    decreases |items|
  {
    if items != [] {
      CopiesForIff(items[1..], p, d);
      assert items == [items[0]] + items[1..];
    }
  }

  /** An item writes to `p`, which holds something, exactly if `p` is readable and needs an update. */
  lemma WriterIff(w: World, files: Files, items: seq<Item>, p: Path)
    requires AreHonest(w, items) && p in files
    ensures HasWriter(w, files, items, p) <==>
            p !in w.unreadable && NeedsUpdate(w, files[p], CopiesFor(items, p))
  {
    if item :| item in items && IsWriter(w, files, item) && item.path == p {
      CopiesForIff(items, p, item.data);
    }
    if p !in w.unreadable && NeedsUpdate(w, files[p], CopiesFor(items, p)) {
      var d :| d in CopiesFor(items, p) && w.sha(d) != w.sha(files[p]);
      CopiesForIff(items, p, d);
      var item :| item in items && item.Copy? && item.path == p && item.mode == "copy" && item.data == d;
      assert IsWriter(w, files, item);
    }
  }

  /** The target can be read, and the plan updates it again and again. */
  ghost predicate IsChurned(w: World, files: Files, items: seq<Item>, p: Path) {
    && p !in w.unreadable
    && StartAt(At(files, p), items, p).Some?
    && Churns(w, StartAt(At(files, p), items, p).value, CopiesFor(items, p))
  }

  /** What the run after an apply finds at a target. */
  lemma TargetAfterSync(w: World, files: Files, items: seq<Item>, item: Item)
    requires AreWritable(w, items) && KeepsBackupsApart(w, items) && AreHonest(w, items)
    requires LeavesReportAlone(w, items) && item in items && item.Copy?
    ensures var settled := SyncItems(w, true, files, items).files;
            && item.path in settled
            && (HasWriter(w, settled, items, item.path) <==> IsChurned(w, files, items, item.path))
  {
    var p, st := item.path, State(files, EMPTY_REPORT);
    var settled := SyncItems(w, true, files, items).files;
    TargetAfterApply(w, st, items, p);
    assert At(settled, p) == HeldAfterAll(w, p, At(files, p), items);
    TargetIsHeld(w, At(files, p), items, item);
    WriterIff(w, settled, items, p);
    if p !in w.unreadable {
      TargetEvolves(w, At(files, p), items, p);
      ChurnsIff(w, StartAt(At(files, p), items, p).value, CopiesFor(items, p));
    }
  }

  lemma {:induction false} TargetIsHeld(w: World, held: Option<Bytes>, items: seq<Item>, item: Item)
    requires held.Some? || (item in items && item.Copy?)
    ensures item.Copy? ==> HeldAfterAll(w, item.path, held, items).Some?
    decreases |items|
  {
    if items != [] && item.Copy? {
      TargetIsHeld(w, HeldAfter(w, item.path, held, items[0]), items[1..], item);
    }
  }

  /** After an apply, some item would write to a path exactly if the path is churned. */
  lemma WrittenIffChurned(w: World, files: Files, items: seq<Item>, p: Path)
    requires AreWritable(w, items) && KeepsBackupsApart(w, items) && AreHonest(w, items) && LeavesReportAlone(w, items)
    ensures HasWriter(w, SyncItems(w, true, files, items).files, items, p) <==> IsChurned(w, files, items, p)
  {
    if item :| item in items && item.Copy? && item.path == p {
      TargetAfterSync(w, files, items, item);
    } else {
      NoCopies(items, p);
    }
  }

  lemma SyncReports(w: World, apply: bool, files: Files, items: seq<Item>)
    ensures SyncItems(w, apply, files, items).report == RunItems(w, apply, State(files, EMPTY_REPORT), items).report
  {}

  predicate WritesNothing(r: Report) { r.summary.add == 0 && r.summary.update == 0 }

  lemma WritesNothingFrom(w: World, apply: bool, st: State, items: seq<Item>)
    requires AreWritable(w, items) && WritesNothing(st.report)
    ensures WritesNothing(RunItems(w, apply, st, items).report) <==> forall p :: !HasWriter(w, st.files, items, p)
  {
    NothingWrittenIff(w, apply, st, items);
    NoWritersIff(w, st.files, items);
  }

  lemma WritesNothingIff(w: World, apply: bool, files: Files, items: seq<Item>)
    requires AreWritable(w, items)
    ensures WritesNothing(SyncItems(w, apply, files, items).report) <==> forall p :: !HasWriter(w, files, items, p)
  {
    var st := Unstarted(files);
    SyncReports(w, apply, files, items);
    WritesNothingFrom(w, apply, st, items);
  }

  function Unstarted(files: Files): (st: State)
    ensures st.files == files && WritesNothing(st.report)
  {
    State(files, EMPTY_REPORT)
  }

  /**
   A run after an apply, in either mode, adds and updates nothing exactly if no target is churned:
   what stands there first is managed, every copy that changes the hash is marked, and the copies
   have two hashes.
   */
  lemma SettlesIff(w: World, apply: bool, files: Files, items: seq<Item>)
    requires AreWritable(w, items) && KeepsBackupsApart(w, items) && AreHonest(w, items) && LeavesReportAlone(w, items)
    ensures WritesNothing(SyncItems(w, apply, SyncItems(w, true, files, items).files, items).report) <==>
            forall p :: !IsChurned(w, files, items, p)
  {
    WritesNothingIff(w, apply, SyncItems(w, true, files, items).files, items);
    forall p
      ensures HasWriter(w, SyncItems(w, true, files, items).files, items, p) <==> IsChurned(w, files, items, p)
    {
      WrittenIffChurned(w, files, items, p);
    }
  }

  // ----- inputs, and the case of separate targets -----

  /** If two entries name one absent target, a dry run adds it twice and an apply does not. */
  lemma SharedTargetIsMispredicted(w: World, files: Files, first: Item, second: Item)
    requires first.Copy? && second.Copy? && first.path == second.path
    requires first.path !in files && first.path !in w.unwritable
    ensures SyncItems(w, false, files, [first, second]).report.summary.add == 2
    ensures SyncItems(w, true, files, [first, second]).report.summary.add == 1
    ensures !IsUnaffected(w, files, [first, second], 1)
  {
    var start, items := State(files, EMPTY_REPORT), [first, second];
    assert items[1..] == [second];
    var dry, applied := RunItem(w, false, start, first), RunItem(w, true, start, first);
    OneItem(w, false, dry, second);
    OneItem(w, true, applied, second);
    assert RunItems(w, false, start, items) == RunItem(w, false, dry, second);
    assert RunItems(w, true, start, items) == RunItem(w, true, applied, second);
    assert Decide(w, files, first).action == Add && first.path in applied.files;
    LastWriterIs(w, files, items, first.path, 1, 0);
  }

  /** Two marked copies of different hash for one managed file: every run after an apply updates it. */
  lemma SharedTargetDoesNotSettle(w: World, apply: bool, files: Files, first: Item, second: Item)
    requires first.Copy? && second.Copy? && first.path == second.path && first.mode == second.mode == "copy"
    requires AreWritable(w, [first, second]) && KeepsBackupsApart(w, [first, second])
    requires AreHonest(w, [first, second]) && LeavesReportAlone(w, [first, second])
    requires first.path in files && first.path !in w.unreadable && w.hasMarker(files[first.path])
    requires w.hasMarker(first.data) && w.hasMarker(second.data) && w.sha(first.data) != w.sha(second.data)
    ensures var settled := SyncItems(w, true, files, [first, second]).files;
            !WritesNothing(SyncItems(w, apply, settled, [first, second]).report)
  {
    var items, p := [first, second], first.path;
    assert items[1..] == [second] && items[1..][1..] == [];
    assert CopiesFor([second], p) == [second.data] + CopiesFor([], p);
    assert CopiesFor(items, p) == [first.data, second.data];
    var copies := CopiesFor(items, p);
    assert w.sha(copies[0]) != w.sha(copies[1]);
    assert first in items && IsChurned(w, files, items, p);
    SettlesIff(w, apply, files, items);
  }

  /** With separate targets no decision is affected and nothing is churned. */
  lemma SeparateTargetsAreFine(w: World, files: Files, items: seq<Item>)
    requires AreSeparate(w, items)
    ensures KeepsBackupsApart(w, items)
    ensures forall j :: 0 <= j < |items| ==> IsUnaffected(w, files, items, j)
    ensures forall p :: !IsChurned(w, files, items, p)
  {
    forall j | 0 <= j < |items| ensures IsUnaffected(w, files, items, j) {
      var writer := LastWriter(w, files, items, if items[j].Copy? then items[j].path else "", j);
    }
    forall p ensures !HaveTwoHashes(w, CopiesFor(items, p)) {
      if i :| 0 <= i < |items| && items[i].Copy? && items[i].path == p {
        OneCopyEach(items, p, i);
      } else {
        NoCopies(items, p);
      }
    }
  }

  /** A dry run reports what an apply from the same files reports, and writes only its report. */
  lemma DryRunPredictsApply(w: World, files: Files, items: seq<Item>)
    requires AreSeparate(w, items) && AreWritable(w, items)
    ensures var dry := SyncItems(w, false, files, items);
            && dry.report == SyncItems(w, true, files, items).report
            && forall p :: p != w.reportPath ==> At(dry.files, p) == At(files, p)
  {
    SeparateTargetsAreFine(w, files, items);
    DryRunPredictsIff(w, files, items);
    DryRunKeepsFiles(w, State(files, EMPTY_REPORT), items);
  }

  /** Whatever its mode, a run after an apply adds nothing, updates nothing and rewrites only its report. */
  lemma ApplySettles(w: World, apply: bool, files: Files, items: seq<Item>)
    requires AreSeparate(w, items) && AreWritable(w, items) && AreHonest(w, items) && LeavesReportAlone(w, items)
    ensures var settled := SyncItems(w, true, files, items).files;
            var again := SyncItems(w, apply, settled, items);
            && again.report.summary.add == 0 && again.report.summary.update == 0
            && forall p :: p != w.reportPath ==> At(again.files, p) == At(settled, p)
  {
    var settled := SyncItems(w, true, files, items).files;
    SeparateTargetsAreFine(w, files, items);
    SettlesIff(w, apply, files, items);
    QuietRunsWriteTheirReport(w, apply, settled, items);
  }

  lemma QuietRunsWriteTheirReport(w: World, apply: bool, files: Files, items: seq<Item>)
    requires AreWritable(w, items) && WritesNothing(SyncItems(w, apply, files, items).report)
    ensures forall p :: p != w.reportPath ==> At(SyncItems(w, apply, files, items).files, p) == At(files, p)
  {
    WritesNothingIff(w, apply, files, items);
    NoWritersIff(w, files, items);
    forall item <- items | item.Copy? ensures !WritesTarget(Decide(w, files, item)) {
      assert !IsWriter(w, files, item);
    }
    NothingToWrite(w, apply, State(files, EMPTY_REPORT), items);
  }

  /** A target of one item has at most one copy. */
  lemma {:induction false} OneCopyEach(items: seq<Item>, p: Path, i: nat)
    requires i < |items| && items[i].Copy? && items[i].path == p
    requires forall j :: 0 <= j < |items| && j != i && items[j].Copy? ==> items[j].path != p
    ensures |CopiesFor(items, p)| <= 1
    decreases |items|
  {
    if i == 0 {
      NoCopies(items[1..], p);
    } else {
      OneCopyEach(items[1..], p, i - 1);
    }
  }

  lemma {:induction false} NoCopies(items: seq<Item>, p: Path)
    requires forall item <- items :: item.Copy? ==> item.path != p
    ensures CopiesFor(items, p) == []
    decreases |items|
  {
    if items != [] {
      assert items[0] in items;
      NoCopies(items[1..], p);
    }
  }
}
