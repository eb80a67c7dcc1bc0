/**
 Laws of the sync of one repository: the report adds up, an apply writes what it decided and
 nothing else, and backs up what it replaces.
 */
module MetarepoLaws {
  import opened Wrappers
  import opened MetarepoSync

  function At(files: Files, p: Path): Option<Bytes> {
    if p in files then Some(files[p]) else None
  }

  // ----- the report adds up, whatever fails -----

  function CountActions(details: seq<Detail>): Summary {
    if details == [] then NO_ACTIONS
    else CountActions(details[..|details| - 1]).Count(details[|details| - 1].action)
  }

  predicate AddsUp(r: Report) {
    && r.summary == CountActions(r.details)
    && r.summary.Total() == |r.details|
    && (r.failed <==> r.summary.error > 0)
  }

  lemma RecordAddsUp(r: Report, d: Detail)
    requires AddsUp(r)
    ensures AddsUp(r.Record(d))
  {
    assert (r.details + [d])[..|r.details|] == r.details;
  }

  lemma {:induction false} RunAddsUp(w: World, apply: bool, st: State, items: seq<Item>)
    requires AddsUp(st.report)
    ensures AddsUp(RunItems(w, apply, st, items).report)
    decreases items
  {
    if items != [] {
      var next := RunItem(w, apply, st, items[0]);
      RecordAddsUp(st.report, next.report.details[|st.report.details|]);
      RunAddsUp(w, apply, next, items[1..]);
    }
  }

  lemma EmptyReportAddsUp()
    ensures AddsUp(EMPTY_REPORT)
  {}

  lemma ReportAddsUp(w: World, apply: bool, files: Files, items: seq<Item>)
    ensures AddsUp(SyncItems(w, apply, files, items).report)
  {
    EmptyReportAddsUp();
    RunAddsUp(w, apply, State(files, EMPTY_REPORT), items);
  }

  // ----- plans whose targets do not meet -----

  /** No two targets are one file, and no backup lands on a target. */
  ghost predicate AreSeparate(w: World, items: seq<Item>) {
    && (forall i, j :: 0 <= i < j < |items| && items[i].Copy? && items[j].Copy? ==> items[i].path != items[j].path)
    && (forall i, j :: 0 <= i < |items| && 0 <= j < |items| && items[i].Copy? && items[j].Copy? ==>
          w.backupOf(items[i].path) != items[j].path)
  }

  ghost predicate AreWritable(w: World, items: seq<Item>) {
    forall item <- items :: item.Copy? ==> item.path !in w.unwritable && item.path !in w.noBackup
  }

  lemma RestIsSeparate(w: World, items: seq<Item>)
    requires items != [] && AreSeparate(w, items)
    ensures AreSeparate(w, items[1..])
  {}

  /** A decision depends on the target file alone. */
  lemma DecisionIsLocal(w: World, files: Files, files': Files, item: Item)
    requires item.Copy? && At(files, item.path) == At(files', item.path)
    ensures Decide(w, files, item) == Decide(w, files', item)
  {}

  /** A writable item changes at most its target and, for an update, its backup. */
  lemma ItemWrites(w: World, st: State, item: Item, p: Path)
    requires item.Copy? && item.path !in w.unwritable && item.path !in w.noBackup
    ensures var after := RunItem(w, true, st, item).files;
            var d := Decide(w, st.files, item);
            At(after, p) == if WritesTarget(d) && p == item.path then Some(item.data)
                            else if d.action == Update && p == w.backupOf(item.path) then At(st.files, item.path)
                            else At(st.files, p)
  {}

  /** Carrying out the first item changes no later decision. */
  lemma LaterDecisionsStay(w: World, st: State, items: seq<Item>, later: Item)
    requires items != [] && AreSeparate(w, items) && AreWritable(w, items)
    requires later in items[1..] && later.Copy?
    ensures Decide(w, RunItem(w, true, st, items[0]).files, later) == Decide(w, st.files, later)
    ensures items[0].Copy? ==> later.path != items[0].path && w.backupOf(later.path) != items[0].path
  {
    var j :| 0 < j < |items| && items[j] == later;
    if items[0].Copy? {
      assert items[0].path != items[j].path && w.backupOf(items[0].path) != items[j].path;
      assert w.backupOf(items[j].path) != items[0].path;
      ItemWrites(w, st, items[0], later.path);
      DecisionIsLocal(w, RunItem(w, true, st, items[0]).files, st.files, later);
    }
  }

  /** What the items leave alone: paths that are neither a target nor the backup of an update. */
  lemma {:induction false} ApplyLeavesAlone(w: World, st: State, items: seq<Item>, p: Path)
    requires AreSeparate(w, items) && AreWritable(w, items)
    requires forall item <- items :: item.Copy? ==>
               p != item.path && (Decide(w, st.files, item).action == Update ==> p != w.backupOf(item.path))
    ensures At(RunItems(w, true, st, items).files, p) == At(st.files, p)
    decreases items
  {
    if items != [] {
      var item, next := items[0], RunItem(w, true, st, items[0]);
      if item.Copy? { ItemWrites(w, st, item, p); }
      forall later | later in items[1..] && later.Copy?
        ensures p != later.path && (Decide(w, next.files, later).action == Update ==> p != w.backupOf(later.path))
      {
        LaterDecisionsStay(w, st, items, later);
      }
      RestIsSeparate(w, items);
      ApplyLeavesAlone(w, next, items[1..], p);
    }
  }

  /** A target gets its source's data if the decision was to write it, and otherwise keeps its own. */
  lemma {:induction false} ApplyWritesTarget(w: World, st: State, items: seq<Item>, item: Item)
    requires AreSeparate(w, items) && AreWritable(w, items) && item in items && item.Copy?
    ensures At(RunItems(w, true, st, items).files, item.path)
         == if WritesTarget(Decide(w, st.files, item)) then Some(item.data) else At(st.files, item.path)
    decreases items
  {
    var first, next := items[0], RunItem(w, true, st, items[0]);
    RestIsSeparate(w, items);
    if item in items[1..] {
      LaterDecisionsStay(w, st, items, item);
      if first.Copy? {
        var j :| 0 < j < |items| && items[j] == item;
        assert w.backupOf(items[0].path) != items[j].path;
        ItemWrites(w, st, first, item.path);
      }
      ApplyWritesTarget(w, next, items[1..], item);
    } else {
      ItemWrites(w, st, item, item.path);
      forall later | later in items[1..] && later.Copy?
        ensures item.path != later.path && item.path != w.backupOf(later.path)
      {
        LaterDecisionsStay(w, st, items, later);
      }
      assert w.backupOf(items[0].path) != items[0].path;
      ApplyLeavesAlone(w, next, items[1..], item.path);
    }
  }

  /** An update leaves the old content under the backup's name, if backups have names of their own. */
  lemma {:induction false} ApplyBacksUp(w: World, st: State, items: seq<Item>, item: Item)
    requires AreSeparate(w, items) && AreWritable(w, items) && item in items && item.Copy?
    requires forall other <- items :: other.Copy? && other.path != item.path ==>
               w.backupOf(other.path) != w.backupOf(item.path)
    requires Decide(w, st.files, item).action == Update
    ensures At(RunItems(w, true, st, items).files, w.backupOf(item.path)) == At(st.files, item.path)
    decreases items
  {
    var first, next := items[0], RunItem(w, true, st, items[0]);
    RestIsSeparate(w, items);
    var k :| 0 <= k < |items| && items[k] == item;
    if item in items[1..] {
      LaterDecisionsStay(w, st, items, item);
      if first.Copy? {
        var j :| 0 < j < |items| && items[j] == item;
        assert w.backupOf(items[0].path) != items[j].path;
        ItemWrites(w, st, first, item.path);
      }
      ApplyBacksUp(w, next, items[1..], item);
    } else {
      ItemWrites(w, st, item, w.backupOf(item.path));
      forall later | later in items[1..] && later.Copy?
        ensures w.backupOf(item.path) != later.path && w.backupOf(item.path) != w.backupOf(later.path)
      {
        LaterDecisionsStay(w, st, items, later);
        var j :| 0 < j < |items| && items[j] == later;
        assert w.backupOf(items[0].path) != items[j].path;
      }
      assert w.backupOf(items[0].path) != items[0].path;
      ApplyLeavesAlone(w, next, items[1..], w.backupOf(item.path));
    }
  }

  // ----- an apply settles -----

  /** Hashes are those of the data that would be copied. */
  ghost predicate AreHonest(w: World, items: seq<Item>) {
    forall item <- items :: item.Copy? ==> item.hash == Digest(w.sha(item.data))
  }

  /** After an apply, a target that was written is identical to its source; the others decide as before. */
  lemma DecisionAfterApply(w: World, st: State, items: seq<Item>, files: Files, item: Item)
    requires AreSeparate(w, items) && AreWritable(w, items) && AreHonest(w, items)
    requires item in items && item.Copy?
    requires At(files, item.path) == At(RunItems(w, true, st, items).files, item.path)
    ensures WritesTarget(Decide(w, st.files, item)) ==>
              Decide(w, files, item) == if item.path in w.unreadable then Decision(Error, "target_hash_failed")
                                        else Decision(Skip, "identical")
    ensures !WritesTarget(Decide(w, st.files, item)) ==> Decide(w, files, item) == Decide(w, st.files, item)
  {
    ApplyWritesTarget(w, st, items, item);
  }

  lemma {:induction false} NothingToWrite(w: World, apply: bool, st: State, items: seq<Item>)
    requires forall item <- items :: item.Copy? ==> !WritesTarget(Decide(w, st.files, item))
    ensures var after := RunItems(w, apply, st, items);
            && after.files == st.files
            && after.report.summary.add == st.report.summary.add
            && after.report.summary.update == st.report.summary.update
    decreases items
  {
    if items != [] {
      NothingToWrite(w, apply, RunItem(w, apply, st, items[0]), items[1..]);
    }
  }

  /** The report file is neither a target nor the backup of one. */
  ghost predicate LeavesReportAlone(w: World, items: seq<Item>) {
    forall item <- items :: item.Copy? ==> item.path != w.reportPath && w.backupOf(item.path) != w.reportPath
  }

  /** If two entries manage one file with different content, every apply overwrites it again. */
  lemma SharedTargetNeverSettles(w: World, st: State, p: Path, first: Item, second: Item)
    requires first.Copy? && second.Copy? && first.path == second.path == p
    requires first.mode == second.mode == "copy"
    requires AreHonest(w, [first, second]) && AreWritable(w, [first, second]) && p !in w.unreadable
    requires w.sha(first.data) != w.sha(second.data) && w.hasMarker(first.data) && w.hasMarker(second.data)
    requires p in st.files && w.hasMarker(st.files[p]) && w.backupOf(p) != p
    ensures var after := RunItems(w, true, st, [first, second]);
            At(after.files, p) == Some(second.data) && after.report.summary.update > st.report.summary.update
  {
    var items := [first, second];
    assert first in items && second in items;
    var mid := RunItem(w, true, st, first);
    assert items[1..] == [second];
    OneItem(w, true, mid, second);
    assert RunItems(w, true, st, items) == RunItem(w, true, mid, second);
    ItemWrites(w, st, first, p);
    ItemWrites(w, mid, second, p);
    assert At(mid.files, p) == Some(first.data) || At(mid.files, p) == At(st.files, p);
  }

  /** The files after `n` applies of one plan. */
  function AppliedTimes(w: World, files: Files, items: seq<Item>, n: nat): Files {
    if n == 0 then files else SyncItems(w, true, AppliedTimes(w, files, items, n - 1), items).files
  }

  /** However often the plan is applied, the next apply updates the shared target once more. */
  lemma {:induction false} SharedTargetIsAlwaysUpdated(w: World, files: Files, p: Path, first: Item, second: Item,
                                                       n: nat)
    requires first.Copy? && second.Copy? && first.path == second.path == p
    requires first.mode == second.mode == "copy"
    requires AreHonest(w, [first, second]) && AreWritable(w, [first, second]) && p !in w.unreadable
    requires w.sha(first.data) != w.sha(second.data) && w.hasMarker(first.data) && w.hasMarker(second.data)
    requires p in files && w.hasMarker(files[p]) && w.backupOf(p) != p && w.reportPath != p
    ensures var now := AppliedTimes(w, files, [first, second], n);
            && p in now && w.hasMarker(now[p]) && (n > 0 ==> now[p] == second.data)
            && SyncItems(w, true, now, [first, second]).report.summary.update > 0
  {
    var items := [first, second];
    var now := AppliedTimes(w, files, items, n);
    if n > 0 {
      var before := AppliedTimes(w, files, items, n - 1);
      SharedTargetIsAlwaysUpdated(w, files, p, first, second, n - 1);
      SharedTargetNeverSettles(w, State(before, EMPTY_REPORT), p, first, second);
    }
    SharedTargetNeverSettles(w, State(now, EMPTY_REPORT), p, first, second);
  }
}
