/**
 What the report of a sync covers and says, and what a sync writes, in terms of the manifest's
 entries and the files alone.
 */
module MetarepoCoverage {
  import opened Wrappers
  import opened MetarepoSync
  import opened MetarepoLaws
  import opened MetarepoHub

  // ----- which entries are selected -----

  /** The id is the filter text, or continues it after a slash or a colon. */
  ghost predicate Matches(id: string, t: string) {
    id == t || (exists rest :: id == t + "/" + rest) || (exists rest :: id == t + ":" + rest)
  }

  lemma PrefixIff(p: string, s: string)
    ensures p <= s <==> exists rest :: s == p + rest
  {
    if p <= s { assert s == p + s[|p|..]; }
  }

  lemma MatchesIff(id: string, t: string)
    ensures Matches(id, t) <==> id == t || t + "/" <= id || t + ":" <= id
  {
    PrefixIff(t + "/", id);
    PrefixIff(t + ":", id);
  }

  /** An empty filter selects every entry, and a filter the entries that one of its texts matches. */
  lemma SelectedIff(e: Entry, filter: seq<string>)
    ensures IsSelected(e, filter) <==>
              filter == [] || exists t <- filter :: Matches(if e.id.Some? then e.id.value else "", t)
  {
    var id := if e.id.Some? then e.id.value else "";
    forall t <- filter ensures Matches(id, t) <==> id == t || t + "/" <= id || t + ":" <= id { MatchesIff(id, t); }
  }

  /** A segment is matched as a whole. */
  lemma SegmentsAreWhole(source: string, targets: seq<string>, mode: string)
    ensures IsSelected(Entry(Some("wgx"), source, targets, mode), ["wgx"])
    ensures IsSelected(Entry(Some("wgx/foo"), source, targets, mode), ["wgx"])
    ensures IsSelected(Entry(Some("wgx:bar"), source, targets, mode), ["wgx"])
    ensures !IsSelected(Entry(Some("wgx_extra"), source, targets, mode), ["wgx"])
    ensures !IsSelected(Entry(None, source, targets, mode), ["wgx"])
  {
    assert "wgx" in ["wgx"];
    assert "wgx" + "/" == "wgx/" && "wgx/" <= "wgx/foo" && "wgx" + ":" == "wgx:" && "wgx:" <= "wgx:bar";
    assert "wgx_extra"[3] == '_' && "wgx/"[3] == '/' && "wgx:"[3] == ':' && |"wgx_extra"| == 9 && |""| == 0;
  }

  // ----- what the details cover -----

  function Pairs(details: seq<Detail>): seq<(string, string)> {
    seq(|details|, i requires 0 <= i < |details| => (details[i].id, details[i].target))
  }

  /** The entry's source resolves to a file of the metarepo whose hash is cached or can be computed. */
  predicate HasUsableSource(w: World, cache: map<string, string>, e: Entry) {
    && w.resolveSource(e.source).Some? && w.resolveSource(e.source).value in w.sources
    && ((if e.id.Some? then e.id.value else "unknown") in cache || w.resolveSource(e.source).value !in w.unreadable)
  }

  /** One pair for every target, or a single one for a source that cannot be used. */
  function EntryPairs(w: World, cache: map<string, string>, e: Entry): seq<(string, string)> {
    var id := if e.id.Some? then e.id.value else "unknown";
    if HasUsableSource(w, cache, e) then seq(|e.targets|, i requires 0 <= i < |e.targets| => (id, e.targets[i]))
    else [(id, e.source)]
  }

  function CoveredPairs(w: World, cache: map<string, string>, filter: seq<string>,
                        entries: seq<Entry>): seq<(string, string)> {
    if entries == [] then []
    else
      (if IsSelected(entries[0], filter) then EntryPairs(w, cache, entries[0]) else [])
      + CoveredPairs(w, cache, filter, entries[1..])
  }

  function ItemPair(item: Item): (string, string) { (item.id, item.target) }

  function ItemPairs(items: seq<Item>): seq<(string, string)> {
    seq(|items|, i requires 0 <= i < |items| => ItemPair(items[i]))
  }

  lemma ItemPairsOfBoth(first: seq<Item>, rest: seq<Item>)
    ensures ItemPairs(first + rest) == ItemPairs(first) + ItemPairs(rest)
  {}

  lemma RunItemRecords(w: World, apply: bool, st: State, item: Item)
    ensures Pairs(RunItem(w, apply, st, item).report.details) == Pairs(st.report.details) + [ItemPair(item)]
  {}

  lemma {:induction false} RunItemsRecord(w: World, apply: bool, st: State, items: seq<Item>)
    ensures Pairs(RunItems(w, apply, st, items).report.details) == Pairs(st.report.details) + ItemPairs(items)
    decreases items
  {
    if items != [] {
      RunItemRecords(w, apply, st, items[0]);
      RunItemsRecord(w, apply, RunItem(w, apply, st, items[0]), items[1..]);
      assert ItemPairs(items) == [ItemPair(items[0])] + ItemPairs(items[1..]);
    }
  }

  lemma {:induction false} TargetPairs(w: World, e: Entry, targets: seq<string>, data: Bytes, hash: FileHash)
    ensures |TargetItems(w, e, targets, data, hash)| == |targets|
    ensures forall i :: 0 <= i < |targets| ==>
              TargetItems(w, e, targets, data, hash)[i] == TargetItem(w, e, targets[i], data, hash)
  {
    if targets != [] { TargetPairs(w, e, targets[1..], data, hash); }
  }

  lemma EntryIsCovered(w: World, cache: map<string, string>, e: Entry)
    ensures ItemPairs(EntryItems(w, cache, e)) == EntryPairs(w, cache, e)
  {
    if HasUsableSource(w, cache, e) {
      var source := w.resolveSource(e.source).value;
      TargetPairs(w, e, e.targets, w.sources[source], SourceHash(w, cache, e, source));
    }
  }

  lemma {:induction false} PlanCovers(w: World, cache: map<string, string>, filter: seq<string>, entries: seq<Entry>)
    ensures ItemPairs(Plan(w, cache, filter, entries)) == CoveredPairs(w, cache, filter, entries)
    decreases entries
  {
    if entries != [] {
      EntryIsCovered(w, cache, entries[0]);
      PlanCovers(w, cache, filter, entries[1..]);
      ItemPairsOfBoth(if IsSelected(entries[0], filter) then EntryItems(w, cache, entries[0]) else [],
                      Plan(w, cache, filter, entries[1..]));
    }
  }

  /**
   The report has, in the manifest's order, one detail for every target of every selected entry
   with a usable source, one for each other selected entry, and no more.
   */
  lemma ReportCoversManifest(w: World, apply: bool, files: Files, cache: map<string, string>, filter: seq<string>,
                             entries: seq<Entry>)
    ensures Pairs(SyncRepo(w, apply, files, cache, filter, entries).report.details)
         == CoveredPairs(w, cache, filter, entries)
  {
    var items := Plan(w, cache, filter, entries);
    RunItemsRecord(w, apply, State(files, EMPTY_REPORT), items);
    PlanCovers(w, cache, filter, entries);
    assert Pairs([]) + ItemPairs(items) == ItemPairs(items);
  }

  // ----- what the hub caches -----

  /** An entry's hash is cached if it has an id and a source, and the file's digest is 64 hexadecimal digits. */
  lemma CachedIff(w: World, cache: map<string, string>, e: Entry, p: Path, h: string)
    requires w.resolveSource(e.source) == Some(p) && p in w.sources && p !in w.unreadable && h == w.sha(w.sources[p])
    ensures CacheEntry(w, cache, e) ==
            if e.id.Some? && e.id.value != "" && e.source != ""
               && |h| == 64 && forall c <- h :: '0' <= c <= '9' || 'a' <= c <= 'f'
            then cache[e.id.value := h] else cache
  {
    CacheEntryAdds(w, cache, e);
  }

  // ----- what one target leads to -----

  /** The action for a target, by what stands there. */
  lemma DecisionIs(w: World, files: Files, item: Item)
    requires item.Copy?
    ensures var d, p := Decide(w, files, item), item.path;
            var present, readable := p in files, p !in w.unreadable;
            var same := present && readable && item.hash == Digest(w.sha(files[p]));
            && (d.action == Add <==> !present)
            && (d.action == Error <==> present && !readable)
            && (d.action == Update <==>
                  present && readable && !same && item.mode == "copy" && w.hasMarker(files[p]))
            && (d.action == Blocked <==>
                  present && readable && !same && item.mode == "copy" && !w.hasMarker(files[p]))
            && (d.action == Skip <==> present && readable && (same || item.mode != "copy"))
  {}

  /** The reason that goes with the action. */
  lemma ReasonIs(w: World, files: Files, item: Item)
    requires item.Copy?
    ensures var d := Decide(w, files, item);
            && (WritesTarget(d) ==> d.reason == "")
            && (d.action == Error ==> d.reason == "target_hash_failed")
            && (d.action == Blocked ==> d.reason == "missing_marker")
            && (d.action == Skip ==>
                  d.reason == if HashOf(w, files, item.path) == item.hash then "identical"
                              else if item.mode == "copy_if_missing" then "exists_preserve"
                              else "unknown_mode_" + item.mode)
  {
    assert "copy_if_missing" != "copy" by { assert |"copy_if_missing"| != |"copy"|; }
  }

  /** The last detail of a report. */
  ghost predicate EndsWith(r: Report, before: Report, id: string, target: string, action: Action, reason: string) {
    r.details == before.details + [Detail(id, target, action, reason)]
  }

  /** A dry run touches nothing and reports the decision. */
  lemma DryRunOnlyReports(w: World, st: State, item: Item)
    requires item.Copy?
    ensures var after, d := RunItem(w, false, st, item), Decide(w, st.files, item);
            after.files == st.files && EndsWith(after.report, st.report, item.id, item.target, d.action, d.reason)
  {}

  /** A step that fails is reported as an error, and leaves the target as it was. */
  lemma FailureIsReported(w: World, st: State, item: Item)
    requires item.Copy? && WritesTarget(Decide(w, st.files, item)) && w.backupOf(item.path) != item.path
    requires item.path in w.unwritable || (item.path in st.files && item.path in w.noBackup)
    ensures var after := RunItem(w, true, st, item);
            && EndsWith(after.report, st.report, item.id, item.target, Error,
                        if item.path in st.files && item.path in w.noBackup then "Backup failed" else "Copy failed")
            && At(after.files, item.path) == At(st.files, item.path) && after.report.failed
  {}

  /** A path that cannot be resolved is an error at that path, and nothing is written for it. */
  lemma BrokenIsReported(w: World, apply: bool, st: State, item: Item)
    requires item.Broken?
    ensures var after := RunItem(w, apply, st, item);
            && EndsWith(after.report, st.report, item.id, item.target, Error, item.reason)
            && after.files == st.files && after.report.failed
  {}

  /** A step that works writes the source's bytes, and for an update first saves the old ones. */
  lemma SuccessIsReported(w: World, st: State, item: Item, p: Path)
    requires item.Copy? && WritesTarget(Decide(w, st.files, item)) && w.backupOf(item.path) != item.path
    requires item.path !in w.unwritable && (item.path in st.files ==> item.path !in w.noBackup)
    ensures var after := RunItem(w, true, st, item);
            && EndsWith(after.report, st.report, item.id, item.target,
                        if item.path in st.files then Update else Add, "")
            && At(after.files, p) == if p == item.path then Some(item.data)
                                     else if item.path in st.files && p == w.backupOf(item.path)
                                     then At(st.files, item.path)
                                     else At(st.files, p)
  {}

  // ----- what a run writes -----

  /** A target is written if it is missing, or if it is managed, differs and may be copied over. */
  ghost predicate IsToBeWritten(w: World, files: Files, e: Entry, p: Path, data: Bytes) {
    p !in files
    || (p !in w.unreadable && w.sha(files[p]) != w.sha(data) && e.mode == "copy" && w.hasMarker(files[p]))
  }

  lemma {:induction false} PlannedItem(w: World, cache: map<string, string>, filter: seq<string>, entries: seq<Entry>,
                                       e: Entry, item: Item)
    requires e in entries && IsSelected(e, filter) && item in EntryItems(w, cache, e)
    ensures item in Plan(w, cache, filter, entries)
  {
    if entries[0] != e { PlannedItem(w, cache, filter, entries[1..], e, item); }
  }

  lemma TargetIsPlanned(w: World, filter: seq<string>, entries: seq<Entry>, e: Entry, target: string, source: Path,
                        p: Path)
    requires e in entries && IsSelected(e, filter) && target in e.targets
    requires w.resolveSource(e.source) == Some(source) && source in w.sources && source !in w.unreadable
    requires w.resolveTarget(target) == Some(p)
    ensures var data := w.sources[source];
            Copy(EntryId(e), target, p, data, Digest(w.sha(data)), e.mode) in Plan(w, map[], filter, entries)
  {
    var data, hash := w.sources[source], Digest(w.sha(w.sources[source]));
    TargetPairs(w, e, e.targets, data, hash);
    var i :| 0 <= i < |e.targets| && e.targets[i] == target;
    var item := TargetItems(w, e, e.targets, data, hash)[i];
    assert EntryItems(w, map[], e) == TargetItems(w, e, e.targets, data, hash);
    PlannedItem(w, map[], filter, entries, e, item);
  }

  /** An apply gives every target of every selected entry the bytes of its source, if it is to be written at all. */
  lemma ApplyCoversManifest(w: World, files: Files, filter: seq<string>, entries: seq<Entry>, e: Entry,
                            target: string, source: Path, p: Path)
    requires e in entries && IsSelected(e, filter) && target in e.targets
    requires w.resolveSource(e.source) == Some(source) && source in w.sources && source !in w.unreadable
    requires w.resolveTarget(target) == Some(p) && p != w.reportPath
    requires var items := Plan(w, map[], filter, entries); AreSeparate(w, items) && AreWritable(w, items)
    ensures At(SyncRepo(w, true, files, map[], filter, entries).files, p)
         == if IsToBeWritten(w, files, e, p, w.sources[source]) then Some(w.sources[source]) else At(files, p)
  {
    TargetIsPlanned(w, filter, entries, e, target, source, p);
    var data := w.sources[source];
    var item := Copy(EntryId(e), target, p, data, Digest(w.sha(data)), e.mode);
    DecisionIs(w, files, item);
    ApplyWritesTarget(w, State(files, EMPTY_REPORT), Plan(w, map[], filter, entries), item);
  }

  /** The report file holds the report, in a dry run too, unless it cannot be written. */
  lemma ReportIsWritten(w: World, apply: bool, files: Files, cache: map<string, string>, filter: seq<string>,
                        entries: seq<Entry>)
    ensures var after := SyncRepo(w, apply, files, cache, filter, entries);
            && (w.reportPath !in w.unwritable ==> At(after.files, w.reportPath) == Some(w.render(after.report)))
            && (!apply ==> forall p :: p != w.reportPath ==> At(after.files, p) == At(files, p))
            && (!apply && w.reportPath in w.unwritable ==> after.files == files)
  {
    if !apply { DryRunKeepsFiles(w, State(files, EMPTY_REPORT), Plan(w, cache, filter, entries)); }
  }

  lemma {:induction false} DryRunKeepsFiles(w: World, st: State, items: seq<Item>)
    ensures RunItems(w, false, st, items).files == st.files
    decreases items
  {
    if items != [] { DryRunKeepsFiles(w, RunItem(w, false, st, items[0]), items[1..]); }
  }

  // ----- the counts -----

  function CountOf(details: seq<Detail>, a: Action): nat {
    if details == [] then 0
    else CountOf(details[..|details| - 1], a) + (if details[|details| - 1].action == a then 1 else 0)
  }

  function Field(s: Summary, a: Action): nat {
    match a
    case Add => s.add
    case Update => s.update
    case Skip => s.skip
    case Blocked => s.blocked
    case Error => s.error
  }

  lemma {:induction false} CountsAre(details: seq<Detail>, a: Action)
    ensures Field(CountActions(details), a) == CountOf(details, a)
  {
    if details != [] { CountsAre(details[..|details| - 1], a); }
  }

  lemma {:induction false} CountIsPositive(details: seq<Detail>, a: Action)
    ensures CountOf(details, a) > 0 <==> exists d <- details :: d.action == a
  {
    if details != [] {
      var front, last := details[..|details| - 1], details[|details| - 1];
      CountIsPositive(front, a);
      assert details == front + [last];
    }
  }

  /** Each count is the number of details with that action, and the status is error iff one is an error. */
  lemma SummaryCounts(w: World, apply: bool, files: Files, cache: map<string, string>, filter: seq<string>,
                      entries: seq<Entry>)
    ensures var r := SyncRepo(w, apply, files, cache, filter, entries).report;
            && (forall a :: Field(r.summary, a) == CountOf(r.details, a))
            && (r.failed <==> exists d <- r.details :: d.action == Error)
  {
    var r := SyncRepo(w, apply, files, cache, filter, entries).report;
    ReportAddsUp(w, apply, files, Plan(w, cache, filter, entries));
    forall a ensures Field(r.summary, a) == CountOf(r.details, a) { CountsAre(r.details, a); }
    assert Field(r.summary, Error) == r.summary.error;
    CountIsPositive(r.details, Error);
  }

  function SumOf(reports: map<string, Report>, order: seq<string>, a: Action): nat
    requires forall repo <- order :: repo in reports
  {
    if order == [] then 0
    else SumOf(reports, order[..|order| - 1], a) + Field(reports[order[|order| - 1]].summary, a)
  }

  /** Each count of the hub is the sum of the repositories' counts. */
  lemma {:induction false} AggregateIsSum(reports: map<string, Report>, order: seq<string>, a: Action)
    requires forall repo <- order :: repo in reports
    ensures Field(Aggregate(reports, order), a) == SumOf(reports, order, a)
    decreases order
  {
    if order != [] { AggregateIsSum(reports, order[..|order| - 1], a); }
  }
}
