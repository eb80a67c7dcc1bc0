/**
 The manifest-driven sync of one repository (merger/repoground/adapters/metarepo.py): the plan a
 manifest gives rise to, the decision for each target, and applying it or only reporting it.
 */
module MetarepoSync {
  import opened Wrappers

  type Path = string

  type Files = map<Path, Bytes>

  /** A manifest entry; `id` may be missing. */
  datatype Entry = Entry(id: Option<string>, source: string, targets: seq<string>, mode: string)

  datatype FileHash = NotFound | Failed | Digest(hex: string)

  /**
   What the sync asks of its surroundings: the digest function, the managed-marker test, secure
   path resolution, the files of the metarepo, the paths for which an operation fails, the name
   of a backup, and the path and rendering of the report.
   */
  datatype World = World(
    sha: Bytes -> string,
    hasMarker: Bytes -> bool,
    resolveSource: string -> Option<Path>,
    resolveTarget: string -> Option<Path>,
    sources: Files,
    unreadable: set<Path>,
    unwritable: set<Path>,
    noBackup: set<Path>,
    backupOf: Path -> Path,
    reportPath: Path,
    render: Report -> Bytes)

  datatype Action = Add | Update | Skip | Blocked | Error

  datatype Detail = Detail(id: string, target: string, action: Action, reason: string)

  datatype Summary = Summary(add: nat, update: nat, skip: nat, blocked: nat, error: nat) {
    function Count(a: Action): Summary {
      match a
      case Add => this.(add := add + 1)
      case Update => this.(update := update + 1)
      case Skip => this.(skip := skip + 1)
      case Blocked => this.(blocked := blocked + 1)
      case Error => this.(error := error + 1)
    }

    function Plus(s: Summary): Summary {
      Summary(add + s.add, update + s.update, skip + s.skip, blocked + s.blocked, error + s.error)
    }

    function Total(): nat { add + update + skip + blocked + error }
  }

  const NO_ACTIONS := Summary(0, 0, 0, 0, 0)

  /** `failed` is the status "error". */
  datatype Report = Report(summary: Summary, details: seq<Detail>, failed: bool) {
    function Record(d: Detail): Report {
      Report(summary.Count(d.action), details + [d], failed || d.action == Error)
    }
  }

  const EMPTY_REPORT := Report(NO_ACTIONS, [], false)

  const UNKNOWN_ID := "unknown"

  // ----- which entries, and what they ask for -----

  /** `wgx` selects `wgx`, `wgx/foo` and `wgx:bar`, but not `wgx_extra`. */
  predicate IsSelected(e: Entry, filter: seq<string>) {
    var id := if e.id.Some? then e.id.value else "";
    filter == [] || exists t <- filter :: id == t || t + "/" <= id || t + ":" <= id
  }

  function EntryId(e: Entry): string {
    if e.id.Some? then e.id.value else UNKNOWN_ID
  }

  function HashOf(w: World, files: Files, p: Path): FileHash {
    if p !in files then NotFound else if p in w.unreadable then Failed else Digest(w.sha(files[p]))
  }

  /** The cached hash of the entry's id, or else the hash of its source file. */
  function SourceHash(w: World, cache: map<string, string>, e: Entry, source: Path): FileHash {
    if EntryId(e) in cache then Digest(cache[EntryId(e)]) else HashOf(w, w.sources, source)
  }

  /** One unit of work: an error to report, or one target to bring in line with a source. */
  datatype Item =
    | Broken(id: string, target: string, reason: string)
    | Copy(id: string, target: string, path: Path, data: Bytes, hash: FileHash, mode: string)

  function TargetItem(w: World, e: Entry, target: string, data: Bytes, hash: FileHash): Item {
    match w.resolveTarget(target)
    case None => Broken(EntryId(e), target, "Invalid target path (traversal)")
    case Some(p) => Copy(EntryId(e), target, p, data, hash, e.mode)
  }

  function TargetItems(w: World, e: Entry, targets: seq<string>, data: Bytes, hash: FileHash): seq<Item> {
    if targets == [] then []
    else [TargetItem(w, e, targets[0], data, hash)] + TargetItems(w, e, targets[1..], data, hash)
  }

  function EntryItems(w: World, cache: map<string, string>, e: Entry): seq<Item> {
    match w.resolveSource(e.source)
    case None => [Broken(EntryId(e), e.source, "Invalid source path")]
    case Some(source) =>
      if source !in w.sources then [Broken(EntryId(e), e.source, "Source not found")]
      else
        var hash := SourceHash(w, cache, e, source);
        if hash == Failed then [Broken(EntryId(e), e.source, "source_hash_failed")]
        else TargetItems(w, e, e.targets, w.sources[source], hash)
  }

  function Plan(w: World, cache: map<string, string>, filter: seq<string>, entries: seq<Entry>): seq<Item> {
    if entries == [] then []
    else
      (if IsSelected(entries[0], filter) then EntryItems(w, cache, entries[0]) else [])
      + Plan(w, cache, filter, entries[1..])
  }

  // ----- deciding and applying -----

  datatype Decision = Decision(action: Action, reason: string)

  function Decide(w: World, files: Files, item: Item): Decision
    requires item.Copy?
  {
    if item.path !in files then Decision(Add, "")
    else
      var hash := HashOf(w, files, item.path);
      if hash == Failed then Decision(Error, "target_hash_failed")
      else if hash == item.hash then Decision(Skip, "identical")
      else if item.mode == "copy_if_missing" then Decision(Skip, "exists_preserve")
      else if item.mode != "copy" then Decision(Skip, "unknown_mode_" + item.mode)
      else if w.hasMarker(files[item.path]) then Decision(Update, "")
      else Decision(Blocked, "missing_marker")
  }

  predicate WritesTarget(d: Decision) {
    d.action == Add || d.action == Update
  }

  /** The copy to the backup path that precedes an update. */
  function BackUp(w: World, files: Files, item: Item, d: Decision): Result<Files, string>
    requires item.Copy? && (d.action == Update ==> item.path in files)
  {
    if d.action != Update then Ok(files)
    else if item.path in w.noBackup then Err("Backup failed")
    else Ok(files[w.backupOf(item.path) := files[item.path]])
  }

  function WriteTarget(w: World, files: Files, item: Item): Result<Files, string>
    requires item.Copy?
  {
    if item.path in w.unwritable then Err("Copy failed") else Ok(files[item.path := item.data])
  }

  function Carry(w: World, files: Files, item: Item, d: Decision): (Files, Decision)
    requires item.Copy? && (d.action == Update ==> item.path in files)
  {
    match BackUp(w, files, item, d)
    case Err(reason) => (files, Decision(Error, reason))
    case Ok(saved) =>
      match WriteTarget(w, saved, item)
      case Err(reason) => (saved, Decision(Error, reason))
      case Ok(done) => (done, d)
  }

  /** The files and the report while a repository is being synced. */
  datatype State = State(files: Files, report: Report)

  function RunItem(w: World, apply: bool, st: State, item: Item): State {
    match item
    case Broken(id, target, reason) => st.(report := st.report.Record(Detail(id, target, Error, reason)))
    case Copy(id, target, _, _, _, _) =>
      var d := Decide(w, st.files, item);
      var r := if apply && WritesTarget(d) then Carry(w, st.files, item, d) else (st.files, d);
      State(r.0, st.report.Record(Detail(id, target, r.1.action, r.1.reason)))
  }

  function RunItems(w: World, apply: bool, st: State, items: seq<Item>): State
    decreases items
  {
    if items == [] then st else RunItems(w, apply, RunItem(w, apply, st, items[0]), items[1..])
  }

  /** The report file is written in both modes, after the targets. */
  function SyncItems(w: World, apply: bool, files: Files, items: seq<Item>): State {
    var st := RunItems(w, apply, State(files, EMPTY_REPORT), items);
    State(if w.reportPath in w.unwritable then st.files else st.files[w.reportPath := w.render(st.report)], st.report)
  }

  function SyncRepo(w: World, apply: bool, files: Files, cache: map<string, string>, filter: seq<string>,
                    entries: seq<Entry>): State {
    SyncItems(w, apply, files, Plan(w, cache, filter, entries))
  }

  // ----- the sync as the program runs it -----

  class RepoSync {
    var files: Files
    var summary: Summary
    var details: seq<Detail>
    var failed: bool

    ghost function View(): State
      reads this
    {
      State(files, Report(summary, details, failed))
    }

    constructor (files: Files)
      ensures View() == State(files, EMPTY_REPORT)
    {
      this.files, summary, details, failed := files, NO_ACTIONS, [], false;
    }

    method RecordError(id: string, target: string, reason: string)
      modifies this
      ensures View() == old(View()).(report := old(View()).report.Record(Detail(id, target, Error, reason)))
    {
      details := details + [Detail(id, target, Error, reason)];
      summary := summary.(error := summary.error + 1);
      failed := true;
    }

    method SyncTarget(w: World, apply: bool, item: Item)
      modifies this
      ensures View() == RunItem(w, apply, old(View()), item)
    {
      match item
      case Broken(id, target, reason) => RecordError(id, target, reason);
      case Copy(id, target, path, data, _, _) =>
        var d := Decide(w, files, item);
        var action, reason := d.action, d.reason;
        if apply && WritesTarget(d) {
          var saved := BackUp(w, files, item, d);
          if saved.Err? {
            action, reason := Error, saved.error;
          } else {
            files := saved.value;
            var done := WriteTarget(w, files, item);
            if done.Err? {
              action, reason := Error, done.error;
            } else {
              files := done.value;
            }
          }
        }
        summary := summary.Count(action);
        if action == Error { failed := true; }
        details := details + [Detail(id, target, action, reason)];
    }

    method SyncEntry(w: World, apply: bool, cache: map<string, string>, e: Entry)
      modifies this
      ensures View() == RunItems(w, apply, old(View()), EntryItems(w, cache, e))
    {
      var id := EntryId(e);
      var source := w.resolveSource(e.source);
      if source.None? {
        RecordError(id, e.source, "Invalid source path");
        OneItem(w, apply, old(View()), Broken(id, e.source, "Invalid source path"));
        return;
      }
      if source.value !in w.sources {
        RecordError(id, e.source, "Source not found");
        OneItem(w, apply, old(View()), Broken(id, e.source, "Source not found"));
        return;
      }
      var hash := SourceHash(w, cache, e, source.value);
      if hash == Failed {
        RecordError(id, e.source, "source_hash_failed");
        OneItem(w, apply, old(View()), Broken(id, e.source, "source_hash_failed"));
        return;
      }
      var data := w.sources[source.value];
      for i := 0 to |e.targets|
        invariant RunItems(w, apply, View(), TargetItems(w, e, e.targets[i..], data, hash))
               == RunItems(w, apply, old(View()), TargetItems(w, e, e.targets, data, hash))
      {
        ghost var rest := TargetItems(w, e, e.targets[i + 1..], data, hash);
        ghost var item := TargetItem(w, e, e.targets[i], data, hash);
        assert e.targets[i..][1..] == e.targets[i + 1..];
        assert TargetItems(w, e, e.targets[i..], data, hash) == [item] + rest;
        assert ([item] + rest)[1..] == rest;
        SyncTarget(w, apply, TargetItem(w, e, e.targets[i], data, hash));
      }
    }

    method SyncEntries(w: World, apply: bool, cache: map<string, string>, filter: seq<string>, entries: seq<Entry>)
      modifies this
      ensures View() == RunItems(w, apply, old(View()), Plan(w, cache, filter, entries))
    {
      for i := 0 to |entries|
        invariant RunItems(w, apply, View(), Plan(w, cache, filter, entries[i..]))
               == RunItems(w, apply, old(View()), Plan(w, cache, filter, entries))
      {
        assert entries[i..][1..] == entries[i + 1..];
        ghost var rest := Plan(w, cache, filter, entries[i + 1..]);
        if IsSelected(entries[i], filter) {
          RunItemsSplits(w, apply, View(), EntryItems(w, cache, entries[i]), rest);
          SyncEntry(w, apply, cache, entries[i]);
        } else {
          assert [] + rest == rest;
        }
      }
    }

    method Sync(w: World, apply: bool, cache: map<string, string>, filter: seq<string>, entries: seq<Entry>)
      requires View().report == EMPTY_REPORT
      modifies this
      ensures View() == SyncRepo(w, apply, old(files), cache, filter, entries)
    {
      SyncEntries(w, apply, cache, filter, entries);
      if w.reportPath !in w.unwritable {
        files := files[w.reportPath := w.render(Report(summary, details, failed))];
      }
    }
  }

  lemma OneItem(w: World, apply: bool, st: State, item: Item)
    ensures RunItems(w, apply, st, [item]) == RunItem(w, apply, st, item)
  {
    assert RunItems(w, apply, RunItem(w, apply, st, item), [item][1..]) == RunItem(w, apply, st, item);
  }

  lemma {:induction false} RunItemsSplits(w: World, apply: bool, st: State, first: seq<Item>, rest: seq<Item>)
    ensures RunItems(w, apply, st, first + rest) == RunItems(w, apply, RunItems(w, apply, st, first), rest)
    decreases first
  {
    if first == [] {
      assert [] + rest == rest;
    } else {
      assert (first + rest)[1..] == first[1..] + rest;
      RunItemsSplits(w, apply, RunItem(w, apply, st, first[0]), first[1..], rest);
    }
  }
}
