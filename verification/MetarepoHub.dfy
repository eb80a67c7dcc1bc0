/**
 The sync of all repositories of a hub: the precomputed hash cache, the parallel run in which the
 repositories' steps interleave, and the aggregation in completion order.
 */
module MetarepoHub {
  import opened Wrappers
  import opened MetarepoSync
  import opened MetarepoLaws

  // ----- the hash cache -----

  predicate IsDigestText(h: string) {
    |h| == 64 && forall c <- h :: '0' <= c <= '9' || 'a' <= c <= 'f'
  }

  function CacheEntry(w: World, cache: map<string, string>, e: Entry): map<string, string> {
    if e.id.None? || e.id.value == "" || e.source == "" then cache
    else
      match w.resolveSource(e.source)
      case None => cache
      case Some(p) =>
        match HashOf(w, w.sources, p)
        case Digest(h) => if IsDigestText(h) then cache[e.id.value := h] else cache
        case _ => cache
  }

  function ExtendCache(w: World, cache: map<string, string>, filter: seq<string>,
                       entries: seq<Entry>): map<string, string>
    decreases entries
  {
    if entries == [] then cache
    else ExtendCache(w, if IsSelected(entries[0], filter) then CacheEntry(w, cache, entries[0]) else cache,
                     filter, entries[1..])
  }

  method PrecomputeHashes(w: World, filter: seq<string>, entries: seq<Entry>) returns (cache: map<string, string>)
    ensures cache == ExtendCache(w, map[], filter, entries)
  {
    cache := map[];
    for i := 0 to |entries|
      invariant ExtendCache(w, cache, filter, entries[i..]) == ExtendCache(w, map[], filter, entries)
    {
      assert entries[i..][1..] == entries[i + 1..];
      if IsSelected(entries[i], filter) {
        cache := CacheEntry(w, cache, entries[i]);
      }
    }
  }

  /** The entry resolves to a file of the metarepo, so that its source hash is looked up at all. */
  predicate HasSource(w: World, e: Entry) {
    w.resolveSource(e.source).Some? && w.resolveSource(e.source).value in w.sources
  }

  function OwnHash(w: World, e: Entry): FileHash
    requires HasSource(w, e)
  {
    HashOf(w, w.sources, w.resolveSource(e.source).value)
  }

  /** The entry puts its hash into the cache. */
  predicate IsCached(w: World, e: Entry) {
    && e.id.Some? && e.id.value != "" && e.source != "" && HasSource(w, e)
    && OwnHash(w, e).Digest? && IsDigestText(OwnHash(w, e).hex)
  }

  lemma CacheEntryAdds(w: World, cache: map<string, string>, e: Entry)
    ensures CacheEntry(w, cache, e) == if IsCached(w, e) then cache[e.id.value := OwnHash(w, e).hex] else cache
  {}

  /** The cached hash of `id` is that of some selected entry that caches it. */
  ghost predicate ComesFrom(w: World, filter: seq<string>, entries: seq<Entry>, id: string, h: string) {
    exists e <- entries :: IsSelected(e, filter) && IsCached(w, e) && e.id.value == id && OwnHash(w, e) == Digest(h)
  }

  lemma {:induction false} CacheComesFromEntries(w: World, cache: map<string, string>, filter: seq<string>,
                                                 entries: seq<Entry>, id: string)
    requires id in ExtendCache(w, cache, filter, entries)
    ensures var h := ExtendCache(w, cache, filter, entries)[id];
            ComesFrom(w, filter, entries, id, h) || (id in cache && cache[id] == h)
    decreases entries
  {
    if entries != [] {
      var next := if IsSelected(entries[0], filter) then CacheEntry(w, cache, entries[0]) else cache;
      var h := ExtendCache(w, cache, filter, entries)[id];
      CacheEntryAdds(w, cache, entries[0]);
      CacheComesFromEntries(w, next, filter, entries[1..], id);
      if ComesFrom(w, filter, entries[1..], id, h) {
        var e :| e in entries[1..] && IsSelected(e, filter) && IsCached(w, e) && e.id.value == id
                 && OwnHash(w, e) == Digest(h);
        assert e in entries;
      } else if !(id in cache && cache[id] == h) {
        assert entries[0] in entries;
      }
    }
  }

  lemma {:induction false} CacheGrows(w: World, cache: map<string, string>, filter: seq<string>, entries: seq<Entry>)
    ensures cache.Keys <= ExtendCache(w, cache, filter, entries).Keys
    decreases entries
  {
    if entries != [] {
      CacheEntryAdds(w, cache, entries[0]);
      CacheGrows(w, if IsSelected(entries[0], filter) then CacheEntry(w, cache, entries[0]) else cache,
                 filter, entries[1..]);
    }
  }

  lemma {:induction false} CachedIsInCache(w: World, cache: map<string, string>, filter: seq<string>,
                                           entries: seq<Entry>, e: Entry)
    requires e in entries && IsSelected(e, filter) && IsCached(w, e)
    ensures e.id.value in ExtendCache(w, cache, filter, entries)
    decreases entries
  {
    var next := if IsSelected(entries[0], filter) then CacheEntry(w, cache, entries[0]) else cache;
    CacheEntryAdds(w, cache, entries[0]);
    if entries[0] == e {
      CacheGrows(w, next, filter, entries[1..]);
    } else {
      CachedIsInCache(w, next, filter, entries[1..], e);
    }
  }

  /** No selected entry is given a hash other than that of its own source. */
  ghost predicate IsTransparent(w: World, cache: map<string, string>, filter: seq<string>, entries: seq<Entry>) {
    forall e <- entries :: IsSelected(e, filter) && HasSource(w, e) ==>
      SourceHash(w, cache, e, w.resolveSource(e.source).value) == OwnHash(w, e)
  }

  /** An entry and one that caches a hash under its id have sources of equal hash. */
  ghost predicate DoIdsAgree(w: World, filter: seq<string>, entries: seq<Entry>) {
    forall e <- entries, other <- entries ::
      (IsSelected(e, filter) && HasSource(w, e) && IsSelected(other, filter) && IsCached(w, other)
       && other.id.value == EntryId(e)) ==> OwnHash(w, e) == OwnHash(w, other)
  }

  /** The cache makes no difference to any hash exactly if entries with one id agree on theirs. */
  lemma CacheIsTransparentIff(w: World, filter: seq<string>, entries: seq<Entry>)
    ensures IsTransparent(w, ExtendCache(w, map[], filter, entries), filter, entries)
       <==> DoIdsAgree(w, filter, entries)
  {
    var cache := ExtendCache(w, map[], filter, entries);
    if IsTransparent(w, cache, filter, entries) {
      forall e <- entries, other <- entries |
          IsSelected(e, filter) && HasSource(w, e) && IsSelected(other, filter) && IsCached(w, other)
          && other.id.value == EntryId(e)
        ensures OwnHash(w, e) == OwnHash(w, other)
      {
        CachedIsInCache(w, map[], filter, entries, other);
      }
    }
    if DoIdsAgree(w, filter, entries) {
      forall e <- entries | IsSelected(e, filter) && HasSource(w, e)
        ensures SourceHash(w, cache, e, w.resolveSource(e.source).value) == OwnHash(w, e)
      {
        if EntryId(e) in cache { CacheComesFromEntries(w, map[], filter, entries, EntryId(e)); }
      }
    }
  }

  lemma {:induction false} SamePlan(w: World, cache: map<string, string>, filter: seq<string>, entries: seq<Entry>)
    requires IsTransparent(w, cache, filter, entries)
    ensures Plan(w, cache, filter, entries) == Plan(w, map[], filter, entries)
    decreases entries
  {
    if entries != [] {
      assert entries[0] in entries;
      SamePlan(w, cache, filter, entries[1..]);
    }
  }

  /** If entries with one id agree on their hashes, the cached plan is the uncached one. */
  lemma CacheIsTransparent(w: World, filter: seq<string>, entries: seq<Entry>)
    requires DoIdsAgree(w, filter, entries)
    ensures Plan(w, ExtendCache(w, map[], filter, entries), filter, entries) == Plan(w, map[], filter, entries)
  {
    CacheIsTransparentIff(w, filter, entries);
    SamePlan(w, ExtendCache(w, map[], filter, entries), filter, entries);
  }

  /** In particular if every selected entry has an id of its own. */
  lemma OwnIdsAgree(w: World, filter: seq<string>, entries: seq<Entry>)
    requires forall e <- entries :: IsSelected(e, filter) ==> e.id.Some?
    requires forall i, j :: 0 <= i < j < |entries| ==>
               IsSelected(entries[i], filter) && IsSelected(entries[j], filter) ==> entries[i].id != entries[j].id
    ensures DoIdsAgree(w, filter, entries)
  {
    forall e <- entries, other <- entries | IsSelected(e, filter) && IsSelected(other, filter) && e.id == other.id
      ensures e == other
    {
      var i :| 0 <= i < |entries| && entries[i] == e;
      var j :| 0 <= j < |entries| && entries[j] == other;
      assert i == j;
    }
  }

  /** Two entries with one id: the first is compared against the hash of the second's source. */
  lemma SharedIdBreaksCache(w: World, first: Entry, second: Entry, p: Path, q: Path)
    requires first.id == second.id && first.id.Some? && first.id.value != ""
    requires first.source != "" && second.source != ""
    requires w.resolveSource(first.source) == Some(p) && w.resolveSource(second.source) == Some(q)
    requires p in w.sources && q in w.sources && p !in w.unreadable && q !in w.unreadable
    requires IsDigestText(w.sha(w.sources[q])) && w.sha(w.sources[p]) != w.sha(w.sources[q])
    ensures var cache := ExtendCache(w, map[], [], [first, second]);
            && SourceHash(w, cache, first, p) == Digest(w.sha(w.sources[q]))
            && SourceHash(w, map[], first, p) == Digest(w.sha(w.sources[p]))
  {
    var entries := [first, second];
    var cache1 := CacheEntry(w, map[], first);
    assert entries[1..] == [second] && entries[1..][1..] == [];
    assert ExtendCache(w, map[], [], entries) == ExtendCache(w, cache1, [], entries[1..]);
    assert ExtendCache(w, cache1, [], [second]) == CacheEntry(w, cache1, second);
  }

  lemma TargetItemsAreHonest(w: World, e: Entry, targets: seq<string>, data: Bytes)
    ensures AreHonest(w, TargetItems(w, e, targets, data, Digest(w.sha(data))))
  {}

  /** Without the cache, every item carries the hash of the data it would copy. */
  lemma {:induction false} PlanIsHonest(w: World, filter: seq<string>, entries: seq<Entry>)
    ensures AreHonest(w, Plan(w, map[], filter, entries))
    decreases entries
  {
    if entries != [] {
      PlanIsHonest(w, filter, entries[1..]);
      var e := entries[0];
      var source := w.resolveSource(e.source);
      if source.Some? && source.value in w.sources {
        TargetItemsAreHonest(w, e, e.targets, w.sources[source.value]);
      }
    }
  }

  // ----- the steps of one repository -----

  /**
   Where a repository is: about to decide on its current item, to back up, or to write; or done
   with its items and its report file.
   */
  datatype Phase = Deciding | BackingUp(d: Decision) | Writing(d: Decision) | Reported

  datatype Worker = Worker(w: World, apply: bool, items: seq<Item>, phase: Phase, report: Report) {
    function Finish(d: Decision): Worker
      requires items != []
    {
      Worker(w, apply, items[1..], Deciding,
             report.Record(Detail(items[0].id, items[0].target, d.action, d.reason)))
    }
  }

  /** What a repository starts with. */
  function Fresh(w: World, apply: bool, items: seq<Item>): Worker { Worker(w, apply, items, Deciding, EMPTY_REPORT) }

  /** One atomic step of a repository on the shared files. */
  function Step(k: Worker, files: Files): (Worker, Files) {
    if k.phase.Reported? then (k, files)
    else if k.items == [] then
      (k.(phase := Reported),
       if k.w.reportPath in k.w.unwritable then files else files[k.w.reportPath := k.w.render(k.report)])
    else if k.items[0].Broken? then (k.Finish(Decision(Error, k.items[0].reason)), files)
    else StepCopy(k, files)
  }

  function StepCopy(k: Worker, files: Files): (Worker, Files)
    requires k.items != [] && k.items[0].Copy? && !k.phase.Reported?
  {
    var w, item := k.w, k.items[0];
    match k.phase
    case Deciding =>
      var d := Decide(w, files, item);
      if k.apply && WritesTarget(d) then (k.(phase := BackingUp(d)), files) else (k.Finish(d), files)
    case BackingUp(d) =>
      if d.action != Update then (k.(phase := Writing(d)), files)
      else if item.path in w.noBackup || item.path !in files then (k.Finish(Decision(Error, "Backup failed")), files)
      else (k.(phase := Writing(d)), files[w.backupOf(item.path) := files[item.path]])
    case Writing(d) =>
      if item.path in w.unwritable then (k.Finish(Decision(Error, "Copy failed")), files)
      else (k.Finish(d), files[item.path := item.data])
  }

  function Steps(k: Worker, files: Files, n: nat): (Worker, Files)
    decreases n
  {
    if n == 0 then (k, files)
    else var next := Step(k, files); Steps(next.0, next.1, n - 1)
  }

  lemma FewSteps(k: Worker, files: Files)
    ensures var one := Step(k, files);
            var two := Step(one.0, one.1);
            && Steps(k, files, 1) == one && Steps(k, files, 2) == two
            && Steps(k, files, 3) == Step(two.0, two.1)
  {
    var one := Step(k, files);
    var two := Step(one.0, one.1);
    var three := Step(two.0, two.1);
    assert Steps(two.0, two.1, 1) == three && Steps(one.0, one.1, 1) == two;
    assert Steps(one.0, one.1, 2) == three;
  }

  /** At most three steps carry out a whole item. */
  lemma ItemTakesSteps(k: Worker, files: Files)
    requires k.items != [] && k.phase == Deciding
    ensures var st := RunItem(k.w, k.apply, State(files, k.report), k.items[0]);
            exists n: nat :: 1 <= n <= 3
              && Steps(k, files, n) == (Worker(k.w, k.apply, k.items[1..], Deciding, st.report), st.files)
  {
    FewSteps(k, files);
    var st := RunItem(k.w, k.apply, State(files, k.report), k.items[0]);
    var after := (Worker(k.w, k.apply, k.items[1..], Deciding, st.report), st.files);
    if k.items[0].Broken? || !k.apply || !WritesTarget(Decide(k.w, files, k.items[0])) {
      assert Steps(k, files, 1) == after;
    } else if Decide(k.w, files, k.items[0]).action == Update && k.items[0].path in k.w.noBackup {
      assert Steps(k, files, 2) == after;
    } else {
      assert Steps(k, files, 3) == after;
    }
  }

  lemma StepsAdd(k: Worker, files: Files, m: nat, n: nat)
    ensures var mid := Steps(k, files, m);
            Steps(k, files, m + n) == Steps(mid.0, mid.1, n)
    decreases m
  {
    if m > 0 {
      var next := Step(k, files);
      StepsAdd(next.0, next.1, m - 1, n);
    }
  }

  lemma DoneStaysDone(k: Worker, files: Files, n: nat)
    requires k.phase.Reported?
    ensures Steps(k, files, n) == (k, files)
    decreases n
  {}

  /** Where the repository ends when nothing else touches the files. */
  function Ended(k: Worker, files: Files): (Worker, Files) {
    var st := RunItems(k.w, k.apply, State(files, k.report), k.items);
    (Worker(k.w, k.apply, [], Reported, st.report),
     if k.w.reportPath in k.w.unwritable then st.files else st.files[k.w.reportPath := k.w.render(st.report)])
  }

  /** From some number of steps on, a repository stands where the sequential run ends. */
  lemma {:induction false} EnoughSteps(k: Worker, files: Files) returns (enough: nat)
    requires k.phase == Deciding
    ensures forall n: nat :: n >= enough ==> Steps(k, files, n) == Ended(k, files)
    decreases |k.items|
  {
    if k.items == [] {
      enough := 1;
      var next := Step(k, files);
      forall n: nat | n >= 1 ensures Steps(k, files, n) == Ended(k, files) { DoneStaysDone(next.0, next.1, n - 1); }
    } else {
      ItemTakesSteps(k, files);
      var st := RunItem(k.w, k.apply, State(files, k.report), k.items[0]);
      var rest := Worker(k.w, k.apply, k.items[1..], Deciding, st.report);
      var m: nat :| Steps(k, files, m) == (rest, st.files);
      var more := EnoughSteps(rest, st.files);
      enough := m + more;
      forall n: nat | n >= enough ensures Steps(k, files, n) == Ended(k, files) {
        StepsAdd(k, files, m, n - m);
      }
    }
  }

  lemma FreshEndsInSync(w: World, apply: bool, items: seq<Item>, files: Files)
    ensures var end, alone := Ended(Fresh(w, apply, items), files), SyncItems(w, apply, files, items);
            end.0.report == alone.report && end.1 == alone.files
  {}

  // ----- interleaving the repositories -----

  /** Everything a repository may still read or write belongs to it. */
  ghost predicate Owns(foot: set<Path>, k: Worker) {
    && k.w.reportPath in foot
    && forall item <- k.items :: item.Copy? ==> item.path in foot && k.w.backupOf(item.path) in foot
  }

  ghost predicate AgreeOn(foot: set<Path>, files: Files, files': Files) {
    forall p <- foot :: At(files, p) == At(files', p)
  }

  lemma WriteIsLocal(foot: set<Path>, files: Files, files': Files, p: Path, data: Bytes)
    requires AgreeOn(foot, files, files') && p in foot
    ensures AgreeOn(foot, files[p := data], files'[p := data])
    ensures forall q :: q !in foot ==> At(files[p := data], q) == At(files, q)
  {}

  /** What two steps that agree on the footprint must keep. */
  ghost predicate StepsAgree(foot: set<Path>, files: Files, next: (Worker, Files), next': (Worker, Files)) {
    && next.0 == next'.0 && Owns(foot, next.0) && AgreeOn(foot, next.1, next'.1)
    && forall p :: p !in foot ==> At(next.1, p) == At(files, p)
  }

  lemma FinishOwns(foot: set<Path>, k: Worker, d: Decision)
    requires Owns(foot, k) && k.items != []
    ensures Owns(foot, k.Finish(d))
  {}

  lemma DecidingIsLocal(k: Worker, files: Files, files': Files, foot: set<Path>)
    requires k.items != [] && k.items[0].Copy? && k.phase.Deciding?
    requires Owns(foot, k) && AgreeOn(foot, files, files')
    ensures StepsAgree(foot, files, StepCopy(k, files), StepCopy(k, files'))
  {
    var item := k.items[0];
    assert item in k.items && At(files, item.path) == At(files', item.path);
    DecisionIsLocal(k.w, files, files', item);
    FinishOwns(foot, k, Decide(k.w, files, item));
  }

  lemma BackingUpIsLocal(k: Worker, files: Files, files': Files, foot: set<Path>)
    requires k.items != [] && k.items[0].Copy? && k.phase.BackingUp?
    requires Owns(foot, k) && AgreeOn(foot, files, files')
    ensures StepsAgree(foot, files, StepCopy(k, files), StepCopy(k, files'))
  {
    var item := k.items[0];
    assert item in k.items && At(files, item.path) == At(files', item.path);
    FinishOwns(foot, k, Decision(Error, "Backup failed"));
    if item.path in files {
      WriteIsLocal(foot, files, files', k.w.backupOf(item.path), files[item.path]);
    }
  }

  lemma WritingIsLocal(k: Worker, files: Files, files': Files, foot: set<Path>)
    requires k.items != [] && k.items[0].Copy? && k.phase.Writing?
    requires Owns(foot, k) && AgreeOn(foot, files, files')
    ensures StepsAgree(foot, files, StepCopy(k, files), StepCopy(k, files'))
  {
    var item := k.items[0];
    assert item in k.items;
    FinishOwns(foot, k, Decision(Error, "Copy failed"));
    FinishOwns(foot, k, k.phase.d);
    WriteIsLocal(foot, files, files', item.path, item.data);
  }

  lemma StepIsLocal(k: Worker, files: Files, files': Files, foot: set<Path>)
    requires Owns(foot, k) && AgreeOn(foot, files, files')
    ensures StepsAgree(foot, files, Step(k, files), Step(k, files'))
  {
    if k.phase.Reported? {
    } else if k.items == [] {
      WriteIsLocal(foot, files, files', k.w.reportPath, k.w.render(k.report));
    } else if k.items[0].Broken? {
      FinishOwns(foot, k, Decision(Error, k.items[0].reason));
    } else {
      match k.phase
      case Deciding => DecidingIsLocal(k, files, files', foot);
      case BackingUp(_) => BackingUpIsLocal(k, files, files', foot);
      case Writing(_) => WritingIsLocal(k, files, files', foot);
    }
  }

  lemma {:induction false} StepsAreLocal(k: Worker, files: Files, files': Files, foot: set<Path>, n: nat)
    requires Owns(foot, k) && AgreeOn(foot, files, files')
    ensures Steps(k, files, n).0 == Steps(k, files', n).0
    ensures AgreeOn(foot, Steps(k, files, n).1, Steps(k, files', n).1)
    decreases n
  {
    if n > 0 {
      StepIsLocal(k, files, files', foot);
      StepsAreLocal(Step(k, files).0, Step(k, files).1, Step(k, files').1, foot, n - 1);
    }
  }

  datatype Hub = Hub(workers: map<string, Worker>, files: Files)

  /** The named repository takes one step; a name that is not a repository does nothing. */
  function HubStep(h: Hub, repo: string): Hub {
    if repo !in h.workers then h
    else var next := Step(h.workers[repo], h.files); Hub(h.workers[repo := next.0], next.1)
  }

  function RunSchedule(h: Hub, schedule: seq<string>): Hub
    decreases schedule
  {
    if schedule == [] then h else RunSchedule(HubStep(h, schedule[0]), schedule[1..])
  }

  /** Each repository owns its footprint, and footprints do not meet. */
  ghost predicate AreDisjoint(h: Hub, feet: map<string, set<Path>>) {
    AllOwn(h.workers, feet) && AreApart(feet)
  }

  ghost predicate AreApart(feet: map<string, set<Path>>) {
    forall repo, other :: repo in feet && other in feet && repo != other ==> feet[repo] !! feet[other]
  }

  lemma HubStepKeepsDisjoint(h: Hub, feet: map<string, set<Path>>, repo: string)
    requires AreDisjoint(h, feet)
    ensures AreDisjoint(HubStep(h, repo), feet)
  {
    if repo in h.workers {
      StepKeepsOwning(h.workers[repo], h.files, feet[repo]);
      OwningAfterOne(h.workers, feet, repo, Step(h.workers[repo], h.files).0);
    }
  }

  lemma StepKeepsOwning(k: Worker, files: Files, foot: set<Path>)
    requires Owns(foot, k)
    ensures Owns(foot, Step(k, files).0)
  {
    StepIsLocal(k, files, files, foot);
  }

  ghost predicate AllOwn(workers: map<string, Worker>, feet: map<string, set<Path>>) {
    feet.Keys == workers.Keys && forall repo <- workers :: Owns(feet[repo], workers[repo])
  }

  lemma OwningAfterOne(workers: map<string, Worker>, feet: map<string, set<Path>>, repo: string, k: Worker)
    requires AllOwn(workers, feet) && repo in workers && Owns(feet[repo], k)
    ensures AllOwn(workers[repo := k], feet)
  {}

  lemma OtherStepIsInvisible(h: Hub, feet: map<string, set<Path>>, other: string, repo: string)
    requires AreDisjoint(h, feet) && repo in h.workers && other != repo
    ensures AgreeOn(feet[repo], h.files, HubStep(h, other).files)
    ensures repo in HubStep(h, other).workers && HubStep(h, other).workers[repo] == h.workers[repo]
  {
    if other in h.workers {
      StepIsLocal(h.workers[other], h.files, h.files, feet[other]);
      assert feet[other] !! feet[repo];
    }
  }

  /** The repository ends as it would alone with its share of the steps. */
  ghost predicate Projects(h: Hub, foot: set<Path>, schedule: seq<string>, repo: string)
    requires repo in h.workers
  {
    var end, alone := RunSchedule(h, schedule), Steps(h.workers[repo], h.files, multiset(schedule)[repo]);
    repo in end.workers && end.workers[repo] == alone.0 && AgreeOn(foot, end.files, alone.1)
  }

  lemma ProjectsOwnStep(h: Hub, foot: set<Path>, rest: seq<string>, repo: string)
    requires repo in h.workers && Projects(HubStep(h, repo), foot, rest, repo)
    ensures Projects(h, foot, [repo] + rest, repo)
  {
    assert ([repo] + rest)[1..] == rest;
    assert multiset([repo] + rest)[repo] == multiset(rest)[repo] + 1;
  }

  lemma ProjectsOtherStep(h: Hub, foot: set<Path>, other: string, rest: seq<string>, repo: string)
    requires repo in h.workers && other != repo && Owns(foot, h.workers[repo])
    requires repo in HubStep(h, other).workers && HubStep(h, other).workers[repo] == h.workers[repo]
    requires AgreeOn(foot, h.files, HubStep(h, other).files) && Projects(HubStep(h, other), foot, rest, repo)
    ensures Projects(h, foot, [other] + rest, repo)
  {
    assert ([other] + rest)[1..] == rest;
    assert multiset([other] + rest)[repo] == multiset(rest)[repo];
    StepsAreLocal(h.workers[repo], h.files, HubStep(h, other).files, foot, multiset(rest)[repo]);
  }

  /** In any interleaving, a repository does exactly what it would do alone with its share of the steps. */
  lemma {:induction false} Projection(h: Hub, feet: map<string, set<Path>>, schedule: seq<string>, repo: string)
    requires AreDisjoint(h, feet) && repo in h.workers
    ensures Projects(h, feet[repo], schedule, repo)
    decreases schedule
  {
    if schedule != [] {
      var first, rest := schedule[0], schedule[1..];
      assert schedule == [first] + rest;
      HubStepKeepsDisjoint(h, feet, first);
      if first == repo {
        Projection(HubStep(h, first), feet, rest, repo);
        ProjectsOwnStep(h, feet[repo], rest, repo);
      } else {
        OtherStepIsInvisible(h, feet, first, repo);
        Projection(HubStep(h, first), feet, rest, repo);
        ProjectsOtherStep(h, feet[repo], first, rest, repo);
      }
    }
  }

  lemma {:induction false} OutsideStays(h: Hub, feet: map<string, set<Path>>, schedule: seq<string>, p: Path)
    requires AreDisjoint(h, feet) && forall repo <- feet :: p !in feet[repo]
    ensures At(RunSchedule(h, schedule).files, p) == At(h.files, p)
    decreases schedule
  {
    if schedule != [] {
      var first := schedule[0];
      if first in h.workers { StepIsLocal(h.workers[first], h.files, h.files, feet[first]); }
      HubStepKeepsDisjoint(h, feet, first);
      OutsideStays(HubStep(h, first), feet, schedule[1..], p);
    }
  }

  lemma {:induction false} SameRepositories(h: Hub, schedule: seq<string>)
    ensures RunSchedule(h, schedule).workers.Keys == h.workers.Keys
    decreases schedule
  {
    if schedule != [] { SameRepositories(HubStep(h, schedule[0]), schedule[1..]); }
  }

  /** Every repository starts at its first item with an empty report. */
  ghost predicate IsStart(h: Hub) {
    forall repo <- h.workers ::
      h.workers[repo] == Fresh(h.workers[repo].w, h.workers[repo].apply, h.workers[repo].items)
  }

  /** Every repository has written its report file, or tried to. */
  ghost predicate IsFinished(h: Hub) {
    forall repo <- h.workers :: h.workers[repo].phase.Reported?
  }

  /**
   However the steps interleave, once all repositories are finished each has the report, and each
   footprint the files, of that repository synced alone.
   */
  lemma ParallelIsSequential(h: Hub, feet: map<string, set<Path>>, schedule: seq<string>, repo: string)
    requires AreDisjoint(h, feet) && IsStart(h) && repo in h.workers
    requires IsFinished(RunSchedule(h, schedule))
    ensures var end, k := RunSchedule(h, schedule), h.workers[repo];
            var alone := SyncItems(k.w, k.apply, h.files, k.items);
            repo in end.workers && end.workers[repo].report == alone.report
            && AgreeOn(feet[repo], end.files, alone.files)
  {
    var k, n := h.workers[repo], multiset(schedule)[repo];
    Projection(h, feet, schedule, repo);
    var enough := EnoughSteps(k, h.files);
    var there := Steps(k, h.files, n);
    StepsAdd(k, h.files, n, enough);
    DoneStaysDone(there.0, there.1, enough);
    assert Steps(k, h.files, n + enough) == there;
    FreshEndsInSync(k.w, k.apply, k.items, h.files);
  }

  /** Two finished interleavings agree on every file and every report. */
  lemma InterleavingsAgree(h: Hub, feet: map<string, set<Path>>, schedule: seq<string>, schedule': seq<string>, p: Path)
    requires AreDisjoint(h, feet) && IsStart(h)
    requires IsFinished(RunSchedule(h, schedule)) && IsFinished(RunSchedule(h, schedule'))
    ensures At(RunSchedule(h, schedule).files, p) == At(RunSchedule(h, schedule').files, p)
    ensures forall repo <- h.workers ::
              && repo in RunSchedule(h, schedule).workers && repo in RunSchedule(h, schedule').workers
              && RunSchedule(h, schedule).workers[repo].report == RunSchedule(h, schedule').workers[repo].report
  {
    forall repo | repo in h.workers
      ensures repo in RunSchedule(h, schedule).workers && repo in RunSchedule(h, schedule').workers
      ensures RunSchedule(h, schedule).workers[repo].report == RunSchedule(h, schedule').workers[repo].report
      ensures AgreeOn(feet[repo], RunSchedule(h, schedule).files, RunSchedule(h, schedule').files)
    {
      ParallelIsSequential(h, feet, schedule, repo);
      ParallelIsSequential(h, feet, schedule', repo);
    }
    if repo :| repo in feet && p in feet[repo] {
      assert AgreeOn(feet[repo], RunSchedule(h, schedule).files, RunSchedule(h, schedule').files);
    } else {
      OutsideStays(h, feet, schedule, p);
      OutsideStays(h, feet, schedule', p);
    }
  }

  // ----- aggregation in completion order -----

  function Aggregate(reports: map<string, Report>, order: seq<string>): Summary
    requires forall repo <- order :: repo in reports
  {
    if order == [] then NO_ACTIONS
    else Aggregate(reports, order[..|order| - 1]).Plus(reports[order[|order| - 1]].summary)
  }

  method AggregateReports(reports: map<string, Report>, order: seq<string>) returns (sum: Summary, failed: bool)
    requires forall repo <- order :: repo in reports
    ensures sum == Aggregate(reports, order)
    ensures failed <==> sum.error > 0 || exists repo <- order :: reports[repo].failed
  {
    sum, failed := NO_ACTIONS, false;
    for i := 0 to |order|
      invariant sum == Aggregate(reports, order[..i])
      invariant failed <==> exists repo <- order[..i] :: reports[repo].failed
    {
      assert order[..i + 1][..i] == order[..i];
      sum := sum.Plus(reports[order[i]].summary);
      failed := failed || reports[order[i]].failed;
    }
    assert order[..|order|] == order;
    failed := failed || sum.error > 0;
  }

  /** Leaving out one of the first and then the last, in either order. */
  lemma WithoutOneAndLast(order: seq<string>, i: nat)
    requires i < |order| - 1
    ensures var m, rest := |order| - 1, order[..i] + order[i + 1..];
            rest[..|rest| - 1] == order[..m][..i] + order[..m][i + 1..] && rest[|rest| - 1] == order[m]
  {}

  lemma {:induction false} AggregateWithout(reports: map<string, Report>, order: seq<string>, i: nat)
    requires i < |order| && forall repo <- order :: repo in reports
    ensures Aggregate(reports, order) == Aggregate(reports, order[..i] + order[i + 1..]).Plus(reports[order[i]].summary)
    decreases |order|
  {
    var m := |order| - 1;
    if i == m {
      assert order[..i] + order[i + 1..] == order[..m];
    } else {
      AggregateWithout(reports, order[..m], i);
      WithoutOneAndLast(order, i);
    }
  }

  /** The order in which the repositories complete does not matter. */
  lemma {:induction false} AggregateIgnoresOrder(reports: map<string, Report>, order: seq<string>, order': seq<string>)
    requires forall repo <- order :: repo in reports
    requires multiset(order) == multiset(order')
    ensures forall repo <- order' :: repo in reports
    ensures Aggregate(reports, order) == Aggregate(reports, order')
    decreases |order|
  {
    forall repo | repo in order' ensures repo in order { assert repo in multiset(order'); }
    if order == [] {
      assert |multiset(order)| == |multiset(order')| == 0;
    } else {
      var m := |order| - 1;
      assert order[m] in multiset(order');
      var i :| 0 <= i < |order'| && order'[i] == order[m];
      RemovingOne(order, m);
      RemovingOne(order', i);
      assert order[..m] + order[m + 1..] == order[..m];
      AggregateIgnoresOrder(reports, order[..m], order'[..i] + order'[i + 1..]);
      AggregateWithout(reports, order', i);
    }
  }

  lemma RemovingOne<T>(s: seq<T>, i: nat)
    requires i < |s|
    ensures multiset(s[..i] + s[i + 1..]) == multiset(s) - multiset{s[i]}
  {
    assert s == s[..i] + [s[i]] + s[i + 1..];
  }

  /** When the reports add up, the run is an error exactly if some error was counted. */
  lemma {:induction false} FailedIffErrors(reports: map<string, Report>, order: seq<string>)
    requires forall repo <- order :: repo in reports && AddsUp(reports[repo])
    ensures (exists repo <- order :: reports[repo].failed) <==> Aggregate(reports, order).error > 0
    decreases |order|
  {
    if order != [] {
      var front := order[..|order| - 1];
      assert order == front + [order[|order| - 1]];
      FailedIffErrors(reports, front);
    }
  }

  // ----- the whole hub -----

  /** What a run of the hub is given; every repository has a world of its own. */
  datatype Run = Run(worlds: map<string, World>, apply: bool, cache: map<string, string>, filter: seq<string>,
                     entries: seq<Entry>, files: Files)
  {
    /** The repositories, each planned with the shared hash cache. */
    function Start(): Hub {
      Hub(map repo | repo in worlds :: Fresh(worlds[repo], apply, Plan(worlds[repo], cache, filter, entries)), files)
    }

    /** A repository synced alone. */
    function Alone(repo: string): State
      requires repo in worlds
    {
      SyncRepo(worlds[repo], apply, files, cache, filter, entries)
    }

    function ReportsAlone(): map<string, Report> { map repo | repo in worlds :: Alone(repo).report }
  }

  function ReportsOf(h: Hub): map<string, Report> { map repo | repo in h.workers :: h.workers[repo].report }

  ghost predicate EndsAlone(run: Run, end: Hub, repo: string)
    requires repo in run.worlds
  {
    repo in end.workers && end.workers[repo].report == run.Alone(repo).report
  }

  /** Whatever the schedule, a finished hub gives each repository the report and the files of its sync alone. */
  lemma HubGivesRepositoryAlone(run: Run, feet: map<string, set<Path>>, schedule: seq<string>, repo: string)
    requires AreDisjoint(run.Start(), feet) && IsFinished(RunSchedule(run.Start(), schedule)) && repo in run.worlds
    ensures var end := RunSchedule(run.Start(), schedule);
            && EndsAlone(run, end, repo)
            && repo in feet && AgreeOn(feet[repo], end.files, run.Alone(repo).files)
  {
    assert repo in run.Start().workers;
    ParallelIsSequential(run.Start(), feet, schedule, repo);
  }

  lemma ReportsFrom(run: Run, end: Hub)
    requires end.workers.Keys == run.worlds.Keys
    requires forall repo <- run.worlds :: EndsAlone(run, end, repo)
    ensures ReportsOf(end) == run.ReportsAlone()
  {}

  lemma HubKeepsRepositories(run: Run, schedule: seq<string>)
    ensures RunSchedule(run.Start(), schedule).workers.Keys == run.worlds.Keys
  {
    SameRepositories(run.Start(), schedule);
  }

  lemma HubReportsAreAlone(run: Run, feet: map<string, set<Path>>, schedule: seq<string>)
    requires AreDisjoint(run.Start(), feet) && IsFinished(RunSchedule(run.Start(), schedule))
    ensures ReportsOf(RunSchedule(run.Start(), schedule)) == run.ReportsAlone()
  {
    var end := RunSchedule(run.Start(), schedule);
    HubKeepsRepositories(run, schedule);
    forall repo <- run.worlds ensures EndsAlone(run, end, repo) {
      HubGivesRepositoryAlone(run, feet, schedule, repo);
    }
    ReportsFrom(run, end);
  }

  /**
   The hub's summary and status do not depend on the schedule or on the order of completion: they
   are those of the repositories synced alone, and the status is error iff an error was counted.
   */
  lemma HubSummaryIsSequential(run: Run, feet: map<string, set<Path>>, schedule: seq<string>, order: seq<string>,
                               order': seq<string>)
    requires AreDisjoint(run.Start(), feet) && IsFinished(RunSchedule(run.Start(), schedule))
    requires multiset(order) == multiset(order') && forall repo <- order :: repo in run.worlds
    ensures var reports, alone := ReportsOf(RunSchedule(run.Start(), schedule)), run.ReportsAlone();
            && (forall repo <- order :: repo in reports) && (forall repo <- order' :: repo in alone)
            && Aggregate(reports, order) == Aggregate(alone, order')
            && ((exists repo <- order :: reports[repo].failed) <==> Aggregate(alone, order').error > 0)
  {
    var alone := run.ReportsAlone();
    HubReportsAreAlone(run, feet, schedule);
    AggregateIgnoresOrder(alone, order, order');
    forall repo <- alone ensures AddsUp(alone[repo]) {
      ReportAddsUp(run.worlds[repo], run.apply, run.files, Plan(run.worlds[repo], run.cache, run.filter, run.entries));
    }
    FailedIffErrors(alone, order);
  }

  // ----- the cached hub run is the uncached one -----

  /** Every repository is synced from the same metarepo, whose files hash alike for all. */
  ghost predicate ShareSources(w: World, w': World) {
    && w.sha == w'.sha && w.resolveSource == w'.resolveSource && w.sources == w'.sources
    && forall p <- w.sources :: p in w.unreadable <==> p in w'.unreadable
  }

  lemma TransparentForAll(w: World, w': World, cache: map<string, string>, filter: seq<string>, entries: seq<Entry>)
    requires ShareSources(w, w') && IsTransparent(w, cache, filter, entries)
    ensures IsTransparent(w', cache, filter, entries)
  {
    forall e <- entries | IsSelected(e, filter) && HasSource(w', e)
      ensures SourceHash(w', cache, e, w'.resolveSource(e.source).value) == OwnHash(w', e)
    {
      assert HasSource(w, e) && OwnHash(w, e) == OwnHash(w', e);
    }
  }

  /**
   With the cache that is computed for the hub, and entries that agree on their hashes where they
   share an id, the hub starts as it would without a cache.  So every schedule gives the same
   files, reports and summary.
   */
  lemma HubCacheIsTransparent(run: Run, w: World, schedule: seq<string>)
    requires run.cache == ExtendCache(w, map[], run.filter, run.entries) && DoIdsAgree(w, run.filter, run.entries)
    requires forall repo <- run.worlds :: ShareSources(w, run.worlds[repo])
    ensures RunSchedule(run.Start(), schedule) == RunSchedule(run.(cache := map[]).Start(), schedule)
    ensures run.ReportsAlone() == run.(cache := map[]).ReportsAlone()
  {
    CacheIsTransparentIff(w, run.filter, run.entries);
    forall repo <- run.worlds ensures IsPlannedAlike(run, repo) {
      TransparentForAll(w, run.worlds[repo], run.cache, run.filter, run.entries);
      SamePlan(run.worlds[repo], run.cache, run.filter, run.entries);
    }
    SameStart(run);
  }

  /** The repository's plan is the one without a cache. */
  ghost predicate IsPlannedAlike(run: Run, repo: string)
    requires repo in run.worlds
  {
    Plan(run.worlds[repo], run.cache, run.filter, run.entries) == Plan(run.worlds[repo], map[], run.filter, run.entries)
  }

  lemma SameStart(run: Run)
    requires forall repo <- run.worlds :: IsPlannedAlike(run, repo)
    ensures run.Start() == run.(cache := map[]).Start() && run.ReportsAlone() == run.(cache := map[]).ReportsAlone()
  {
    var uncached := run.(cache := map[]);
    assert run.Start().workers.Keys == uncached.Start().workers.Keys == run.worlds.Keys;
    assert run.Start().workers == uncached.Start().workers;
    assert run.ReportsAlone() == uncached.ReportsAlone();
  }
}
