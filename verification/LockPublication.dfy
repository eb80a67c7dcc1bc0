/**
 Transactional publication of the dependency locks (scripts/release/compile_dependency_locks.py).

 The file system may fail any read, temporary-file creation, write, mode change or forward
 rename.  Which of these operations fail is a parameter, by their number, so the contracts hold
 for every pattern of faults.  Renames during rollback and the removal of temporary files are
 taken to work.
 */
module LockPublication {
  import opened Wrappers

  const LOCK_NAMES: seq<string> := ["runtime", "dev", "browser", "lock-tools"]

  datatype Kind = New | Rollback

  /** A temporary file's name holds the lock's name and the kind of copy, plus a random part. */
  datatype Slot = Target | Temporary(kind: Kind, salt: nat)

  datatype Path = Path(name: string, slot: Slot)

  datatype File = File(data: Bytes, mode: nat)

  type Files = map<Path, File>

  function At(files: Files, p: Path): Option<File> {
    if p in files then Some(files[p]) else None
  }

  /** The permission bits that a copy takes over from the original. */
  function Permissions(mode: nat): nat { mode % 0x200 }

  // ----- a file system that may fail -----

  lemma SomeSaltIsFree(files: Files, name: string, kind: Kind)
    ensures exists salt: nat :: Path(name, Temporary(kind, salt)) !in files
    decreases |files|
  {
    var used := set p | p in files && p.slot.Temporary? :: p.slot.salt;
    var bound := Above(used);
    assert forall p: Path :: p in files && p.slot.Temporary? ==> p.slot.salt in used;
    assert Path(name, Temporary(kind, bound)) !in files;
  }

  lemma Above(used: set<nat>) returns (bound: nat)
    ensures forall salt <- used :: salt < bound
  {
    if used == {} {
      bound := 0;
    } else {
      var salt :| salt in used;
      bound := Above(used - {salt});
      assert forall other <- used :: other == salt || other in used - {salt};
      bound := if salt < bound then bound else salt + 1;
    }
  }

  class FileSystem {
    var files: Files
    /** How many operations have been attempted, and which of them fail. */
    var ticks: nat
    const fails: nat -> bool

    constructor (files: Files, fails: nat -> bool)
      ensures this.files == files && this.fails == fails && ticks == 0
    {
      this.files, this.fails, ticks := files, fails, 0;
    }

    /** No fault struck the operations from `start` up to `end`. */
    ghost predicate NoFault(start: nat, end: nat) {
      start <= end && forall k :: start <= k < end ==> !fails(k)
    }

    method Attempt() returns (ok: bool)
      modifies this`ticks
      ensures ticks == old(ticks) + 1 && ok == !fails(old(ticks))
    {
      ok := !fails(ticks);
      ticks := ticks + 1;
    }

    method Stat(p: Path) returns (mode: Option<nat>)
      modifies this`ticks
      ensures ticks == old(ticks) + 1
      ensures mode == if fails(old(ticks)) || p !in files then None else Some(files[p].mode)
    {
      var ok := Attempt();
      mode := if !ok || p !in files then None else Some(files[p].mode);
    }

    method Read(p: Path) returns (data: Option<Bytes>)
      modifies this`ticks
      ensures ticks == old(ticks) + 1
      ensures data == if fails(old(ticks)) || p !in files then None else Some(files[p].data)
    {
      var ok := Attempt();
      data := if !ok || p !in files then None else Some(files[p].data);
    }

    /** Reads what the compiler left in the staging directory. */
    method ReadStaged(staged: map<string, Bytes>, name: string) returns (data: Option<Bytes>)
      modifies this`ticks
      ensures ticks == old(ticks) + 1
      ensures data == if fails(old(ticks)) || name !in staged then None else Some(staged[name])
    {
      var ok := Attempt();
      data := if !ok || name !in staged then None else Some(staged[name]);
    }

    method MakeTemporary(name: string, kind: Kind) returns (p: Option<Path>)
      modifies this
      ensures ticks == old(ticks) + 1 && (p.None? <==> fails(old(ticks)))
      ensures p.None? ==> files == old(files)
      ensures p.Some? ==>
        && p.value.name == name && p.value.slot.Temporary? && p.value.slot.kind == kind
        && p.value !in old(files)
        && files == old(files)[p.value := File([], 0x180)]
    {
      var ok := Attempt();
      if !ok { return None; }
      SomeSaltIsFree(files, name, kind);
      var salt: nat :| Path(name, Temporary(kind, salt)) !in files;
      p := Some(Path(name, Temporary(kind, salt)));
      files := files[p.value := File([], 0x180)];
    }

    /** Write, flush and sync; a failure may leave any part of the data behind. */
    method Write(p: Path, data: Bytes) returns (ok: bool)
      requires p in files
      modifies this
      ensures ticks == old(ticks) + 1 && ok == !fails(old(ticks))
      ensures files.Keys == old(files).Keys && forall q <- files :: q != p ==> files[q] == old(files)[q]
      ensures ok ==> files[p] == File(data, old(files)[p].mode)
    {
      ok := Attempt();
      var written :| 0 <= written <= |data|;
      files := files[p := File(if ok then data else data[..written], files[p].mode)];
    }

    method ChangeMode(p: Path, mode: nat) returns (ok: bool)
      requires p in files
      modifies this
      ensures ticks == old(ticks) + 1 && ok == !fails(old(ticks))
      ensures files == if ok then old(files)[p := File(old(files)[p].data, mode)] else old(files)
    {
      ok := Attempt();
      if ok { files := files[p := File(files[p].data, mode)]; }
    }

    method Replace(source: Path, target: Path) returns (ok: bool)
      requires source in files && source != target
      modifies this
      ensures ticks == old(ticks) + 1 && ok == !fails(old(ticks))
      ensures files == if ok then old(files)[target := old(files)[source]] - {source} else old(files)
    {
      ok := Attempt();
      if ok { files := files[target := files[source]] - {source}; }
    }

    method ReplaceSurely(source: Path, target: Path)
      requires source in files && source != target
      modifies this`files
      ensures files == old(files)[target := old(files)[source]] - {source}
    {
      files := files[target := files[source]] - {source};
    }

    method Unlink(p: Path)
      modifies this`files
      ensures files == old(files) - {p}
    {
      files := files - {p};
    }
  }

  // ----- what publication may do to the files -----

  datatype Prepared = Prepared(replacement: Path, rollback: Path, target: Path)

  /** The new file of a lock: the staged bytes with the old permissions. */
  function NewFile(base: Files, staged: map<string, Bytes>, name: string): File
    requires name in staged && Path(name, Target) in base
  {
    File(staged[name], Permissions(base[Path(name, Target)].mode))
  }

  function OldFile(base: Files, name: string): File
    requires Path(name, Target) in base
  {
    File(base[Path(name, Target)].data, Permissions(base[Path(name, Target)].mode))
  }

  ghost predicate IsPublishable(base: Files, staged: map<string, Bytes>, names: seq<string>) {
    forall n <- names :: n in staged && Path(n, Target) in base
  }

  /** Every named lock is new; nothing else differs and no temporary file remains. */
  function PublishedFiles(base: Files, staged: map<string, Bytes>, names: seq<string>): (files: Files)
    requires IsPublishable(base, staged, names)
    ensures files.Keys == base.Keys
    ensures forall n <- names ::
              && files[Path(n, Target)].data == staged[n]
              && files[Path(n, Target)].mode == base[Path(n, Target)].mode % 512
    ensures forall p <- base :: p.name !in names || p.slot != Target ==> files[p] == base[p]
  {
    map p | p in base :: if p.slot.Target? && p.name in names then NewFile(base, staged, p.name) else base[p]
  }

  /** Every named lock was replaced and rolled back: the bytes are old, the mode is cut to permissions. */
  function RestoredFiles(base: Files, names: seq<string>): Files {
    map p | p in base :: if p.slot.Target? && p.name in names then OldFile(base, p.name) else base[p]
  }

  predicate HasPlainModes(files: Files) {
    forall p <- files :: files[p].mode < 0x200
  }

  /** With permission bits only, a rolled-back publication leaves every byte and mode as it was. */
  lemma RollbackIsExact(base: Files, names: seq<string>)
    ensures RestoredFiles(base, names) == base
       <==> forall p <- base :: p.slot.Target? && p.name in names ==> base[p].mode < 0x200
  {
    var restored := RestoredFiles(base, names);
    if restored == base {
      forall p | p in base && p.slot.Target? && p.name in names ensures base[p].mode < 0x200 {
        assert restored[p] == OldFile(base, p.name) && p == Path(p.name, Target);
      }
    } else if forall p <- base :: p.slot.Target? && p.name in names ==> base[p].mode < 0x200 {
      forall p | p in base ensures restored[p] == base[p] {
        if p.slot.Target? { assert p == Path(p.name, Target); }
      }
    }
  }

  // ----- the state of one lock in the middle of a publication -----

  predicate IsFor(pr: Prepared, name: string) {
    && pr.target == Path(name, Target)
    && pr.replacement.name == name && pr.replacement.slot.Temporary? && pr.replacement.slot.kind == New
    && pr.rollback.name == name && pr.rollback.slot.Temporary? && pr.rollback.slot.kind == Rollback
  }

  ghost predicate Holds(base: Files, files: Files, pr: Prepared, target: File,
                        replacement: Option<File>, rollback: Option<File>) {
    && At(files, pr.target) == Some(target)
    && At(files, pr.replacement) == replacement
    && At(files, pr.rollback) == rollback
    && forall p: Path :: p.name == pr.target.name && p !in {pr.target, pr.replacement, pr.rollback}
         ==> At(files, p) == At(base, p)
  }

  ghost predicate Untouched(base: Files, files: Files, names: seq<string>) {
    forall p: Path :: p.name !in names ==> At(files, p) == At(base, p)
  }

  ghost predicate AreDistinct(names: seq<string>) {
    forall i, j :: 0 <= i < j < |names| ==> names[i] != names[j]
  }

  /**
   All of `prepared` belong to the first locks of `names`.  The first `replaced` were renamed over,
   of which those from `restored` on have been rolled back; the copies of the first `cleaned` are
   gone.
   */
  ghost predicate InTransaction(base: Files, files: Files, staged: map<string, Bytes>, names: seq<string>,
                                prepared: seq<Prepared>, restored: nat, replaced: nat, cleaned: nat) {
    && restored <= replaced <= |prepared| <= |names| && cleaned <= |prepared| && AreDistinct(names)
    && IsPublishable(base, staged, names[..|prepared|])
    && Untouched(base, files, names[..|prepared|])
    && forall j :: 0 <= j < |prepared| ==> InStep(base, files, staged, names[j], prepared[j],
                                                  j < restored, j < replaced, j < cleaned)
  }

  ghost predicate InStep(base: Files, files: Files, staged: map<string, Bytes>, name: string, pr: Prepared,
                         isNew: bool, isReplaced: bool, isCleaned: bool) {
    && IsFor(pr, name) && name in staged && pr.target in base
    && pr.replacement !in base && pr.rollback !in base
    && var updated := NewFile(base, staged, name);
       var saved := OldFile(base, name);
       Holds(base, files, pr,
             if isNew then updated else if isReplaced then saved else base[pr.target],
             if isReplaced || isCleaned then None else Some(updated),
             if isCleaned || (isReplaced && !isNew) then None else Some(saved))
  }

  /** A change to the files of one lock leaves the step of every other lock as it was. */
  lemma OtherLocksKeepStep(base: Files, files: Files, files': Files, staged: map<string, Bytes>, name: string,
                           other: string, pr: Prepared, isNew: bool, isReplaced: bool, isCleaned: bool)
    requires InStep(base, files, staged, other, pr, isNew, isReplaced, isCleaned) && other != name
    requires forall p: Path :: p.name != name ==> At(files', p) == At(files, p)
    ensures InStep(base, files', staged, other, pr, isNew, isReplaced, isCleaned)
  {}

  lemma SameFiles(files: Files, files': Files)
    requires forall p :: At(files, p) == At(files', p)
    ensures files == files'
  {
    forall p ensures p in files <==> p in files' { assert At(files, p) == At(files', p); }
    forall p | p in files ensures files[p] == files'[p] { assert At(files, p) == At(files', p); }
  }

  /** When every copy is gone, the transaction has either happened or been undone. */
  lemma TransactionEnds(base: Files, files: Files, staged: map<string, Bytes>, names: seq<string>,
                        prepared: seq<Prepared>, restored: nat, replaced: nat)
    requires InTransaction(base, files, staged, names, prepared, restored, replaced, |prepared|)
    ensures restored == |names| ==> IsPublishable(base, staged, names) && files == PublishedFiles(base, staged, names)
    ensures restored == 0 ==> files == RestoredFiles(base, names[..replaced])
  {
    if restored == |names| { assert names[..|prepared|] == names; }
    forall p
      ensures restored == |names| ==> At(files, p) == At(PublishedFiles(base, staged, names), p)
      ensures restored == 0 ==> At(files, p) == At(RestoredFiles(base, names[..replaced]), p)
    {
      if p.name in names[..|prepared|] {
        var j :| 0 <= j < |prepared| && names[j] == p.name;
        assert InStep(base, files, staged, names[j], prepared[j], j < restored, j < replaced, true);
        assert p.name in names[..replaced] <==> j < replaced;
        if p.slot.Target? { assert p == prepared[j].target; }
      }
    }
    if restored == |names| { SameFiles(files, PublishedFiles(base, staged, names)); }
    if restored == 0 { SameFiles(files, RestoredFiles(base, names[..replaced])); }
  }

  // ----- the publication itself -----

  /** Fills a fresh temporary file; a failure leaves something behind in it. */
  method FillCopy(fs: FileSystem, p: Path, data: Bytes, mode: nat) returns (ok: bool)
    requires p in fs.files
    modifies fs
    ensures fs.files.Keys == old(fs.files).Keys && forall q <- fs.files :: q != p ==> fs.files[q] == old(fs.files)[q]
    ensures ok ==> fs.files[p] == File(data, mode)
    ensures old(fs.ticks) <= fs.ticks && (ok <==> fs.NoFault(old(fs.ticks), fs.ticks))
  {
    ok := fs.Write(p, data);
    if ok { ok := fs.ChangeMode(p, mode); }
  }

  /** A temporary file with the given data and mode, or no trace of one. */
  method MakeCopy(fs: FileSystem, name: string, kind: Kind, data: Bytes, mode: nat) returns (p: Option<Path>)
    modifies fs
    ensures p.None? ==> fs.files == old(fs.files)
    ensures p.Some? ==>
      && p.value.name == name && p.value.slot.Temporary? && p.value.slot.kind == kind
      && p.value !in old(fs.files) && fs.files == old(fs.files)[p.value := File(data, mode)]
    ensures old(fs.ticks) <= fs.ticks && (p.Some? <==> fs.NoFault(old(fs.ticks), fs.ticks))
  {
    p := fs.MakeTemporary(name, kind);
    if p.Some? {
      var ok := FillCopy(fs, p.value, data, mode);
      if !ok {
        fs.Unlink(p.value);
        assert fs.files == old(fs.files);
        p := None;
      }
    }
  }

  /** Copies of the new and the old lock, unless a fault strikes or there is nothing to copy. */
  method PrepareLock(fs: FileSystem, staged: map<string, Bytes>, name: string) returns (pr: Option<Prepared>)
    modifies fs
    ensures pr.None? ==> fs.files == old(fs.files)
    ensures pr.Some? ==>
      && (forall p: Path :: p.name != name ==> At(fs.files, p) == At(old(fs.files), p))
      && InStep(old(fs.files), fs.files, staged, name, pr.value, false, false, false)
    ensures old(fs.ticks) <= fs.ticks
    ensures pr.Some? <==>
      fs.NoFault(old(fs.ticks), fs.ticks) && Path(name, Target) in old(fs.files) && name in staged
  {
    var target := Path(name, Target);
    var mode := fs.Stat(target);
    if mode.None? { return None; }
    var data := fs.ReadStaged(staged, name);
    if data.None? { return None; }
    var saved := fs.Read(target);
    if saved.None? { return None; }

    var replacement := MakeCopy(fs, name, New, data.value, Permissions(mode.value));
    if replacement.None? { return None; }
    var rollback := MakeCopy(fs, name, Rollback, saved.value, Permissions(mode.value));
    if rollback.None? {
      fs.Unlink(replacement.value);
      assert fs.files == old(fs.files);
      return None;
    }
    pr := Some(Prepared(replacement.value, rollback.value, target));
  }

  /** Renames every replacement over its lock; stops at the first failure. */
  method ReplaceAll(fs: FileSystem, prepared: seq<Prepared>, ghost base: Files, ghost staged: map<string, Bytes>,
                    ghost names: seq<string>) returns (replaced: nat)
    requires InTransaction(base, fs.files, staged, names, prepared, 0, 0, 0)
    modifies fs
    ensures InTransaction(base, fs.files, staged, names, prepared, replaced, replaced, 0)
    ensures old(fs.ticks) <= fs.ticks && (replaced == |prepared| <==> fs.NoFault(old(fs.ticks), fs.ticks))
  {
    replaced := 0;
    while replaced < |prepared|
      invariant InTransaction(base, fs.files, staged, names, prepared, replaced, replaced, 0)
      invariant fs.NoFault(old(fs.ticks), fs.ticks)
    {
      var pr := prepared[replaced];
      ghost var before := fs.files;
      assert InStep(base, before, staged, names[replaced], pr, false, false, false);
      var ok := fs.Replace(pr.replacement, pr.target);
      if !ok { return; }
      Advance(base, before, fs.files, staged, names, prepared, replaced, replaced, 0, replaced + 1, replaced + 1, 0,
              replaced);
      replaced := replaced + 1;
    }
  }

  /** Renames the saved copies back, last lock first. */
  method RollBack(fs: FileSystem, prepared: seq<Prepared>, replaced: nat, ghost base: Files,
                  ghost staged: map<string, Bytes>, ghost names: seq<string>)
    requires InTransaction(base, fs.files, staged, names, prepared, replaced, replaced, 0)
    modifies fs`files
    ensures InTransaction(base, fs.files, staged, names, prepared, 0, replaced, 0)
  {
    var left: nat := replaced;
    while left > 0
      invariant InTransaction(base, fs.files, staged, names, prepared, left, replaced, 0)
    {
      left := left - 1;
      var pr := prepared[left];
      ghost var before := fs.files;
      assert InStep(base, before, staged, names[left], pr, true, true, false);
      fs.ReplaceSurely(pr.rollback, pr.target);
      Advance(base, before, fs.files, staged, names, prepared, left + 1, replaced, 0, left, replaced, 0, left);
    }
  }

  method RemoveCopies(fs: FileSystem, prepared: seq<Prepared>, ghost restored: nat, ghost replaced: nat,
                      ghost base: Files, ghost staged: map<string, Bytes>, ghost names: seq<string>)
    requires InTransaction(base, fs.files, staged, names, prepared, restored, replaced, 0)
    modifies fs`files
    ensures InTransaction(base, fs.files, staged, names, prepared, restored, replaced, |prepared|)
  {
    for i := 0 to |prepared|
      invariant InTransaction(base, fs.files, staged, names, prepared, restored, replaced, i)
    {
      ghost var before := fs.files;
      assert InStep(base, before, staged, names[i], prepared[i], i < restored, i < replaced, false);
      fs.Unlink(prepared[i].replacement);
      fs.Unlink(prepared[i].rollback);
      Advance(base, before, fs.files, staged, names, prepared, restored, replaced, i, restored, replaced, i + 1, i);
    }
  }

  /** The counter stays, or moves across lock `i` alone. */
  predicate CrossesOnly(count: nat, count': nat, i: nat) {
    count == count' || (count == i && count' == i + 1) || (count == i + 1 && count' == i)
  }

  /** One lock moves to its next step; the others stay where they are. */
  lemma Advance(base: Files, files: Files, files': Files, staged: map<string, Bytes>, names: seq<string>,
                prepared: seq<Prepared>, restored: nat, replaced: nat, cleaned: nat,
                restored': nat, replaced': nat, cleaned': nat, i: nat)
    requires InTransaction(base, files, staged, names, prepared, restored, replaced, cleaned) && i < |prepared|
    requires restored' <= replaced' <= |prepared| && cleaned' <= |prepared|
    requires forall p: Path :: p.name != names[i] ==> At(files', p) == At(files, p)
    requires CrossesOnly(restored, restored', i) && CrossesOnly(replaced, replaced', i)
    requires CrossesOnly(cleaned, cleaned', i)
    requires InStep(base, files', staged, names[i], prepared[i], i < restored', i < replaced', i < cleaned')
    ensures InTransaction(base, files', staged, names, prepared, restored', replaced', cleaned')
  {
    assert names[i] in names[..|prepared|];
    forall j | 0 <= j < |prepared|
      ensures InStep(base, files', staged, names[j], prepared[j], j < restored', j < replaced', j < cleaned')
    {
      if j != i {
        OtherLocksKeepStep(base, files, files', staged, names[i], names[j], prepared[j],
                           j < restored, j < replaced, j < cleaned);
      }
    }
  }

  /** Publishes all named locks if they are staged and exist and no operation fails, and otherwise none of them. */
  method PublishLocks(fs: FileSystem, staged: map<string, Bytes>, names: seq<string>) returns (published: bool)
    requires AreDistinct(names)
    modifies fs
    ensures published <==>
      fs.NoFault(old(fs.ticks), fs.ticks) && IsPublishable(old(fs.files), staged, names)
    ensures old(fs.ticks) <= fs.ticks
    ensures published ==>
      IsPublishable(old(fs.files), staged, names) && fs.files == PublishedFiles(old(fs.files), staged, names)
    ensures !published ==>
      exists k :: 0 <= k <= |names| && fs.files == RestoredFiles(old(fs.files), names[..k])
    ensures !published && HasPlainModes(old(fs.files)) ==> fs.files == old(fs.files)
  {
    ghost var base := fs.files;
    var prepared: seq<Prepared> := [];
    published := true;
    while published && |prepared| < |names|
      invariant InTransaction(base, fs.files, staged, names, prepared, 0, 0, 0)
      invariant old(fs.ticks) <= fs.ticks
      invariant published ==> fs.NoFault(old(fs.ticks), fs.ticks)
      invariant !published ==>
        !(fs.NoFault(old(fs.ticks), fs.ticks) && IsPublishable(base, staged, names))
      decreases published, |names| - |prepared|
    {
      ghost var before := fs.files;
      NextIsUntouched(base, before, staged, names, prepared);
      var pr := PrepareLock(fs, staged, names[|prepared|]);
      if pr.None? {
        published := false;
      } else {
        OneMorePrepared(base, before, fs.files, staged, names, prepared, pr.value);
        prepared := prepared + [pr.value];
      }
    }
    var replaced := 0;
    ghost var restored := 0;
    if published {
      replaced := ReplaceAll(fs, prepared, base, staged, names);
      restored := replaced;
      if replaced < |prepared| {
        published, restored := false, 0;
        RollBack(fs, prepared, replaced, base, staged, names);
      }
    }
    RemoveCopies(fs, prepared, restored, replaced, base, staged, names);
    TransactionEnds(base, fs.files, staged, names, prepared, restored, replaced);
    RollbackIsExact(base, names[..replaced]);
  }

  lemma NextIsUntouched(base: Files, files: Files, staged: map<string, Bytes>, names: seq<string>,
                        prepared: seq<Prepared>)
    requires InTransaction(base, files, staged, names, prepared, 0, 0, 0) && |prepared| < |names|
    ensures var target := Path(names[|prepared|], Target); target in files <==> target in base
  {
    var target := Path(names[|prepared|], Target);
    assert target.name !in names[..|prepared|];
    assert At(files, target) == At(base, target);
  }

  lemma OneMorePrepared(base: Files, files: Files, files': Files, staged: map<string, Bytes>, names: seq<string>,
                        prepared: seq<Prepared>, pr: Prepared)
    requires InTransaction(base, files, staged, names, prepared, 0, 0, 0) && |prepared| < |names|
    requires forall p: Path :: p.name != names[|prepared|] ==> At(files', p) == At(files, p)
    requires InStep(files, files', staged, names[|prepared|], pr, false, false, false)
    ensures InTransaction(base, files', staged, names, prepared + [pr], 0, 0, 0)
  {
    var k := |prepared|;
    assert names[..k + 1] == names[..k] + [names[k]];
    assert names[k] !in names[..k];
    forall p: Path | p.name == names[k] ensures At(files, p) == At(base, p) {}
    assert At(files, pr.target) == At(base, pr.target);
    assert At(files, pr.replacement) == At(base, pr.replacement) && At(files, pr.rollback) == At(base, pr.rollback);
    assert InStep(base, files', staged, names[k], pr, false, false, false);
    forall j | 0 <= j < k
      ensures InStep(base, files', staged, names[j], prepared[j], false, false, false)
    {
      OtherLocksKeepStep(base, files, files', staged, names[k], names[j], prepared[j], false, false, false);
    }
  }
}
