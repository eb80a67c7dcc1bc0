/**
 Staging, comparing and publishing all locks (`generate_locks` of
 scripts/release/compile_dependency_locks.py), and what any sequence of such runs keeps.
 */
module LockGeneration {
  import opened Wrappers
  import opened LockPublication

  /** The locks hold exactly what one staged generation compiled. */
  ghost predicate IsGeneration(files: Files, staged: map<string, Bytes>) {
    forall n <- LOCK_NAMES :: n in staged && Path(n, Target) in files && files[Path(n, Target)].data == staged[n]
  }

  predicate IsStale(files: Files, staged: map<string, Bytes>, name: string) {
    name in staged && Path(name, Target) in files && files[Path(name, Target)].data != staged[name]
  }

  function StaleNames(files: Files, staged: map<string, Bytes>, names: seq<string>): seq<string> {
    if names == [] then []
    else (if IsStale(files, staged, names[0]) then [names[0]] else []) + StaleNames(files, staged, names[1..])
  }

  lemma StaleNamesAre(files: Files, staged: map<string, Bytes>, names: seq<string>)
    ensures forall n :: n in StaleNames(files, staged, names) <==> n in names && IsStale(files, staged, n)
  {}

  lemma StaleNamesAreDistinct(files: Files, staged: map<string, Bytes>, names: seq<string>)
    requires AreDistinct(names)
    ensures AreDistinct(StaleNames(files, staged, names))
  {
    if names != [] {
      assert AreDistinct(names[1..]);
      StaleNamesAreDistinct(files, staged, names[1..]);
      StaleNamesAre(files, staged, names[1..]);
    }
  }

  lemma LockNamesAreDistinct()
    ensures AreDistinct(LOCK_NAMES)
  {
    assert LOCK_NAMES[0][0] == 'r' && LOCK_NAMES[1][0] == 'd' && LOCK_NAMES[2][0] == 'b' && LOCK_NAMES[3][0] == 'l';
  }

  ghost predicate AllCompiled(compiled: map<string, Option<Bytes>>) {
    forall n <- LOCK_NAMES :: n in compiled && compiled[n].Some?
  }

  function Staged(compiled: map<string, Option<Bytes>>): map<string, Bytes> {
    map n | n in compiled && compiled[n].Some? :: compiled[n].value
  }

  // ----- whole runs -----

  ghost predicate SameLockData(files: Files, files': Files) {
    files.Keys == files'.Keys && forall p <- files :: files[p].data == files'[p].data
  }

  /** What one run of `GenerateLocks` may do: nothing to the bytes, or a whole generation. */
  ghost predicate IsRun(files: Files, files': Files, staged: map<string, Bytes>) {
    || SameLockData(files, files')
    || (&& IsGeneration(files', staged) && files.Keys == files'.Keys
        && forall p <- files :: !(p.slot.Target? && p.name in LOCK_NAMES) ==> files'[p] == files[p])
  }

  lemma RestoredIsRun(files: Files, staged: map<string, Bytes>, names: seq<string>)
    ensures IsRun(files, RestoredFiles(files, names), staged)
  {
    var restored := RestoredFiles(files, names);
    forall p | p in files ensures restored[p].data == files[p].data {
      if p.slot.Target? { assert p == Path(p.name, Target); }
    }
    assert SameLockData(files, restored);
  }

  /** One more name at the end. */
  lemma {:induction false} StaleNamesGrow(files: Files, staged: map<string, Bytes>, names: seq<string>, name: string)
    ensures StaleNames(files, staged, names + [name])
         == StaleNames(files, staged, names) + (if IsStale(files, staged, name) then [name] else [])
  {
    if names == [] {
      assert names + [name] == [name] && [name][1..] == [];
    } else {
      assert (names + [name])[1..] == names[1..] + [name];
      StaleNamesGrow(files, staged, names[1..], name);
    }
  }

  ghost predicate ArePresent(files: Files, names: seq<string>) {
    forall n <- names :: Path(n, Target) in files
  }

  /** The names whose staged bytes differ, or `None` if a read fails or a lock is missing. */
  method CompareStaged(fs: FileSystem, staged: map<string, Bytes>, names: seq<string>)
      returns (changed: Option<seq<string>>)
    requires forall n <- names :: n in staged
    modifies fs`ticks
    ensures old(fs.ticks) <= fs.ticks
    ensures changed.Some? <==> fs.NoFault(old(fs.ticks), fs.ticks) && ArePresent(fs.files, names)
    ensures changed.Some? ==> changed.value == StaleNames(fs.files, staged, names)
  {
    ghost var files := fs.files;
    var found: seq<string> := [];
    for i := 0 to |names|
      invariant fs.files == files && ArePresent(files, names[..i]) && fs.NoFault(old(fs.ticks), fs.ticks)
      invariant found == StaleNames(files, staged, names[..i])
    {
      assert names[..i + 1] == names[..i] + [names[i]];
      StaleNamesGrow(files, staged, names[..i], names[i]);
      var compiled := fs.ReadStaged(staged, names[i]);
      var current := fs.Read(Path(names[i], Target));
      if compiled.None? || current.None? { return None; }
      if compiled.value != current.value { found := found + [names[i]]; }
    }
    assert names[..|names|] == names;
    changed := Some(found);
  }

  lemma PublishingStaleLocks(base: Files, staged: map<string, Bytes>)
    requires forall n <- LOCK_NAMES :: n in staged && Path(n, Target) in base
    ensures var names := StaleNames(base, staged, LOCK_NAMES);
            && AreDistinct(names) && IsPublishable(base, staged, names)
            && IsGeneration(PublishedFiles(base, staged, names), staged)
            && IsRun(base, PublishedFiles(base, staged, names), staged)
            && (names == [] <==> IsGeneration(base, staged))
            && (names == [] ==> PublishedFiles(base, staged, names) == base)
  {
    var names := StaleNames(base, staged, LOCK_NAMES);
    StaleNamesAre(base, staged, LOCK_NAMES);
    LockNamesAreDistinct();
    StaleNamesAreDistinct(base, staged, LOCK_NAMES);
    if names != [] { assert names[0] in names; }
  }

  method CompileAll(compiled: map<string, Option<Bytes>>) returns (ok: bool)
    ensures ok == AllCompiled(compiled)
  {
    for i := 0 to |LOCK_NAMES|
      invariant forall n <- LOCK_NAMES[..i] :: n in compiled && compiled[n].Some?
    {
      if LOCK_NAMES[i] !in compiled || compiled[LOCK_NAMES[i]].None? { return false; }
    }
    ok := true;
  }

  /**
   Exit code 0, 1 or 2.  `copied` answers for the copying of the inputs and `compiled` for the
   compiler: each lock's bytes, or a failure.  A failing file operation ends the run with code 2,
   outside publication or inside it.
   */
  method GenerateLocks(fs: FileSystem, environmentOk: bool, copied: bool, compiled: map<string, Option<Bytes>>,
                       check: bool) returns (code: int)
    modifies fs
    ensures old(fs.ticks) <= fs.ticks
    ensures code == 1 <==>
      && environmentOk && copied
      && (!AllCompiled(compiled)
          || (&& check && fs.NoFault(old(fs.ticks), fs.ticks) && ArePresent(old(fs.files), LOCK_NAMES)
              && !IsGeneration(old(fs.files), Staged(compiled))))
    ensures code == 0 <==>
      && environmentOk && copied && AllCompiled(compiled)
      && fs.NoFault(old(fs.ticks), fs.ticks) && ArePresent(old(fs.files), LOCK_NAMES)
      && (check ==> IsGeneration(old(fs.files), Staged(compiled)))
    ensures 0 <= code <= 2
    ensures IsRun(old(fs.files), fs.files, Staged(compiled))
    ensures check || code == 1 ==> fs.files == old(fs.files)
    ensures code == 2 && HasPlainModes(old(fs.files)) ==> fs.files == old(fs.files)
    ensures code == 0 ==> IsGeneration(fs.files, Staged(compiled))
    ensures code == 0 && !check ==>
      var names := StaleNames(old(fs.files), Staged(compiled), LOCK_NAMES);
      && IsPublishable(old(fs.files), Staged(compiled), names)
      && fs.files == PublishedFiles(old(fs.files), Staged(compiled), names)
  {
    if !environmentOk || !copied { return 2; }
    var ok := CompileAll(compiled);
    if !ok { return 1; }
    var staged := Staged(compiled);
    var changed := CompareStaged(fs, staged, LOCK_NAMES);
    if changed.None? { return 2; }
    PublishingStaleLocks(fs.files, staged);
    if check { return if changed.value != [] then 1 else 0; }
    var published := PublishLocks(fs, staged, changed.value);
    if !published {
      ghost var k :| 0 <= k <= |changed.value| && fs.files == RestoredFiles(old(fs.files), changed.value[..k]);
      RestoredIsRun(old(fs.files), staged, changed.value[..k]);
    }
    code := if published then 0 else 2;
  }

  /**
   After any sequence of runs, whatever failed on the way, the locks hold either the bytes they
   began with or the complete output of one generation: never a mixture.
   */
  lemma {:induction false} NoMixedGenerations(history: seq<Files>, staged: seq<map<string, Bytes>>)
    requires |history| == |staged| + 1
    requires forall k :: 0 <= k < |staged| ==> IsRun(history[k], history[k + 1], staged[k])
    ensures var end := history[|staged|];
            && end.Keys == history[0].Keys
            && ((forall n <- LOCK_NAMES :: Path(n, Target) in end ==>
                   end[Path(n, Target)].data == history[0][Path(n, Target)].data)
                || exists k :: 0 <= k < |staged| && IsGeneration(end, staged[k]))
    decreases |staged|
  {
    if staged != [] {
      var m := |staged| - 1;
      NoMixedGenerations(history[..m + 1], staged[..m]);
      var before, end := history[m], history[m + 1];
      assert IsRun(before, end, staged[m]);
      if !IsGeneration(end, staged[m]) {
        assert SameLockData(before, end);
        if k :| 0 <= k < m && IsGeneration(before, staged[..m][k]) {
          assert IsGeneration(end, staged[k]);
        }
      }
    }
  }
}
