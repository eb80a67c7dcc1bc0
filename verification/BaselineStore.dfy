/** The modes of the planning-registration check that read and write the baseline file. */
module BaselineStore {
  import opened Wrappers
  import opened Ordering
  import opened BaselineModel
  import opened BaselineLaws

  /** Duplicate ids, found the way the program looks for them. */
  method CheckDistinct(entries: seq<Finding>) returns (distinct: bool)
    ensures distinct <==> HasDistinctIds(entries)
  {
    var seen: set<string> := {};
    for i := 0 to |entries|
      invariant seen == Ids(entries[..i]) && HasDistinctIds(entries[..i])
    {
      if entries[i].id in seen {
        var f :| f in entries[..i] && f.id == entries[i].id;
        assert exists j :: 0 <= j < i && entries[j] == f;
        return false;
      }
      assert entries[..i + 1] == entries[..i] + [entries[i]];
      forall j | 0 <= j < i ensures entries[j].id != entries[i].id { assert entries[j] in entries[..i]; }
      seen := seen + {entries[i].id};
    }
    assert entries[..|entries|] == entries;
    distinct := true;
  }

  method CheckEach(entries: seq<Finding>, isValid: Finding -> bool) returns (valid: bool)
    ensures valid <==> forall e <- entries :: isValid(e)
  {
    for i := 0 to |entries|
      invariant forall j :: 0 <= j < i ==> isValid(entries[j])
    {
      if !isValid(entries[i]) { return false; }
    }
    valid := true;
  }

  method LoadBaseline(digest: Digest, file: File) returns (r: Option<Document>)
    ensures r == Load(digest, file)
  {
    if !file.Holds? || !file.doc.isOurs { return None; }
    var entries := file.doc.entries;
    var valid := CheckEach(entries, (e: Finding) => IsValidEntry(digest, e));
    if !valid { return None; }
    var distinct := CheckDistinct(entries);
    if !distinct || Keys(Sort(entries, KeyLe)) != Keys(entries) { return None; }
    r := Some(file.doc);
  }

  class Store {
    const digest: Digest
    var file: File

    constructor (digest: Digest, file: File)
      ensures this.digest == digest && this.file == file
    {
      this.digest, this.file := digest, file;
    }

    /** Writes beside the baseline, checks what was written, and only then replaces the baseline. */
    method WritePrunedBaseline(doc: Document, resolved: seq<Finding>, fault: Fault) returns (exit: int)
      modifies this
      ensures Effect(file, exit) == WritePruned(digest, old(file), doc, resolved, fault)
    {
      if resolved == [] { return 0; }
      var distinct := CheckDistinct(resolved);
      if !distinct || !(Ids(resolved) <= Ids(doc.entries)) { return 2; }
      var gone := Ids(resolved);
      var retained := Without(doc.entries, gone);
      if retained == [] { return 2; }
      var pruned := doc.(entries := retained);
      if StopsPrune(fault) { return 2; }
      var written := LoadBaseline(digest, Holds(pruned));
      if written.None? { return 2; }
      file := Holds(pruned);
      if fault == AfterWriting { return 2; }
      var replaced := LoadBaseline(digest, file);
      if replaced.None? { return 2; }
      exit := 0;
    }

    method PruneBaseline(findings: seq<Finding>, write: bool, fault: Fault) returns (exit: int)
      modifies this
      ensures Effect(file, exit) == Prune(digest, old(file), findings, write, fault)
    {
      var baseline := LoadBaseline(digest, file);
      if baseline.None? { return 2; }
      var p := PartitionRatchet(findings, baseline.value.entries);
      var blocked := HasControlErrors(findings) || HasInvalidExceptions(findings);
      if WouldEmpty(baseline.value.entries, p.resolved) && write { blocked := true; }
      if blocked { return 2; }
      if !write { return 0; }
      exit := WritePrunedBaseline(baseline.value, p.resolved, fault);
    }

    method UpdateBaseline(findings: seq<Finding>, fault: Fault) returns (exit: int)
      modifies this
      ensures Effect(file, exit) == Update(old(file), findings, fault)
    {
      if HasControlErrors(findings) { return 2; }
      if HasInvalidExceptions(findings) { return 1; }
      if fault == BeforeWriting { return 2; }
      if fault == WhileWriting {
        file := Unreadable;
        return 2;
      }
      file := Holds(BuildBaseline(findings));
      exit := if fault == AfterWriting then 2 else 0;
    }

    method Ratchet(findings: seq<Finding>) returns (exit: int)
      ensures exit == if Load(digest, file).None? then 2 else RatchetExit(findings, Load(digest, file).value.entries)
    {
      var baseline := LoadBaseline(digest, file);
      if baseline.None? { return 2; }
      var p := PartitionRatchet(findings, baseline.value.entries);
      if HasControlErrors(findings) { return 2; }
      exit := if p.added != [] || HasInvalidExceptions(findings) then 1 else 0;
    }
  }

  // ----- what an update does, end to end -----

  /** Some finding that is recorded has the id of `f`. */
  ghost predicate SharesEligibleId(findings: seq<Finding>, f: Finding) {
    exists g <- findings :: g.code == Unregistered && g.id == f.id
  }

  /**
   An update succeeds exactly when nothing is broken and no fault strikes.  The file it then leaves
   loads exactly when the recorded findings have distinct ids and can be recorded; and the ratchet
   passes against it exactly when, besides, every finding is recorded or shares a recorded id.  An
   update that fails leaves the file as it was, one that does not load, or, if only the end of the
   write failed, the file of a success.
   */
  lemma UpdateThenRatchet(digest: Digest, file: File, findings: seq<Finding>, fault: Fault)
    requires GivesIds(digest) && forall f <- findings :: HasItsId(digest, f)
    ensures var r := Update(file, findings, fault);
            && (r.exit == 0 <==> !HasControlErrors(findings) && !HasInvalidExceptions(findings) && fault == NoFault)
            && (r.exit == 0 ==> (Load(digest, r.file).Some? <==> LoadsAfterUpdate(findings)))
            && (r.exit == 0 && LoadsAfterUpdate(findings) ==>
                  (RatchetExit(findings, Load(digest, r.file).value.entries) == 0 <==>
                   forall f <- findings :: f.code == Unregistered || SharesEligibleId(findings, f)))
            && (r.exit != 0 ==> r.file == file || Load(digest, r.file).None?
                                || (fault == AfterWriting && r.file == Update(file, findings, NoFault).file))
  {
    var r := Update(file, findings, fault);
    FailedUpdateLeaves(digest, file, findings, fault);
    if r.exit == 0 {
      assert r.file == Holds(BuildBaseline(findings));
      FreshLoads(digest, findings);
      FreshRatchetIff(findings);
    }
  }

  lemma FailedUpdateLeaves(digest: Digest, file: File, findings: seq<Finding>, fault: Fault)
    ensures var r := Update(file, findings, fault);
            r.exit != 0 ==> r.file == file || Load(digest, r.file).None?
                            || (fault == AfterWriting && r.file == Update(file, findings, NoFault).file)
  {}

  /** The recorded findings have distinct ids, usable paths and kinds that say something. */
  predicate LoadsAfterUpdate(findings: seq<Finding>) {
    HasDistinctIds(Eligible(findings)) && forall f <- Eligible(findings) :: IsRecordable(f)
  }

  lemma FreshLoads(digest: Digest, findings: seq<Finding>)
    requires GivesIds(digest) && forall f <- findings :: HasItsId(digest, f)
    ensures Load(digest, Holds(BuildBaseline(findings)))
         == if LoadsAfterUpdate(findings) then Some(BuildBaseline(findings)) else None
  {
    BuiltLoadsIff(digest, findings);
  }

  lemma FreshRatchetIff(findings: seq<Finding>)
    requires !HasControlErrors(findings) && !HasInvalidExceptions(findings)
    ensures RatchetExit(findings, BuildBaseline(findings).entries) == 0 <==>
            forall f <- findings :: f.code == Unregistered || SharesEligibleId(findings, f)
  {
    var entries := BuildBaseline(findings).entries;
    RatchetPassesIff(findings, entries);
    SortKeepsIds(Eligible(findings));
    forall f <- findings
      ensures IsRatchetable(f)
      ensures f.id in Ids(entries) <==> f.code == Unregistered || SharesEligibleId(findings, f)
    {
      if f.code == Unregistered { assert f in Eligible(findings); }
      if SharesEligibleId(findings, f) {
        var g :| g in findings && g.code == Unregistered && g.id == f.id;
        assert g in Eligible(findings);
      }
    }
  }

  // ----- what a prune does to a baseline -----

  lemma IdsOfKept(s: seq<Finding>, p: Finding -> bool, x: string)
    ensures x in Ids(Keep(s, p)) <==> exists f :: f in s && p(f) && f.id == x
  {}

  /** With distinct ids, an entry is resolved exactly when its id is. */
  lemma ResolvedIds(findings: seq<Finding>, entries: seq<Finding>)
    requires HasDistinctIds(entries)
    ensures var resolved := PartitionRatchet(findings, entries).resolved;
            && HasDistinctIds(resolved) && Ids(resolved) <= Ids(entries)
            && forall x :: x in Ids(resolved) <==> x in Ids(entries) && x !in Ids(Ratchetable(findings))
  {
    var current := Ids(Ratchetable(findings));
    KeepDistinct(entries, (e: Finding) => e.id !in current);
    SortKeepsDistinct(Unmatched(findings, entries));
    SortKeepsIds(Unmatched(findings, entries));
    forall x ensures x in Ids(Unmatched(findings, entries)) <==> x in Ids(entries) && x !in current {
      IdsOfKept(entries, (e: Finding) => e.id !in current, x);
    }
  }

  lemma WithoutElements(entries: seq<Finding>, gone: set<string>)
    ensures forall e :: e in Without(entries, gone) <==> e in entries && e.id !in gone
  {
    KeyOrderIsPreorder();
    forall e ensures e in Without(entries, gone) <==> e in entries && e.id !in gone {
      SortKeepsElements(Keep(entries, (e: Finding) => e.id !in gone), KeyLe, e);
    }
  }

  /** Removing entries from a loadable baseline leaves a loadable one; nothing is reordered. */
  lemma WithoutIsLoadable(digest: Digest, doc: Document, gone: set<string>)
    requires IsLoadable(digest, doc)
    ensures IsLoadable(digest, doc.(entries := Without(doc.entries, gone)))
    ensures Without(doc.entries, gone) == Keep(doc.entries, (e: Finding) => e.id !in gone)
  {
    var kept := Keep(doc.entries, (e: Finding) => e.id !in gone);
    CanonicalIffSorted(doc.entries);
    KeepSorted(doc.entries, (e: Finding) => e.id !in gone, KeyLe);
    KeepDistinct(doc.entries, (e: Finding) => e.id !in gone);
    SortKeepsSorted(kept, KeyLe);
    CanonicalIffSorted(kept);
  }

  /** The entries that a prune keeps: those that a current finding stands behind. */
  lemma RemainingEntries(findings: seq<Finding>, entries: seq<Finding>)
    requires HasDistinctIds(entries)
    ensures var remaining := Without(entries, Ids(PartitionRatchet(findings, entries).resolved));
            && (forall e :: e in remaining <==> e in entries && e.id in Ids(Ratchetable(findings)))
            && (forall x :: x in Ids(remaining) <==> x in Ids(entries) && x in Ids(Ratchetable(findings)))
  {
    var resolved := PartitionRatchet(findings, entries).resolved;
    ResolvedIds(findings, entries);
    WithoutElements(entries, Ids(resolved));
    var remaining := Without(entries, Ids(resolved));
    forall x ensures x in Ids(remaining) <==> x in Ids(entries) && x in Ids(Ratchetable(findings)) {
      if x in Ids(entries) && x in Ids(Ratchetable(findings)) {
        var e :| e in entries && e.id == x;
        assert e in remaining;
      }
    }
  }

  /** Partitioning again after the resolved entries are gone: the same new and known findings, none resolved. */
  lemma PartitionAfterPrune(findings: seq<Finding>, entries: seq<Finding>)
    requires HasDistinctIds(entries)
    ensures var p := PartitionRatchet(findings, entries);
            PartitionRatchet(findings, Without(entries, Ids(p.resolved))) == p.(resolved := [])
  {
    var p, ratchetable := PartitionRatchet(findings, entries), Ratchetable(findings);
    var remaining := Without(entries, Ids(p.resolved));
    var before, after, current := Ids(entries), Ids(remaining), Ids(ratchetable);
    RemainingEntries(findings, entries);
    KeepSame(ratchetable, (f: Finding) => f.id in before, (f: Finding) => f.id in after);
    KeepSame(ratchetable, (f: Finding) => f.id !in before, (f: Finding) => f.id !in after);
    KeepNone(remaining, (e: Finding) => e.id !in current);
  }

  lemma NothingRemainsIff(entries: seq<Finding>, gone: set<string>)
    ensures Without(entries, gone) == [] <==> Ids(entries) <= gone
  {
    WithoutElements(entries, gone);
    if Without(entries, gone) != [] { assert Without(entries, gone)[0] in entries; }
    if !(Ids(entries) <= gone) {
      var x :| x in Ids(entries) && x !in gone;
      var e :| e in entries && e.id == x;
      assert e in Without(entries, gone);
    }
  }

  /** The write itself, for resolved entries that come from a loaded baseline. */
  lemma WriteEffect(digest: Digest, file: File, doc: Document, resolved: seq<Finding>, fault: Fault)
    requires IsLoadable(digest, doc) && HasDistinctIds(resolved) && Ids(resolved) <= Ids(doc.entries)
    ensures var r, retained := WritePruned(digest, file, doc, resolved, fault), Without(doc.entries, Ids(resolved));
            var done := resolved != [] && retained != [] && !StopsPrune(fault);
            && r.file == (if done then Holds(doc.(entries := retained)) else file)
            && (r.exit == 0 <==> resolved == [] || (retained != [] && fault == NoFault))
  {
    WithoutIsLoadable(digest, doc, Ids(resolved));
  }

  lemma WouldEmptyIff(entries: seq<Finding>, resolved: seq<Finding>)
    requires Ids(resolved) <= Ids(entries)
    ensures WouldEmpty(entries, resolved) <==> resolved != [] && Without(entries, Ids(resolved)) == []
  {
    NothingRemainsIff(entries, Ids(resolved));
    if resolved != [] { assert resolved[0].id in Ids(resolved); }
  }

  /** The reasons for which a writing prune of a loaded baseline is refused. */
  predicate IsPruneBlocked(findings: seq<Finding>, entries: seq<Finding>) {
    || HasControlErrors(findings) || HasInvalidExceptions(findings)
    || WouldEmpty(entries, PartitionRatchet(findings, entries).resolved)
  }

  function PrunedFile(findings: seq<Finding>, doc: Document): File {
    Holds(doc.(entries := Without(doc.entries, Ids(PartitionRatchet(findings, doc.entries).resolved))))
  }

  /**
   A prune with `write` on a baseline that loads.  It either leaves the file alone, or replaces it
   by the entries that a current finding stands behind: never by an empty list.  It succeeds
   exactly when nothing is broken, it would not empty the baseline, and no fault hits the write.
   */
  lemma PruneEffect(digest: Digest, file: File, findings: seq<Finding>, fault: Fault)
    requires Load(digest, file).Some?
    ensures var doc, r := file.doc, Prune(digest, file, findings, true, fault);
            var resolved := PartitionRatchet(findings, doc.entries).resolved;
            && (r.file == file || (r.file == PrunedFile(findings, doc) && r.file.doc.entries != []))
            && (r.exit == 0 ==> r.file == if resolved == [] then file else PrunedFile(findings, doc))
            && (r.exit == 0 <==> !IsPruneBlocked(findings, doc.entries) && (resolved == [] || fault == NoFault))
  {
    var doc := file.doc;
    var resolved := PartitionRatchet(findings, doc.entries).resolved;
    ResolvedIds(findings, doc.entries);
    WouldEmptyIff(doc.entries, resolved);
    WriteEffect(digest, file, doc, resolved, fault);
    PruneIsWrite(digest, file, findings, fault);
  }

  lemma PruneIsWrite(digest: Digest, file: File, findings: seq<Finding>, fault: Fault)
    requires Load(digest, file).Some?
    ensures Prune(digest, file, findings, true, fault) ==
            if IsPruneBlocked(findings, file.doc.entries) then Effect(file, 2)
            else WritePruned(digest, file, file.doc, PartitionRatchet(findings, file.doc.entries).resolved, fault)
  {}

  lemma PruneKeepsLoadable(digest: Digest, file: File, findings: seq<Finding>, fault: Fault)
    requires Load(digest, file).Some?
    ensures Load(digest, Prune(digest, file, findings, true, fault).file).Some?
  {
    PruneEffect(digest, file, findings, fault);
    WithoutIsLoadable(digest, file.doc, Ids(PartitionRatchet(findings, file.doc.entries).resolved));
  }

  /** After a prune that succeeds: the same new and known findings, nothing resolved, the same verdict. */
  lemma PruneKeepsVerdict(digest: Digest, file: File, findings: seq<Finding>, fault: Fault)
    requires Load(digest, file).Some? && Prune(digest, file, findings, true, fault).exit == 0
    ensures var before, after := file.doc.entries, Prune(digest, file, findings, true, fault).file.doc.entries;
            && PartitionRatchet(findings, after) == PartitionRatchet(findings, before).(resolved := [])
            && RatchetExit(findings, after) == RatchetExit(findings, before)
  {
    PruneEffect(digest, file, findings, fault);
    PartitionAfterPrune(findings, file.doc.entries);
  }

  /** Pruning again with the same findings changes nothing and succeeds, whatever faults lurk. */
  lemma SecondPruneDoesNothing(digest: Digest, file: File, findings: seq<Finding>, fault: Fault, fault': Fault)
    requires Load(digest, file).Some? && Prune(digest, file, findings, true, fault).exit == 0
    ensures var once := Prune(digest, file, findings, true, fault);
            Prune(digest, once.file, findings, true, fault') == once
  {
    PruneEffect(digest, file, findings, fault);
    PruneKeepsVerdict(digest, file, findings, fault);
    PruneKeepsLoadable(digest, file, findings, fault);
    PruneEffect(digest, Prune(digest, file, findings, true, fault).file, findings, fault');
  }

  // ----- any number of prunes -----

  datatype Attempt = Attempt(findings: seq<Finding>, write: bool, fault: Fault)

  /** The file after the attempts, each with its own findings. */
  function PruneAll(digest: Digest, file: File, attempts: seq<Attempt>): File
    decreases |attempts|
  {
    if attempts == [] then file
    else
      var a := attempts[0];
      PruneAll(digest, Prune(digest, file, a.findings, a.write, a.fault).file, attempts[1..])
  }

  /**
   However often and with whatever findings and faults a baseline is pruned, it stays loadable, no
   entry is added or altered, and a baseline with entries keeps some.
   */
  lemma {:induction false} PrunesOnlyRemove(digest: Digest, file: File, attempts: seq<Attempt>)
    requires Load(digest, file).Some?
    ensures var after := PruneAll(digest, file, attempts);
            && Load(digest, after).Some?
            && (forall e <- after.doc.entries :: e in file.doc.entries)
            && (file.doc.entries != [] ==> after.doc.entries != [])
    decreases |attempts|
  {
    if attempts != [] {
      var a := attempts[0];
      PruneEffect(digest, file, a.findings, a.fault);
      PruneKeepsLoadable(digest, file, a.findings, a.fault);
      var next := Prune(digest, file, a.findings, a.write, a.fault).file;
      WithoutElements(file.doc.entries, Ids(PartitionRatchet(a.findings, file.doc.entries).resolved));
      PrunesOnlyRemove(digest, next, attempts[1..]);
    }
  }

  /** So no prunes ever let a ratchet pass that would not have passed without them. */
  lemma PrunesNeverRelax(digest: Digest, file: File, attempts: seq<Attempt>, findings: seq<Finding>)
    requires Load(digest, file).Some?
    ensures Load(digest, PruneAll(digest, file, attempts)).Some?
    ensures RatchetExit(findings, PruneAll(digest, file, attempts).doc.entries) == 0 ==>
            RatchetExit(findings, file.doc.entries) == 0
  {
    PrunesOnlyRemove(digest, file, attempts);
    RatchetPassesIff(findings, PruneAll(digest, file, attempts).doc.entries);
    RatchetPassesIff(findings, file.doc.entries);
  }
}
