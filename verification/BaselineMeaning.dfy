/**
 What the checks and modes of the planning-registration baseline mean, spelled out in terms of the
 findings, the entries and their texts.
 */
module BaselineMeaning {
  import opened Wrappers
  import opened Ordering
  import opened PythonText
  import opened Paths
  import opened BaselineModel
  import opened BaselineLaws
  import opened BaselineStore

  // ----- the partition -----

  /** The positions of `t`'s elements in `s`, in ascending order; none that satisfies `p` is left out. */
  ghost predicate ArePlaces<T(!new)>(at: seq<nat>, t: seq<T>, s: seq<T>, p: T -> bool) {
    && |at| == |t| && (forall k :: 0 <= k < |at| ==> at[k] < |s| && t[k] == s[at[k]])
    && (forall j, k :: 0 <= j < k < |at| ==> at[j] < at[k])
    && (forall i :: 0 <= i < |s| && p(s[i]) ==> i in at)
  }

  lemma {:induction false} OneMorePlace<T(!new)>(at: seq<nat>, t: seq<T>, s: seq<T>, p: T -> bool, x: T)
    requires ArePlaces(at, t, s, p)
    ensures p(x) ==> ArePlaces(at + [|s|], t + [x], s + [x], p)
    ensures !p(x) ==> ArePlaces(at, t, s + [x], p)
  {
    var all := s + [x];
    forall i | 0 <= i < |all| && p(all[i]) ensures i in at + [|s|] && (i < |s| ==> i in at) {
      if i < |s| { assert all[i] == s[i]; } else { assert (at + [|s|])[|at|] == i; }
    }
  }

  lemma {:induction false} KeepGrows<T(!new)>(s: seq<T>, p: T -> bool, x: T)
    ensures Keep(s + [x], p) == Keep(s, p) + (if p(x) then [x] else [])
  {
    if s == [] {
      assert [] + [x] == [x] && [x][1..] == [];
    } else {
      assert (s + [x])[1..] == s[1..] + [x];
      KeepGrows(s[1..], p, x);
    }
  }

  /** Filtering keeps some of the elements, in their order. */
  lemma {:induction false} KeepIsInOrder<T(!new)>(s: seq<T>, p: T -> bool) returns (at: seq<nat>)
    ensures ArePlaces(at, Keep(s, p), s, p)
    decreases |s|
  {
    if s == [] {
      at := [];
    } else {
      var front, last := s[..|s| - 1], s[|s| - 1];
      at := KeepIsInOrder(front, p);
      assert s == front + [last];
      KeepGrows(front, p, last);
      OneMorePlace(at, Keep(front, p), front, p, last);
      if p(last) { at := at + [|front|]; } else { assert Keep(front, p) + [] == Keep(front, p); }
    }
  }

  lemma {:induction false} KeepCounts<T(!new)>(s: seq<T>, p: T -> bool, x: T)
    ensures multiset(Keep(s, p))[x] == if p(x) then multiset(s)[x] else 0
    decreases s
  {
    if s != [] {
      KeepCounts(s[1..], p, x);
      assert s == [s[0]] + s[1..];
    }
  }

  /** The codes that no baseline tolerates. */
  predicate IsBroken(f: Finding) {
    f.code == InvalidException || f.code == ControlFileMissing || f.code == ControlFileParseError
  }

  ghost predicate HasEntry(entries: seq<Finding>, id: string) { exists e <- entries :: e.id == id }

  /** Somebody reports the id, other than as something broken. */
  ghost predicate IsReported(findings: seq<Finding>, id: string) { exists f <- findings :: !IsBroken(f) && f.id == id }

  lemma EntryIds(entries: seq<Finding>, id: string)
    ensures id in Ids(entries) <==> HasEntry(entries, id)
  {}

  lemma ReportedIds(findings: seq<Finding>, id: string)
    ensures id in Ids(Ratchetable(findings)) <==> IsReported(findings, id)
  {
    if IsReported(findings, id) {
      var f :| f in findings && !IsBroken(f) && f.id == id;
      assert f in Ratchetable(findings);
    }
  }

  lemma RatchetableCounts(findings: seq<Finding>, p: Finding -> bool, x: Finding)
    ensures multiset(Keep(Ratchetable(findings), p))[x] == if !IsBroken(x) && p(x) then multiset(findings)[x] else 0
  {
    KeepCounts(findings, (f: Finding) => IsRatchetable(f), x);
    KeepCounts(Ratchetable(findings), p, x);
  }

  /**
   A finding that is not broken is new if no entry has its id and known otherwise, as often as it is
   reported; an entry is resolved if nothing reports its id; resolved entries come in key order.
   */
  lemma PartitionMeans(findings: seq<Finding>, entries: seq<Finding>, x: Finding)
    ensures var p := PartitionRatchet(findings, entries);
            && multiset(p.added)[x]
               == (if !IsBroken(x) && !HasEntry(entries, x.id) then multiset(findings)[x] else 0)
            && multiset(p.known)[x]
               == (if !IsBroken(x) && HasEntry(entries, x.id) then multiset(findings)[x] else 0)
            && multiset(p.resolved)[x] == (if IsReported(findings, x.id) then 0 else multiset(entries)[x])
            && IsSorted(p.resolved, KeyLe)
  {
    var baseline, current := Ids(entries), Ids(Ratchetable(findings));
    RatchetableCounts(findings, (f: Finding) => f.id !in baseline, x);
    RatchetableCounts(findings, (f: Finding) => f.id in baseline, x);
    KeepCounts(entries, (e: Finding) => e.id !in current, x);
    EntryIds(entries, x.id);
    ReportedIds(findings, x.id);
    KeyOrderIsPreorder();
    SortSorts(Unmatched(findings, entries), KeyLe);
  }

  lemma {:induction false} KeepBoth<T(!new)>(s: seq<T>, p: T -> bool, q: T -> bool, both: T -> bool)
    requires forall x :: both(x) <==> p(x) && q(x)
    ensures Keep(Keep(s, p), q) == Keep(s, both)
    decreases s
  {
    if s != [] {
      var kept := Keep(s[1..], p);
      KeepBoth(s[1..], p, q, both);
      if p(s[0]) {
        assert ([s[0]] + kept)[1..] == kept;
        assert Keep(s, p) == [s[0]] + kept;
      } else {
        assert Keep(s, p) == [] + kept == kept;
      }
    }
  }

  /** New and known findings come in the order in which they are reported. */
  lemma ReportedOrderIsKept(findings: seq<Finding>, entries: seq<Finding>) returns (news: seq<nat>, known: seq<nat>)
    ensures var p, baseline := PartitionRatchet(findings, entries), Ids(entries);
            && ArePlaces(news, p.added, findings, (f: Finding) => !IsBroken(f) && f.id !in baseline)
            && ArePlaces(known, p.known, findings, (f: Finding) => !IsBroken(f) && f.id in baseline)
  {
    var baseline := Ids(entries);
    var isNew, isKnown :=
      (f: Finding) => !IsBroken(f) && f.id !in baseline, (f: Finding) => !IsBroken(f) && f.id in baseline;
    KeepBoth(findings, (f: Finding) => IsRatchetable(f), (f: Finding) => f.id !in baseline, isNew);
    KeepBoth(findings, (f: Finding) => IsRatchetable(f), (f: Finding) => f.id in baseline, isKnown);
    news := KeepIsInOrder(findings, isNew);
    known := KeepIsInOrder(findings, isKnown);
  }

  // ----- exit codes -----

  /** Two for a broken control file, one for a bad exception or something new, and zero otherwise. */
  lemma RatchetExitIs(findings: seq<Finding>, entries: seq<Finding>)
    ensures var exit := RatchetExit(findings, entries);
            var control := exists f <- findings :: f.code == ControlFileMissing || f.code == ControlFileParseError;
            var news := exists f <- findings ::
                           f.code == InvalidException || (!IsBroken(f) && !HasEntry(entries, f.id));
            && (exit == 2 <==> control) && (exit == 1 <==> !control && news) && (exit == 0 <==> !control && !news)
  {
    var p := PartitionRatchet(findings, entries);
    if p.added != [] {
      assert p.added[0] in p.added;
      EntryIds(entries, p.added[0].id);
    }
    forall f <- findings | !IsBroken(f) && !HasEntry(entries, f.id) ensures f in p.added {
      EntryIds(entries, f.id);
    }
  }

  /** A dry prune writes nothing, and a prune never ends with one. */
  lemma PruneExitIs(digest: Digest, file: File, findings: seq<Finding>, write: bool, fault: Fault)
    ensures var r := Prune(digest, file, findings, write, fault);
            && (r.exit == 0 || r.exit == 2)
            && (Load(digest, file).None? ==> r == Effect(file, 2))
            && (!write ==> r.file == file)
            && (!write ==> (r.exit == 0 <==> Load(digest, file).Some? && forall f <- findings :: !IsBroken(f)))
  {}

  /** Two for a broken control file or a fault, one for a bad exception; nothing is written when either is found. */
  lemma UpdateExitIs(file: File, findings: seq<Finding>, fault: Fault)
    ensures var r := Update(file, findings, fault);
            var control := exists f <- findings :: f.code == ControlFileMissing || f.code == ControlFileParseError;
            var invalid := exists f <- findings :: f.code == InvalidException;
            && (r.exit == 2 <==> control || (!invalid && fault != NoFault))
            && (r.exit == 1 <==> !control && invalid)
            && (r.exit == 0 <==> !control && !invalid && fault == NoFault)
            && (control || invalid ==> r.file == file)
  {}

  // ----- ids -----

  lemma {:induction false} SlashedIs(path: string)
    ensures |Slashed(path)| == |path|
    ensures forall i :: 0 <= i < |path| ==> Slashed(path)[i] == if path[i] == '\\' then '/' else path[i]
  {
    if path != "" { SlashedIs(path[1..]); }
  }

  lemma {:induction false} OneSeparator(a: string, b: string, a': string, b': string)
    requires '\0' !in a && '\0' !in a' && a + "\0" + b == a' + "\0" + b'
    ensures a == a' && b == b'
  {
    var s, s' := a + "\0" + b, a' + "\0" + b';
    assert forall i :: 0 <= i < |a| ==> s[i] == a[i] && s[i] in a;
    assert forall i :: 0 <= i < |a'| ==> s'[i] == a'[i] && s'[i] in a';
    assert s[|a|] == '\0' && s'[|a'|] == '\0';
    assert |a| == |a'|;
    assert a == s[..|a|] && a' == s'[..|a'|];
    assert b == s[|a| + 1..] && b' == s'[|a'| + 1..];
  }

  lemma TwoSeparators(a: string, b: string, c: string, a': string, b': string, c': string)
    requires '\0' !in a && '\0' !in a' && '\0' !in b && '\0' !in b'
    ensures a + "\0" + b + "\0" + c == a' + "\0" + b' + "\0" + c' <==> a == a' && b == b' && c == c'
  {
    if a + "\0" + b + "\0" + c == a' + "\0" + b' + "\0" + c' {
      assert a + "\0" + (b + "\0" + c) == a + "\0" + b + "\0" + c;
      assert a' + "\0" + (b' + "\0" + c') == a' + "\0" + b' + "\0" + c';
      OneSeparator(a, b + "\0" + c, a', b' + "\0" + c');
      OneSeparator(b, c, b', c');
    }
  }

  lemma SlashedHasNoNul(path: string)
    ensures '\0' in Slashed(path) ==> '\0' in path
  {
    SlashedIs(path);
  }

  /** Findings share an id only if they agree on code, path and kind, if the digest tells texts apart. */
  lemma IdsTellFindingsApart(digest: Digest, code: Code, path: string, kind: string,
                             code': Code, path': string, kind': string)
    requires forall s, s' :: digest(s) == digest(s') ==> s == s'
    requires '\0' !in CodeText(code) && '\0' !in CodeText(code') && '\0' !in path && '\0' !in path'
    ensures ComputeId(digest, code, path, kind) == ComputeId(digest, code', path', kind') <==>
            CodeText(code) == CodeText(code') && Slashed(path) == Slashed(path') && kind == kind'
  {
    SlashedHasNoNul(path);
    SlashedHasNoNul(path');
    var a, b, a', b' := CodeText(code), Slashed(path), CodeText(code'), Slashed(path');
    TwoSeparators(a, b, kind, a', b', kind');
    assert ComputeId(digest, code, path, kind) == digest(a + "\0" + b + "\0" + kind);
  }

  // ----- which documents load -----

  ghost predicate SaysSomething(s: string) { exists c <- s :: !IsSpaceChar(c) }

  lemma BlankIff(s: string)
    ensures IsBlankText(s) <==> !SaysSomething(s)
  {}

  /** An entry: the id belongs to the path and kind, which say something, and the path is a plain one. */
  ghost predicate IsEntry(digest: Digest, e: Finding) {
    && e.code == Unregistered
    && |e.id| == 16 && (forall c <- e.id :: '0' <= c <= '9' || 'a' <= c <= 'f')
    && e.id == digest("UNREGISTERED_PLANNING_ARTIFACT" + "\0" + e.path + "\0" + e.kind)
    && SaysSomething(e.kind) && SaysSomething(e.path)
    && '\\' !in e.path && !(".." <= e.path)
    && forall piece <- Split(e.path) :: piece != "" && piece != "." && piece != ".."
  }

  lemma UnslashedStays(path: string)
    requires '\\' !in path
    ensures Slashed(path) == path
  {
    SlashedIs(path);
  }

  lemma ValidEntryIff(digest: Digest, e: Finding)
    ensures IsValidEntry(digest, e) <==> IsEntry(digest, e)
  {
    BaselinePathIff(e.path);
    BlankIff(e.kind);
    BlankIff(e.path);
    if '\\' !in e.path { UnslashedStays(e.path); }
    assert CodeText(Unregistered)[0] == 'U' && CodeText(Unregistered)[0] in CodeText(Unregistered);
    assert !IsSpaceChar('U');
  }

  /** By path, and where paths are equal by id. */
  ghost predicate ComesBefore(e: Finding, f: Finding) {
    if e.path == f.path then LexLe(e.id, f.id) else LexLe(e.path, f.path)
  }

  /** Ids are distinct, and entries come by path and id. */
  ghost predicate AreListedInOrder(entries: seq<Finding>) {
    && (forall i, j :: 0 <= i < j < |entries| ==> entries[i].id != entries[j].id)
    && (forall i, j :: 0 <= i < j < |entries| ==> ComesBefore(entries[i], entries[j]))
  }

  lemma InOrderIff(entries: seq<Finding>)
    requires forall e <- entries :: e.code == Unregistered
    ensures HasDistinctIds(entries) && IsSorted(entries, KeyLe) <==> AreListedInOrder(entries)
  {
    forall e <- entries, f <- entries ensures KeyLe(e, f) <==> ComesBefore(e, f) {}
  }

  /** A document loads iff it is ours, its entries are good, no id repeats, and they are in order. */
  lemma LoadableIff(digest: Digest, d: Document)
    ensures IsLoadable(digest, d) <==>
            d.isOurs && (forall e <- d.entries :: IsEntry(digest, e)) && AreListedInOrder(d.entries)
  {
    CanonicalIffSorted(d.entries);
    AllValidIff(digest, d.entries);
    if forall e <- d.entries :: IsEntry(digest, e) { InOrderIff(d.entries); }
  }

  lemma AllValidIff(digest: Digest, entries: seq<Finding>)
    ensures (forall e <- entries :: IsValidEntry(digest, e)) <==> forall e <- entries :: IsEntry(digest, e)
  {
    forall e <- entries ensures IsValidEntry(digest, e) <==> IsEntry(digest, e) { ValidEntryIff(digest, e); }
  }

  /** An entry whose id is not that of its path and kind, or whose code is another, is never loaded. */
  lemma ForgedEntryIsRefused(digest: Digest, d: Document, e: Finding)
    requires e in d.entries && '\\' !in e.path
    requires e.code != Unregistered || e.id != digest("UNREGISTERED_PLANNING_ARTIFACT" + "\0" + e.path + "\0" + e.kind)
    ensures !IsLoadable(digest, d) && Load(digest, Holds(d)).None?
  {
    LoadableIff(digest, d);
  }
}
