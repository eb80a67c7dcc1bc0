/** Building and loading a baseline are inverse, and the ratchet's lists account for every entry. */
module BaselineLaws {
  import opened Wrappers
  import opened Ordering
  import opened PythonText
  import opened Paths
  import opened BaselineModel

  // ----- filters -----

  lemma {:induction false} KeepSorted<T(!new)>(s: seq<T>, p: T -> bool, le: (T, T) -> bool)
    requires IsSorted(s, le)
    ensures IsSorted(Keep(s, p), le)
    decreases s
  {
    if s != [] {
      KeepSorted(s[1..], p, le);
      forall x | x in s[1..] ensures le(s[0], x) {
        var j :| 0 <= j < |s[1..]| && s[1..][j] == x;
        assert le(s[0], s[j + 1]);
      }
    }
  }

  lemma {:induction false} KeepDistinct(s: seq<Finding>, p: Finding -> bool)
    requires HasDistinctIds(s)
    ensures HasDistinctIds(Keep(s, p))
    decreases s
  {
    if s != [] {
      KeepDistinct(s[1..], p);
      forall x | x in s[1..] ensures x.id != s[0].id {
        var j :| 0 <= j < |s[1..]| && s[1..][j] == x;
        assert s[0].id != s[j + 1].id;
      }
    }
  }

  lemma {:induction false} KeepAll<T(!new)>(s: seq<T>, p: T -> bool)
    requires forall x <- s :: p(x)
    ensures Keep(s, p) == s
    decreases s
  {
    if s != [] {
      assert s[0] in s;
      KeepAll(s[1..], p);
      assert s == [s[0]] + s[1..];
    }
  }

  lemma {:induction false} KeepNone<T(!new)>(s: seq<T>, p: T -> bool)
    requires forall x <- s :: !p(x)
    ensures Keep(s, p) == []
    decreases s
  {
    if s != [] {
      assert s[0] in s;
      KeepNone(s[1..], p);
    }
  }

  lemma {:induction false} KeepSplits<T(!new)>(s: seq<T>, p: T -> bool, q: T -> bool)
    requires forall x <- s :: p(x) <==> !q(x)
    ensures |Keep(s, p)| + |Keep(s, q)| == |s|
    decreases s
  {
    if s != [] {
      assert s[0] in s;
      KeepSplits(s[1..], p, q);
    }
  }

  /** Two filters that agree on the elements keep the same ones. */
  lemma {:induction false} KeepSame<T(!new)>(s: seq<T>, p: T -> bool, q: T -> bool)
    requires forall x <- s :: p(x) <==> q(x)
    ensures Keep(s, p) == Keep(s, q)
    decreases s
  {
    if s != [] {
      assert s[0] in s;
      KeepSame(s[1..], p, q);
    }
  }

  // ----- the order -----

  lemma KeyLeTransitive(e: Finding, f: Finding, g: Finding)
    requires KeyLe(e, f) && KeyLe(f, g)
    ensures KeyLe(e, g)
  {
    LexOrders(e.path, f.path, g.path);
    LexOrders(CodeText(e.code), CodeText(f.code), CodeText(g.code));
    LexOrders(e.id, f.id, g.id);
  }

  lemma LexOrders(a: string, b: string, c: string)
    ensures LexLe(a, b) && LexLe(b, c) ==> LexLe(a, c)
    ensures LexLe(a, b) && LexLe(b, a) ==> a == b
  {
    if LexLe(a, b) && LexLe(b, c) { LexTransitive(a, b, c); }
    if LexLe(a, b) && LexLe(b, a) { LexAntisymmetric(a, b); }
  }

  lemma KeyOrderIsPreorder()
    ensures IsTotalPreorder(KeyLe)
  {
    forall e, f ensures KeyLe(e, f) || KeyLe(f, e) {
      LexTotal(e.path, f.path);
      LexTotal(CodeText(e.code), CodeText(f.code));
      LexTotal(e.id, f.id);
    }
    forall e, f, g | KeyLe(e, f) && KeyLe(f, g) ensures KeyLe(e, g) { KeyLeTransitive(e, f, g); }
  }

  lemma SameKeysSameOrder(e: Finding, f: Finding, e': Finding, f': Finding)
    requires Key(e) == Key(e') && Key(f) == Key(f')
    ensures KeyLe(e, f) <==> KeyLe(e', f')
  {}

  /** Comparing the keys with their sorted copy is asking for sortedness. */
  lemma CanonicalIffSorted(entries: seq<Finding>)
    ensures Keys(Sort(entries, KeyLe)) == Keys(entries) <==> IsSorted(entries, KeyLe)
  {
    KeyOrderIsPreorder();
    var sorted := Sort(entries, KeyLe);
    SortSorts(entries, KeyLe);
    if IsSorted(entries, KeyLe) { SortKeepsSorted(entries, KeyLe); }
    if Keys(sorted) == Keys(entries) {
      assert |sorted| == |Keys(sorted)| == |entries|;
      forall i, j | 0 <= i < j < |entries| ensures KeyLe(entries[i], entries[j]) {
        assert Keys(sorted)[i] == Keys(entries)[i] && Keys(sorted)[j] == Keys(entries)[j];
        SameKeysSameOrder(sorted[i], sorted[j], entries[i], entries[j]);
      }
    }
  }

  lemma SortKeepsDistinct(s: seq<Finding>)
    ensures HasDistinctIds(Sort(s, KeyLe)) <==> HasDistinctIds(s)
  {
    KeyOrderIsPreorder();
    SortSorts(s, KeyLe);
    if HasDistinctIds(s) { PermutationKeepsDistinct(s, Sort(s, KeyLe)); }
    if HasDistinctIds(Sort(s, KeyLe)) { PermutationKeepsDistinct(Sort(s, KeyLe), s); }
  }

  lemma {:induction false} CountedTwice(s: seq<Finding>, x: Finding) returns (i: nat, j: nat)
    requires multiset(s)[x] >= 2
    ensures i < j < |s| && s[i] == x && s[j] == x
    decreases s
  {
    assert s == [s[0]] + s[1..];
    if s[0] == x {
      assert x in multiset(s[1..]);
      i := 0;
      j :| 1 <= j < |s| && s[j] == x;
    } else {
      i, j := CountedTwice(s[1..], x);
      i, j := i + 1, j + 1;
    }
  }

  lemma {:induction false} TwoPlacesCount(s: seq<Finding>, i: nat, j: nat)
    requires i < j < |s| && s[i] == s[j]
    ensures multiset(s)[s[i]] >= 2
  {
    assert s == s[..j] + s[j..];
    assert s[i] in s[..j] && s[j..][0] == s[i];
    assert multiset(s[..j])[s[i]] >= 1 && multiset(s[j..])[s[i]] >= 1;
  }

  lemma PermutationKeepsDistinct(s: seq<Finding>, t: seq<Finding>)
    requires multiset(s) == multiset(t) && HasDistinctIds(s)
    ensures HasDistinctIds(t)
  {
    forall i, j | 0 <= i < j < |t| ensures t[i].id != t[j].id {
      assert t[i] in multiset(s) && t[j] in multiset(s);
      var a :| 0 <= a < |s| && s[a] == t[i];
      var b :| 0 <= b < |s| && s[b] == t[j];
      if t[i] == t[j] {
        TwoPlacesCount(t, i, j);
        var c, d := CountedTwice(s, t[i]);
        assert false;
      }
    }
  }

  // ----- paths -----

  /** Pieces of a normal path: no empty or dot piece, and parent pieces only in front. */
  ghost predicate AreNormal(pieces: seq<string>) {
    && (forall p <- pieces :: p != "" && p != ".")
    && (forall i :: 0 < i < |pieces| && pieces[i] == ".." ==> pieces[i - 1] == "..")
  }

  ghost predicate AreSlashless(pieces: seq<string>) { forall p <- pieces :: '/' !in p }

  lemma {:induction false} NormalPiecesAreNormal(pieces: seq<string>, done: seq<string>)
    requires AreNormal(done) && AreSlashless(pieces) && AreSlashless(done)
    ensures AreNormal(NormalPieces(pieces, done)) && AreSlashless(NormalPieces(pieces, done))
    decreases |pieces|
  {
    if pieces != [] {
      var p := pieces[0];
      var next := if p == "" || p == "." then done
                  else if p != ".." || done == [] || done[|done| - 1] == ".." then done + [p]
                  else done[..|done| - 1];
      assert p in pieces;
      assert forall x <- next :: x in done || (x == p && p != "" && p != ".");
      NormalPiecesAreNormal(pieces[1..], next);
    }
  }

  lemma {:induction false} OrdinaryPiecesStay(pieces: seq<string>, done: seq<string>)
    requires forall p <- pieces :: IsOrdinary(p)
    ensures NormalPieces(pieces, done) == done + pieces
    decreases |pieces|
  {
    if pieces == [] {
      assert done + pieces == done;
    } else {
      assert IsOrdinary(pieces[0]) by { assert pieces[0] in pieces; }
      OrdinaryPiecesStay(pieces[1..], done + [pieces[0]]);
      assert done + [pieces[0]] + pieces[1..] == done + pieces;
    }
  }

  lemma {:induction false} SplitIsSlashless(s: string)
    ensures AreSlashless(Split(s))
  {
    if s != "" { SplitIsSlashless(s[1..]); }
  }

  lemma {:induction false} SplitInvertsJoin(pieces: seq<string>)
    requires pieces != [] && AreSlashless(pieces)
    ensures Split(Join(pieces)) == pieces
    decreases |pieces|
  {
    SplitOfOnePiece(pieces[0]);
    if |pieces| > 1 {
      SplitInvertsJoin(pieces[1..]);
      SplitAtSlash(pieces[0], Join(pieces[1..]));
      assert [pieces[0]] + pieces[1..] == pieces;
    } else {
      assert [pieces[0]] == pieces;
    }
  }

  lemma {:induction false} LeadingParents(pieces: seq<string>, i: nat)
    requires AreNormal(pieces) && i < |pieces| && pieces[i] == ".."
    ensures pieces[0] == ".."
  {
    if i > 0 { LeadingParents(pieces, i - 1); }
  }

  lemma JoinStartsWithFirst(pieces: seq<string>)
    requires pieces != []
    ensures pieces[0] <= Join(pieces)
  {}

  /** A baseline path is a relative name of ordinary pieces that does not start with two dots. */
  lemma BaselinePathIff(path: string)
    ensures IsBaselinePath(path) <==> IsSafeName(path) && '\\' !in path && !(".." <= path)
  {
    var pieces := Split(path);
    SplitIsSlashless(path);
    JoinInvertsSplit(path);
    if IsSafeName(path) && !(".." <= path) {
      OrdinaryPiecesStay(pieces, []);
      assert [] + pieces == pieces;
      assert pieces[0] in pieces;
      assert path != "" && path != "." && path[0] != '/';
    }
    if IsBaselinePath(path) {
      var normal := NormalPieces(pieces, []);
      NormalPiecesAreNormal(pieces, []);
      assert normal != [];
      SplitInvertsJoin(normal);
      JoinStartsWithFirst(normal);
      forall p <- pieces ensures IsOrdinary(p) {
        var i :| 0 <= i < |normal| && normal[i] == p;
        if p == ".." { LeadingParents(normal, i); }
      }
    }
  }

  // ----- building and loading -----

  function Eligible(findings: seq<Finding>): seq<Finding> {
    Keep(findings, (f: Finding) => f.code == Unregistered)
  }

  /** A baseline path, and a kind that says something. */
  predicate IsRecordable(f: Finding) { IsBaselinePath(f.path) && !IsBlankText(f.path) && !IsBlankText(f.kind) }

  /**
   A baseline that has just been built loads exactly when the findings in it have usable paths and
   kinds and pairwise distinct ids; loading gives the same entries, each eligible finding once.
   */
  lemma BuiltLoadsIff(digest: Digest, findings: seq<Finding>)
    requires GivesIds(digest) && forall f <- findings :: HasItsId(digest, f)
    ensures IsLoadable(digest, BuildBaseline(findings)) <==>
            HasDistinctIds(Eligible(findings)) && forall f <- Eligible(findings) :: IsRecordable(f)
    ensures multiset(BuildBaseline(findings).entries) == multiset(Eligible(findings))
  {
    var kept := Eligible(findings);
    var entries := BuildBaseline(findings).entries;
    KeyOrderIsPreorder();
    SortSorts(kept, KeyLe);
    CanonicalIffSorted(entries);
    SortKeepsDistinct(kept);
    forall f ensures f in entries <==> f in kept { SortKeepsElements(kept, KeyLe, f); }
    assert CodeText(Unregistered)[0] == 'U';
    forall f <- kept ensures IsValidEntry(digest, f) <==> IsRecordable(f) {
      EligibleIsValidIff(digest, f);
    }
  }

  lemma EligibleIsValidIff(digest: Digest, f: Finding)
    requires GivesIds(digest) && HasItsId(digest, f) && f.code == Unregistered
    ensures IsValidEntry(digest, f) <==> IsRecordable(f)
  {
    var text := CodeText(f.code);
    assert text[0] in text && !IsSpaceChar(text[0]);
  }

  /** So a finding reported twice gives a baseline that the program writes but then refuses to read. */
  lemma RepeatedFindingIsNotLoadable(digest: Digest, f: Finding)
    requires GivesIds(digest) && HasItsId(digest, f) && f.code == Unregistered
    ensures !IsLoadable(digest, BuildBaseline([f, f]))
  {
    BuiltLoadsIff(digest, [f, f]);
    KeepAll([f, f], (g: Finding) => g.code == Unregistered);
    assert Eligible([f, f])[0].id == Eligible([f, f])[1].id;
  }

  lemma SortKeepsIds(s: seq<Finding>)
    ensures Ids(Sort(s, KeyLe)) == Ids(s)
  {
    KeyOrderIsPreorder();
    forall f ensures f in Sort(s, KeyLe) <==> f in s { SortKeepsElements(s, KeyLe, f); }
  }

  /** Right after a build nothing is new but findings of a code that is never recorded, and nothing is resolved. */
  lemma FreshBaselineTolerates(findings: seq<Finding>)
    ensures var p := PartitionRatchet(findings, BuildBaseline(findings).entries);
            && p.resolved == []
            && ((forall f <- Ratchetable(findings) :: f.code == Unregistered) ==>
                  p.added == [] && p.known == Ratchetable(findings))
  {
    var kept, entries, ratchetable := Eligible(findings), BuildBaseline(findings).entries, Ratchetable(findings);
    var current := Ids(ratchetable);
    SortKeepsIds(kept);
    KeyOrderIsPreorder();
    forall e <- entries ensures e.id in current {
      SortKeepsElements(kept, KeyLe, e);
      assert e in ratchetable;
    }
    KeepNone(entries, (e: Finding) => e.id !in current);
    if forall f <- ratchetable :: f.code == Unregistered {
      forall f <- ratchetable ensures f.id in Ids(entries) { assert f in kept; }
      KeepAll(ratchetable, (f: Finding) => f.id in Ids(entries));
      KeepNone(ratchetable, (f: Finding) => f.id !in Ids(entries));
    }
  }

  // ----- counting -----

  lemma IdsOfOneMore(f: Finding, rest: seq<Finding>)
    ensures Ids([f] + rest) == {f.id} + Ids(rest)
  {
    assert f in [f] + rest;
    forall g <- rest ensures g in [f] + rest {}
  }

  lemma FirstIdIsNew(s: seq<Finding>)
    requires s != [] && HasDistinctIds(s)
    ensures s[0].id !in Ids(s[1..]) && HasDistinctIds(s[1..])
  {
    forall f <- s[1..] ensures f.id != s[0].id {
      var j :| 0 <= j < |s[1..]| && s[1..][j] == f;
      assert s[j + 1] == f;
    }
  }

  lemma {:induction false} DistinctIdsCount(s: seq<Finding>)
    requires HasDistinctIds(s)
    ensures |Ids(s)| == |s|
    decreases s
  {
    if s == [] {
      assert Ids(s) == {};
    } else {
      FirstIdIsNew(s);
      DistinctIdsCount(s[1..]);
      IdsOfOneMore(s[0], s[1..]);
      assert s == [s[0]] + s[1..];
    }
  }

  /** The known findings and the entries they stand behind have the same ids. */
  lemma KnownMatchEntries(ratchetable: seq<Finding>, entries: seq<Finding>)
    ensures Ids(Keep(ratchetable, (f: Finding) => f.id in Ids(entries)))
         == Ids(Keep(entries, (e: Finding) => e.id in Ids(ratchetable)))
  {
    var known := Keep(ratchetable, (f: Finding) => f.id in Ids(entries));
    var matched := Keep(entries, (e: Finding) => e.id in Ids(ratchetable));
    forall x | x in Ids(known) ensures x in Ids(matched) {
      var e :| e in entries && e.id == x;
      assert e in matched;
    }
    forall x | x in Ids(matched) ensures x in Ids(known) {
      var f :| f in ratchetable && f.id == x;
      assert f in known;
    }
  }

  /** For distinct ids, every baseline entry is either known or resolved. */
  lemma KnownAndResolvedAreAll(findings: seq<Finding>, entries: seq<Finding>)
    requires HasDistinctIds(entries) && HasDistinctIds(Ratchetable(findings))
    ensures var p := PartitionRatchet(findings, entries);
            |p.known| + |p.resolved| == |entries| && |p.known| + |p.added| == |Ratchetable(findings)|
  {
    var p, ratchetable := PartitionRatchet(findings, entries), Ratchetable(findings);
    var current, baseline := Ids(ratchetable), Ids(entries);
    KeepSplits(ratchetable, (f: Finding) => f.id in baseline, (f: Finding) => f.id !in baseline);
    KeepSplits(entries, (e: Finding) => e.id in current, (e: Finding) => e.id !in current);
    KeepDistinct(ratchetable, (f: Finding) => f.id in baseline);
    KeepDistinct(entries, (e: Finding) => e.id in current);
    DistinctIdsCount(p.known);
    DistinctIdsCount(Keep(entries, (e: Finding) => e.id in current));
    KnownMatchEntries(ratchetable, entries);
    KeyOrderIsPreorder();
    SortSorts(Unmatched(findings, entries), KeyLe);
    assert |multiset(p.resolved)| == |multiset(Unmatched(findings, entries))|;
  }

  /** The ratchet passes exactly when every finding is tolerated and nothing is broken. */
  lemma RatchetPassesIff(findings: seq<Finding>, entries: seq<Finding>)
    ensures RatchetExit(findings, entries) == 0 <==>
            forall f <- findings :: IsRatchetable(f) && f.id in Ids(entries)
  {
    var p, ratchetable := PartitionRatchet(findings, entries), Ratchetable(findings);
    if p.added != [] { assert p.added[0] in p.added; }
    forall f <- findings ensures IsRatchetable(f) && f.id !in Ids(entries) ==> f in p.added {}
  }
}
