/**
 Source-bound acceptance pins the archive: its members are the root and then the Git tree's paths
 in byte order, with the tree's types, permissions, bytes and link targets.
 */
module ReleasePinning {
  import opened Wrappers
  import opened Ordering
  import opened Paths
  import opened ReleaseModel
  import opened ReleaseVerifier

  /** Git guarantees that a tree lists each path once. */
  ghost predicate HasUniquePaths(entries: seq<TreeEntry>) {
    forall i, j :: 0 <= i < j < |entries| ==> entries[i].path != entries[j].path
  }

  lemma LexIsPreorder()
    ensures IsTotalPreorder(LexLe)
  {
    forall a, b ensures LexLe(a, b) || LexLe(b, a) { LexTotal(a, b); }
    forall a, b, c | LexLe(a, b) && LexLe(b, c) ensures LexLe(a, c) { LexTransitive(a, b, c); }
  }

  lemma PathOrderIsPreorder()
    ensures IsTotalPreorder(PathLe)
  {
    LexIsPreorder();
  }

  lemma ByBelowIsPreorder(prefix: string)
    ensures IsTotalPreorder(ByBelow(prefix))
  {
    LexIsPreorder();
    var le := ByBelow(prefix);
    forall a, b, c | le(a, b) && le(b, c) ensures le(a, c) {
      LexTransitive(Below(prefix, a), Below(prefix, b), Below(prefix, c));
    }
    forall a, b ensures le(a, b) || le(b, a) { LexTotal(Below(prefix, a), Below(prefix, b)); }
  }

  lemma ListedTreeIsSorted(raw: seq<RawEntry>)
    requires ListTree(raw).Some?
    ensures IsSorted(ListTree(raw).value, PathLe)
    ensures multiset(ListTree(raw).value) == multiset(ParseEntries(raw).value)
  {
    PathOrderIsPreorder();
    SortSorts(ParseEntries(raw).value, PathLe);
  }

  lemma BelowPrefix(prefix: string, path: string)
    ensures Below(prefix, prefix + path) == path
  {}

  lemma TreeNamesAreSorted(prefix: string, entries: seq<TreeEntry>)
    requires IsSorted(entries, PathLe) && HasUniquePaths(entries)
    ensures IsSorted(TreeNames(prefix, entries), ByBelow(prefix))
    ensures forall i, j :: 0 <= i < j < |entries| ==> TreeNames(prefix, entries)[i] != TreeNames(prefix, entries)[j]
  {
    var names := TreeNames(prefix, entries);
    forall i, j | 0 <= i < j < |entries| ensures ByBelow(prefix)(names[i], names[j]) && names[i] != names[j] {
      assert PathLe(entries[i], entries[j]);
      BelowPrefix(prefix, entries[i].path);
      BelowPrefix(prefix, entries[j].path);
    }
  }

  lemma {:induction false} WithoutKeepsOthers(names: seq<string>, name: string, x: string)
    ensures x in Without(names, name) <==> x in names && x != name
    decreases names
  {
    if names != [] { WithoutKeepsOthers(names[1..], name, x); }
  }

  lemma {:induction false} CanonicalNamesAreTreeNames(prefix: string, names: seq<string>, entries: seq<TreeEntry>)
    requires IsPrefix(prefix) && IsCanonicalOrder(prefix, names)
    requires forall i, j :: 0 <= i < j < |names| ==> names[i] != names[j]
    requires IsSorted(entries, PathLe) && HasUniquePaths(entries)
    requires forall x :: x in names && x != RootName(prefix) <==> x in TreeNames(prefix, entries)
    ensures names == [RootName(prefix)] + TreeNames(prefix, entries)
  {
    var le, root, wanted := ByBelow(prefix), RootName(prefix), TreeNames(prefix, entries);
    var children := Without(names, root);
    var rest := Sort(children, le);
    ByBelowIsPreorder(prefix);
    SortSorts(children, le);
    TreeNamesAreSorted(prefix, entries);
    assert rest == names[1..];
    forall x ensures x in rest <==> x in wanted {
      SortKeepsElements(children, le, x);
      WithoutKeepsOthers(names, root, x);
    }
    forall x, y | x in rest && y in rest && le(x, y) && le(y, x) ensures x == y {
      TreeNamesAreAntisymmetric(prefix, entries, x, y);
    }
    SortedSetsAgree(rest, wanted, le);
  }

  lemma TreeNamesAreAntisymmetric(prefix: string, entries: seq<TreeEntry>, x: string, y: string)
    requires x in TreeNames(prefix, entries) && y in TreeNames(prefix, entries)
    requires ByBelow(prefix)(x, y) && ByBelow(prefix)(y, x)
    ensures x == y
  {
    var i :| 0 <= i < |entries| && TreeNames(prefix, entries)[i] == x;
    var j :| 0 <= j < |entries| && TreeNames(prefix, entries)[j] == y;
    BelowPrefix(prefix, entries[i].path);
    BelowPrefix(prefix, entries[j].path);
    LexAntisymmetric(entries[i].path, entries[j].path);
  }

  /** The members of a candidate directory that decodes and unpacks. */
  function MembersIn(codec: Codec, dir: Dir, m: Manifest): seq<Member>
    requires m.archivePath in dir && codec.gunzip(dir[m.archivePath].data).Some?
  {
    codec.untar(codec.gunzip(dir[m.archivePath].data).value)
  }

  /** Member by member, the archive is the tree below its root. */
  ghost predicate IsTreeArchive(prefix: string, stream: Bytes, members: seq<Member>, entries: seq<TreeEntry>)
    requires IsPrefix(prefix)
  {
    && Names(members) == [RootName(prefix)] + TreeNames(prefix, entries)
    && |members| == |entries| + 1
    && forall i :: 0 <= i < |entries| ==> IsEntryMember(stream, members[i + 1], entries[i])
  }

  /** The member is the entry, and if it is a link it stays inside the root. */
  ghost predicate IsEntryMember(stream: Bytes, m: Member, e: TreeEntry) {
    MatchesEntry(stream, m, e) && (e.mode == Link ==> IsSafeLink(e.path, m.linkname))
  }

  lemma MemberNamesAreTreeNames(prefix: string, members: seq<Member>, entries: seq<TreeEntry>)
    requires IsPrefix(prefix) && HasDistinctNames(members) && IsCanonicalOrder(prefix, Names(members))
    requires IsSorted(entries, PathLe) && HasUniquePaths(entries)
    requires HasTreeNames(MemberMap(members), prefix, entries)
    ensures Names(members) == [RootName(prefix)] + TreeNames(prefix, entries)
  {
    var names, wanted := Names(members), TreeNames(prefix, entries);
    MemberMapKeys(members);
    forall x ensures x in names && x != RootName(prefix) <==> x in wanted {
      assert x in wanted <==> x in MemberMap(members).Keys - {RootName(prefix)};
    }
    CanonicalNamesAreTreeNames(prefix, names, entries);
  }

  lemma ValidLinkIsSafe(prefix: string, path: string, m: Member)
    requires IsPrefix(prefix) && IsValidMember(m, prefix) && m.name == prefix + path && m.kind == Symlink
    ensures IsSafeLink(path, m.linkname)
  {
    BelowPrefix(prefix, path);
  }

  lemma MemberMatchesItsEntry(prefix: string, stream: Bytes, members: seq<Member>, i: nat, e: TreeEntry)
    requires IsPrefix(prefix) && HasDistinctNames(members) && i < |members|
    requires members[i].name == prefix + e.path && members[i].name in MemberMap(members)
    requires MatchesEntry(stream, MemberMap(members)[members[i].name], e)
    requires IsValidMember(members[i], prefix)
    ensures IsEntryMember(stream, members[i], e)
  {
    MemberMapLookup(members, i);
    if e.mode == Link { ValidLinkIsSafe(prefix, e.path, members[i]); }
  }

  lemma MembersMatchTree(codec: Codec, m: Manifest, archive: Bytes, stream: Bytes, members: seq<Member>, repo: Repo)
    requires AreMembers(codec, m, archive, members) && MatchesTree(m, stream, MemberMap(members), repo)
    requires HasUniquePaths(ListTree(repo.raw).value)
    ensures IsTreeArchive(m.prefix, stream, members, ListTree(repo.raw).value)
  {
    var entries := ListTree(repo.raw).value;
    ListedTreeIsSorted(repo.raw);
    MemberNamesAreTreeNames(m.prefix, members, entries);
    assert |Names(members)| == |entries| + 1;
    forall i | 0 <= i < |entries| ensures IsEntryMember(stream, members[i + 1], entries[i]) {
      assert Names(members)[i + 1] == members[i + 1].name && entries[i] in entries;
      TreeMemberIsEntry(codec, m, archive, stream, members, repo, i + 1, entries[i]);
    }
  }

  lemma TreeMemberIsEntry(codec: Codec, m: Manifest, archive: Bytes, stream: Bytes, members: seq<Member>, repo: Repo,
                          i: nat, e: TreeEntry)
    requires AreMembers(codec, m, archive, members) && MatchesTree(m, stream, MemberMap(members), repo)
    requires i < |members| && e in ListTree(repo.raw).value && members[i].name == m.prefix + e.path
    ensures IsEntryMember(stream, members[i], e)
  {
    assert members[i] in members;
    MemberMatchesItsEntry(m.prefix, stream, members, i, e);
  }

  /** If source-bound verification passes, the archive is the tree of the repository's commit. */
  lemma AcceptancePinsTree(codec: Codec, c: Contract, dir: Dir, repo: Repo, name: string)
    requires AcceptsNamed(codec, c, dir, Some(repo), name)
    requires ListTree(repo.raw).Some? ==> HasUniquePaths(ListTree(repo.raw).value)
    ensures var m := codec.decode(dir[name].data).value;
            && m.archivePath in dir && codec.gunzip(dir[m.archivePath].data).Some?
            && IsPrefix(m.prefix) && m.commit == repo.commit && ListTree(repo.raw).Some?
            && IsTreeArchive(m.prefix, codec.gunzip(dir[m.archivePath].data).value, MembersIn(codec, dir, m),
                             ListTree(repo.raw).value)
  {
    var m := codec.decode(dir[name].data).value;
    var archive := dir[m.archivePath].data;
    var stream := codec.gunzip(archive).value;
    MembersMatchTree(codec, m, archive, stream, codec.untar(stream), repo);
  }

  /** What a user gets from a member that is not the root. */
  datatype Extract = Extracted(path: string, kind: MemberKind, mode: nat, linkname: string, content: Bytes)

  function ExtractOf(prefix: string, stream: Bytes, m: Member): Extract {
    var path := Below(prefix, m.name);
    if m.kind == Symlink then Extracted(path, Symlink, 0, m.linkname, [])
    else Extracted(path, m.kind, m.mode, "", ReadAt(stream, m.dataOffset, m.size))
  }

  /** Two archives of one tree extract to the same files, whatever their root is called. */
  lemma TreeArchivesAgree(prefix: string, stream: Bytes, members: seq<Member>,
                          prefix': string, stream': Bytes, members': seq<Member>, entries: seq<TreeEntry>, i: nat)
    requires IsPrefix(prefix) && IsPrefix(prefix')
    requires IsTreeArchive(prefix, stream, members, entries) && IsTreeArchive(prefix', stream', members', entries)
    requires 1 <= i < |members|
    ensures |members| == |members'|
    ensures ExtractOf(prefix, stream, members[i]) == ExtractOf(prefix', stream', members'[i])
  {
    assert Names(members)[i] == prefix + entries[i - 1].path && Names(members')[i] == prefix' + entries[i - 1].path;
    BelowPrefix(prefix, entries[i - 1].path);
    BelowPrefix(prefix', entries[i - 1].path);
    assert MatchesEntry(stream, members[i], entries[i - 1]) by { assert members[(i - 1) + 1] == members[i]; }
    assert MatchesEntry(stream', members'[i], entries[i - 1]) by { assert members'[(i - 1) + 1] == members'[i]; }
  }

  function StreamIn(codec: Codec, dir: Dir, m: Manifest): Bytes
    requires m.archivePath in dir && codec.gunzip(dir[m.archivePath].data).Some?
  {
    codec.gunzip(dir[m.archivePath].data).value
  }

  /** Two candidates accepted for one repository extract to the same files below their roots. */
  lemma AcceptedArchivesAgree(codec: Codec, c: Contract, dir: Dir, name: string, dir': Dir, name': string, repo: Repo,
                              i: nat)
    requires AcceptsNamed(codec, c, dir, Some(repo), name) && AcceptsNamed(codec, c, dir', Some(repo), name')
    requires ListTree(repo.raw).Some? ==> HasUniquePaths(ListTree(repo.raw).value)
    ensures var m, m' := codec.decode(dir[name].data).value, codec.decode(dir'[name'].data).value;
            && m.archivePath in dir && codec.gunzip(dir[m.archivePath].data).Some?
            && m'.archivePath in dir' && codec.gunzip(dir'[m'.archivePath].data).Some?
            && |MembersIn(codec, dir, m)| == |MembersIn(codec, dir', m')|
            && (1 <= i < |MembersIn(codec, dir, m)| ==>
                  ExtractOf(m.prefix, StreamIn(codec, dir, m), MembersIn(codec, dir, m)[i])
                  == ExtractOf(m'.prefix, StreamIn(codec, dir', m'), MembersIn(codec, dir', m')[i]))
  {
    var m, m' := codec.decode(dir[name].data).value, codec.decode(dir'[name'].data).value;
    AcceptancePinsTree(codec, c, dir, repo, name);
    AcceptancePinsTree(codec, c, dir', repo, name');
    if 1 <= i < |MembersIn(codec, dir, m)| {
      TreeArchivesAgree(m.prefix, StreamIn(codec, dir, m), MembersIn(codec, dir, m),
                        m'.prefix, StreamIn(codec, dir', m'), MembersIn(codec, dir', m'), ListTree(repo.raw).value, i);
    }
  }

  /** The member as a link to `x` without any permissions. */
  function AsLink(m: Member): Member { m.(kind := Symlink, linkname := "x", mode := 0) }

  lemma ChangedRootKeepsOthers(members: seq<Member>, i: nat)
    requires HasDistinctNames(members) && members != [] && i < |members|
    ensures HasDistinctNames(members[0 := AsLink(members[0])])
    ensures var found, changed := MemberMap(members), MemberMap(members[0 := AsLink(members[0])]);
            && found.Keys == changed.Keys
            && (i > 0 ==> members[i].name in found && changed[members[i].name] == found[members[i].name])
  {
    var after := members[0 := AsLink(members[0])];
    assert Names(after) == Names(members);
    forall j, k | 0 <= j < k < |after| ensures after[j].name != after[k].name {
      assert members[j].name != members[k].name;
    }
    MemberMapKeys(members);
    MemberMapKeys(after);
    MemberMapLookup(members, i);
    MemberMapLookup(after, i);
  }

  lemma {:induction false} ChangedRootShrinks(members: seq<Member>)
    requires members != [] && HasFittingSize(members[0])
    ensures TotalSize(members[0 := AsLink(members[0])]) <= TotalSize(members)
    decreases |members|
  {
    var n, after := |members| - 1, members[0 := AsLink(members[0])];
    if n > 0 {
      ChangedRootShrinks(members[..n]);
      assert after[..n] == members[..n][0 := AsLink(members[0])];
    } else {
      assert after[..0] == members[..0] == [];
    }
  }

  lemma RootStaysValid(prefix: string, m: Member)
    requires IsPrefix(prefix) && IsValidMember(m, prefix) && m.name == RootName(prefix)
    ensures IsValidMember(AsLink(m), prefix)
  {
    assert Below(prefix, m.name) == "";
    assert Parts("") == Drop([""]) == Drop([""][1..]) == [];
    assert Split("x") == ["x"] by { SplitOfOnePiece("x"); }
    assert Parts("x") == ["x"] + Drop(["x"][1..]) == ["x"];
    assert Depth(0, ["x"], 1) == Depth(0, ["x"], 0) + 1;
  }

  lemma ChangedRootIsMember(codec: Codec, m: Manifest, archive: Bytes, members: seq<Member>)
    requires AreMembers(codec, m, archive, members)
    ensures members != [] && AreMembers(codec, m, archive, members[0 := AsLink(members[0])])
  {
    var after := members[0 := AsLink(members[0])];
    assert Names(after) == Names(members);
    assert members[0] in members && members[0].name == Names(members)[0] == RootName(m.prefix);
    ChangedRootKeepsOthers(members, 0);
    ChangedRootShrinks(members);
    RootStaysValid(m.prefix, members[0]);
    forall x <- after ensures IsValidMember(x, m.prefix) && HasFittingSize(x) {
      assert x == AsLink(members[0]) || x in members;
    }
  }

  /** The maps agree on every name below the prefix. */
  ghost predicate AgreeBelow(found: map<string, Member>, changed: map<string, Member>, prefix: string) {
    && found.Keys == changed.Keys
    && forall path :: prefix + path in found ==> changed[prefix + path] == found[prefix + path]
  }

  lemma ChangedRootAgreesBelow(members: seq<Member>, prefix: string)
    requires IsPrefix(prefix) && HasDistinctNames(members) && IsCanonicalOrder(prefix, Names(members))
    ensures members != []
    ensures AgreeBelow(MemberMap(members), MemberMap(members[0 := AsLink(members[0])]), prefix)
  {
    assert members[0].name == Names(members)[0] == RootName(prefix);
    var found, changed := MemberMap(members), MemberMap(members[0 := AsLink(members[0])]);
    ChangedRootKeepsOthers(members, 0);
    MemberMapKeys(members);
    forall path | prefix + path in found ensures changed[prefix + path] == found[prefix + path] {
      var i :| 0 <= i < |members| && Names(members)[i] == prefix + path;
      assert |members[i].name| > |members[0].name|;
      ChangedRootKeepsOthers(members, i);
    }
  }

  lemma SameRecord(codec: Codec, stream: Bytes, found: map<string, Member>, changed: map<string, Member>,
                   prefix: string, r: HashRecord)
    requires AgreeBelow(found, changed, prefix)
    ensures HoldsRecord(codec, stream, changed, prefix, r) <==> HoldsRecord(codec, stream, found, prefix, r)
  {
    SameRead(stream, found, changed, prefix, r.path, r.bytes);
  }

  lemma SameRead(stream: Bytes, found: map<string, Member>, changed: map<string, Member>, prefix: string, path: string,
                 maxBytes: int)
    requires AgreeBelow(found, changed, prefix)
    ensures ReadMember(stream, changed, prefix + path, maxBytes) == ReadMember(stream, found, prefix + path, maxBytes)
  {}

  /** What is checked of the members' content is checked below the prefix. */
  lemma ContentIsBelow(codec: Codec, c: Contract, m: Manifest, stream: Bytes, found: map<string, Member>,
                       changed: map<string, Member>, repo: Option<Repo>)
    requires IsPrefix(m.prefix) && AgreeBelow(found, changed, m.prefix)
    requires HasContent(codec, c, m, stream, found, repo)
    ensures HasContent(codec, c, m, stream, changed, repo)
  {
    forall r
      ensures HoldsRecord(codec, stream, changed, m.prefix, r) <==> HoldsRecord(codec, stream, found, m.prefix, r)
    {
      SameRecord(codec, stream, found, changed, m.prefix, r);
    }
    SameRead(stream, found, changed, m.prefix, c.licensePath, MAX_LICENSE_BYTES);
    if repo.Some? { TreeIsBelow(m, stream, found, changed, repo.value); }
  }

  /** The root may be such a link: neither its type nor its permissions are looked at. */
  lemma RootIsNotPinned(codec: Codec, c: Contract, m: Manifest, archive: Bytes, stream: Bytes, members: seq<Member>,
                        repo: Option<Repo>)
    requires AreMembers(codec, m, archive, members)
    ensures members != [] && AreMembers(codec, m, archive, members[0 := AsLink(members[0])])
    ensures HasContent(codec, c, m, stream, MemberMap(members), repo) ==>
            HasContent(codec, c, m, stream, MemberMap(members[0 := AsLink(members[0])]), repo)
    ensures repo.Some? && MatchesTree(m, stream, MemberMap(members), repo.value) ==>
            MatchesTree(m, stream, MemberMap(members[0 := AsLink(members[0])]), repo.value)
  {
    ChangedRootIsMember(codec, m, archive, members);
    ChangedRootAgreesBelow(members, m.prefix);
    var found, changed := MemberMap(members), MemberMap(members[0 := AsLink(members[0])]);
    if HasContent(codec, c, m, stream, found, repo) {
      ContentIsBelow(codec, c, m, stream, found, changed, repo);
    }
    if repo.Some? && MatchesTree(m, stream, found, repo.value) {
      TreeIsBelow(m, stream, found, changed, repo.value);
    }
  }

  lemma TreeIsBelow(m: Manifest, stream: Bytes, found: map<string, Member>, changed: map<string, Member>, repo: Repo)
    requires IsPrefix(m.prefix) && AgreeBelow(found, changed, m.prefix) && MatchesTree(m, stream, found, repo)
    ensures MatchesTree(m, stream, changed, repo)
  {
    forall e <- ListTree(repo.raw).value
      ensures m.prefix + e.path in changed && MatchesEntry(stream, changed[m.prefix + e.path], e)
    {
      assert m.prefix + e.path in found;
    }
  }
}
