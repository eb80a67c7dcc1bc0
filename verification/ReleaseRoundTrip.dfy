/**
 Builder and verifier fit together: the verifier accepts what was built from a tree exactly when
 the tree is within the verifier's limits.
 */
module ReleaseRoundTrip {
  import opened Wrappers
  import opened Ordering
  import opened Paths
  import opened ReleaseModel
  import opened ReleaseVerifier
  import opened ReleasePinning

  // ----- what is taken for granted about codecs and fixed texts -----

  ghost predicate IsCodec(codec: Codec) {
    && (forall b :: |codec.sha(b)| == 64 && IsHex(codec.sha(b)))
    && (forall b :: codec.gunzip(codec.gzip(b)) == Some(b) && HasZeroGzipTime(codec.gzip(b)))
    && (forall m :: codec.decode(codec.encode(m)) == Some(m))
    && (forall s :: IsAscii(s) ==> codec.text(Encode(s)) == Some(s))
    && (forall root, entries :: IsPlain(root) && HasGitPaths(entries) && HasSafeLinks(entries) ==>
          codec.untar(BuiltStream(codec, root, entries)) == BuiltMembers(codec, root, entries))
  }

  predicate IsAscii(s: string) { forall c <- s :: c < 128 as char }

  /** Git gives every entry of a tree a path, and no path holds the NUL that ends it in a listing. */
  predicate HasGitPaths(entries: seq<TreeEntry>) {
    forall e <- entries :: e.path != "" && '\0' !in e.path
  }

  predicate IsPlain(s: string) { s != "" && forall c <- s :: IsVersionChar(c) }

  function Last(s: string): char
    requires s != ""
  {
    s[|s| - 1]
  }

  /** Slug and file names are plain, and the three names in a candidate end differently. */
  predicate IsContract(c: Contract) {
    && IsPlain(c.slug) && IsPlain(c.archiveSuffix) && IsPlain(c.manifestSuffix)
    && c.sumsName != ""
    && Last(c.archiveSuffix) != Last(c.manifestSuffix) && Last(c.sumsName) != Last(c.manifestSuffix)
    && Last(c.sumsName) != Last(c.archiveSuffix)
    && |c.lockPaths| > 0
  }

  // ----- the tar stream -----

  lemma ZerosLength(n: int)
    ensures |Zeros(n)| == if n <= 0 then 0 else n
  {}

  lemma MemberBytesLength(codec: Codec, s: Source)
    ensures |MemberBytes(codec, s)| == |codec.header(s)| + Padded(|s.content|)
    ensures |s.content| <= Padded(|s.content|)
  {
    ZerosLength(Padded(|s.content|) - |s.content|);
  }

  lemma StreamStep(codec: Codec, sources: seq<Source>, i: nat)
    requires i < |sources|
    ensures StreamOf(codec, sources[..i + 1]) == StreamOf(codec, sources[..i]) + MemberBytes(codec, sources[i])
  {
    assert sources[..i + 1][..i] == sources[..i];
  }

  lemma {:induction false} StreamPrefix(codec: Codec, sources: seq<Source>, i: nat)
    requires i <= |sources|
    ensures StreamOf(codec, sources[..i]) <= StreamOf(codec, sources)
    decreases |sources| - i
  {
    if i == |sources| {
      assert sources[..i] == sources;
    } else {
      StreamStep(codec, sources, i);
      StreamPrefix(codec, sources, i + 1);
    }
  }

  lemma {:induction false} MembersAre(codec: Codec, sources: seq<Source>)
    ensures |MembersOf(codec, sources)| == |sources|
    ensures forall i :: 0 <= i < |sources| ==>
              MembersOf(codec, sources)[i] == MemberAt(codec, sources[i], |StreamOf(codec, sources[..i])|)
    decreases sources
  {
    if sources != [] {
      var front := sources[..|sources| - 1];
      MembersAre(codec, front);
      forall i | 0 <= i < |sources|
        ensures MembersOf(codec, sources)[i] == MemberAt(codec, sources[i], |StreamOf(codec, sources[..i])|)
      {
        if i < |front| { assert front[..i] == sources[..i]; }
      }
    }
  }

  lemma ReadInside(before: Bytes, content: Bytes, after: Bytes)
    ensures ReadAt(before + content + after, |before|, |content|) == content
  {
    var all := before + content + after;
    if content != [] { assert all[|before|..|before| + |content|] == content; }
  }

  lemma Regroup(a: Bytes, b: Bytes, c: Bytes, d: Bytes, e: Bytes, f: Bytes)
    ensures ((a + (b + c + d)) + e) + f == a + b + c + (d + (e + f))
  {}

  lemma MemberInStream(codec: Codec, sources: seq<Source>, i: nat) returns (after: Bytes)
    requires i < |sources|
    ensures TarBytes(codec, sources)
         == StreamOf(codec, sources[..i]) + codec.header(sources[i]) + sources[i].content + after
    ensures |StreamOf(codec, sources[..i])| + |codec.header(sources[i])| + Padded(|sources[i].content|)
         <= |StreamOf(codec, sources)|
  {
    var s, before, stream := sources[i], StreamOf(codec, sources[..i]), StreamOf(codec, sources);
    MemberBytesLength(codec, s);
    StreamStep(codec, sources, i);
    StreamPrefix(codec, sources, i + 1);
    var upTo := before + MemberBytes(codec, s);
    var zeros := Zeros(Padded(|s.content|) - |s.content|);
    var rest := stream[|upTo|..];
    assert stream == upTo + rest;
    after := zeros + (rest + codec.trailer(|stream|));
    Regroup(before, codec.header(s), s.content, zeros, rest, codec.trailer(|stream|));
  }

  /** Seeking to a member's data and reading its size gives its content, all inside the stream. */
  lemma MemberContent(codec: Codec, sources: seq<Source>, i: nat)
    requires i < |sources|
    ensures |MembersOf(codec, sources)| == |sources|
    ensures var m := MembersOf(codec, sources)[i];
            && ReadAt(TarBytes(codec, sources), m.dataOffset, m.size) == sources[i].content
            && 0 <= m.offset <= m.dataOffset && m.dataOffset + Padded(m.size) <= |StreamOf(codec, sources)|
  {
    MembersAre(codec, sources);
    var after := MemberInStream(codec, sources, i);
    ReadInside(StreamOf(codec, sources[..i]) + codec.header(sources[i]), sources[i].content, after);
  }

  /** The sum of the sizes of the regular files of a tree. */
  function FileTotal(entries: seq<TreeEntry>): nat {
    if entries == [] then 0
    else
      var last := entries[|entries| - 1];
      FileTotal(entries[..|entries| - 1]) + (if last.mode == Link then 0 else |last.blob|)
  }

  /** The stream and the total after one more entry. */
  lemma ArchiveStep(codec: Codec, root: string, entries: seq<TreeEntry>)
    requires entries != []
    ensures var front, all := ArchiveSources(root, entries[..|entries| - 1]), ArchiveSources(root, entries);
            var s := EntrySource(root + "/", entries[|entries| - 1]);
            && StreamOf(codec, all) == StreamOf(codec, front) + MemberBytes(codec, s)
            && MembersOf(codec, all) == MembersOf(codec, front) + [MemberAt(codec, s, |StreamOf(codec, front)|)]
  {
    var all := ArchiveSources(root, entries);
    assert all[..|all| - 1] == ArchiveSources(root, entries[..|entries| - 1]);
  }

  lemma TotalSizeStep(members: seq<Member>, m: Member)
    ensures TotalSize(members + [m]) == TotalSize(members) + (if m.kind == File then m.size else 0)
  {
    assert (members + [m])[..|members|] == members;
  }

  lemma {:induction false} TotalSizeIsFileTotal(codec: Codec, root: string, entries: seq<TreeEntry>)
    ensures TotalSize(MembersOf(codec, ArchiveSources(root, entries))) == FileTotal(entries)
    ensures FileTotal(entries) <= |StreamOf(codec, ArchiveSources(root, entries))|
    decreases entries
  {
    var sources := ArchiveSources(root, entries);
    if entries == [] {
      assert sources[..0] == [];
      TotalSizeStep([], MemberAt(codec, sources[0], 0));
      assert MembersOf(codec, sources) == [] + [MemberAt(codec, sources[0], 0)];
    } else {
      var front := ArchiveSources(root, entries[..|entries| - 1]);
      var s := EntrySource(root + "/", entries[|entries| - 1]);
      TotalSizeIsFileTotal(codec, root, entries[..|entries| - 1]);
      ArchiveStep(codec, root, entries);
      TotalSizeStep(MembersOf(codec, front), MemberAt(codec, s, |StreamOf(codec, front)|));
      MemberBytesLength(codec, s);
    }
  }

  // ----- names -----

  lemma RootIsPlainPiece(c: Contract, version: string, commit: string)
    requires IsContract(c) && IsVersion(version) && IsObjectId(commit)
    ensures var root := Root(c, version, commit);
            '/' !in root && IsOrdinary(root) && IsPlain(root) && IsPrefix(root + "/") && RootName(root + "/") == root
  {
    VersionIsPlain(version);
    var root := Root(c, version, commit);
    forall x | x in commit[..12] ensures IsVersionChar(x) { assert x in commit; }
    assert |root| >= 14;
    assert (root + "/")[..|root|] == root;
    SafeNameUnder(root, "");
  }

  predicate HasVersionChars(s: string) { forall c <- s :: IsVersionChar(c) }

  lemma VersionCharsOfBoth(s: string, t: string)
    requires HasVersionChars(s) && HasVersionChars(t)
    ensures HasVersionChars(s + t)
  {}

  /** A number and a dot in front of version characters are version characters. */
  lemma NumberDotIsPlain(s: string)
    requires AfterNumberDot(s).Some? && HasVersionChars(AfterNumberDot(s).value)
    ensures HasVersionChars(s)
  {
    var n := DigitRun(s);
    DigitRunIsPlain(s);
    assert HasVersionChars(['.']);
    VersionCharsOfBoth(s[..n], ['.']);
    VersionCharsOfBoth(s[..n] + ['.'], s[n + 1..]);
    assert s == s[..n] + ['.'] + s[n + 1..];
  }

  lemma VersionIsPlain(s: string)
    requires IsVersion(s)
    ensures IsPlain(s)
  {
    var t := AfterNumberDot(s).value;
    var u := AfterNumberDot(t).value;
    var n := DigitRun(u);
    DigitRunIsPlain(u);
    assert u == u[..n] + u[n..];
    if n < |u| {
      assert HasVersionChars(['-']) && HasVersionChars(u[n + 1..]);
      VersionCharsOfBoth(['-'], u[n + 1..]);
      assert u[n..] == ['-'] + u[n + 1..];
    }
    VersionCharsOfBoth(u[..n], u[n..]);
    NumberDotIsPlain(t);
    NumberDotIsPlain(s);
  }

  lemma DigitRunIsPlain(s: string)
    ensures HasVersionChars(s[..DigitRun(s)])
  {
    if s != "" && '0' <= s[0] <= '9' {
      DigitRunIsPlain(s[1..]);
      assert s[..DigitRun(s)] == [s[0]] + s[1..][..DigitRun(s[1..])];
    }
  }

  lemma EntrySourceName(prefix: string, e: TreeEntry)
    ensures EntrySource(prefix, e).name == prefix + e.path
  {}

  lemma {:induction false} BuiltNames(codec: Codec, root: string, entries: seq<TreeEntry>)
    ensures Names(MembersOf(codec, ArchiveSources(root, entries))) == [root] + TreeNames(root + "/", entries)
  {
    var sources := ArchiveSources(root, entries);
    MembersAre(codec, sources);
    var names, wanted := Names(MembersOf(codec, sources)), [root] + TreeNames(root + "/", entries);
    forall i | 0 <= i < |sources| ensures names[i] == wanted[i] {
      assert names[i] == sources[i].name;
      if i > 0 { EntrySourceName(root + "/", entries[i - 1]); }
    }
  }

  lemma {:induction false} WithoutRoot(names: seq<string>, name: string)
    requires name !in names
    ensures Without(names, name) == names
    decreases names
  {
    if names != [] { WithoutRoot(names[1..], name); }
  }

  lemma RootIsNoTreeName(root: string, entries: seq<TreeEntry>)
    ensures root !in TreeNames(root + "/", entries)
  {
    var names := TreeNames(root + "/", entries);
    forall i | 0 <= i < |names| ensures names[i] != root { assert |names[i]| > |root|; }
  }

  lemma BuiltNamesAreDistinct(codec: Codec, root: string, entries: seq<TreeEntry>)
    requires IsSorted(entries, PathLe) && HasUniquePaths(entries)
    ensures HasDistinctNames(MembersOf(codec, ArchiveSources(root, entries)))
  {
    var wanted := TreeNames(root + "/", entries);
    BuiltNames(codec, root, entries);
    TreeNamesAreSorted(root + "/", entries);
    RootIsNoTreeName(root, entries);
    HeadIsDistinct(root, wanted);
    NamesTellDistinct(MembersOf(codec, ArchiveSources(root, entries)), [root] + wanted);
  }

  predicate AreDistinct(names: seq<string>) {
    forall i, j :: 0 <= i < j < |names| ==> names[i] != names[j]
  }

  lemma HeadIsDistinct(name: string, names: seq<string>)
    requires name !in names && AreDistinct(names)
    ensures AreDistinct([name] + names)
  {}

  lemma NamesTellDistinct(members: seq<Member>, names: seq<string>)
    requires Names(members) == names && AreDistinct(names)
    ensures HasDistinctNames(members)
  {
    forall i, j | 0 <= i < j < |members| ensures members[i].name != members[j].name {
      assert names[i] == members[i].name && names[j] == members[j].name;
    }
  }

  lemma TreeOrderIsCanonical(root: string, entries: seq<TreeEntry>)
    requires IsPrefix(root + "/") && RootName(root + "/") == root
    requires IsSorted(entries, PathLe) && HasUniquePaths(entries)
    ensures IsCanonicalOrder(root + "/", [root] + TreeNames(root + "/", entries))
  {
    var wanted := TreeNames(root + "/", entries);
    TreeNamesAreSorted(root + "/", entries);
    RootIsNoTreeName(root, entries);
    WithoutRoot(wanted, root);
    assert ([root] + wanted)[1..] == wanted;
    assert [] + wanted == wanted && Without([root] + wanted, root) == wanted;
    assert RootName(root + "/") == root;
    SortKeepsSorted(wanted, ByBelow(root + "/"));
  }

  // ----- members of a built archive -----

  function BuiltStream(codec: Codec, root: string, entries: seq<TreeEntry>): Bytes {
    TarBytes(codec, ArchiveSources(root, entries))
  }

  function BuiltMembers(codec: Codec, root: string, entries: seq<TreeEntry>): seq<Member> {
    MembersOf(codec, ArchiveSources(root, entries))
  }

  function BuiltMap(codec: Codec, root: string, entries: seq<TreeEntry>): map<string, Member> {
    MemberMap(BuiltMembers(codec, root, entries))
  }

  /** As `git ls-tree` lists a tree and `list_tree` sorts it. */
  ghost predicate IsListed(entries: seq<TreeEntry>) {
    IsSorted(entries, PathLe) && HasUniquePaths(entries)
  }

  /** Header fields of the member built from an entry. */
  predicate IsMemberOf(root: string, m: Member, e: TreeEntry) {
    && m.name == root + "/" + e.path && m.uid == 0 && m.gid == 0 && m.mtime == 0
    && m.kind == (if e.mode == Link then Symlink else File)
    && m.mode == (if e.mode == Link then 0x1FF else if e.mode == Executable then 0x1ED else 0x1A4)
    && m.linkname == (if e.mode == Link then Text(e.blob) else "")
    && m.size == (if e.mode == Link then 0 else |e.blob|)
  }

  lemma MemberIs(codec: Codec, sources: seq<Source>, i: nat)
    requires i < |sources|
    ensures |MembersOf(codec, sources)| == |sources|
    ensures MembersOf(codec, sources)[i] == MemberAt(codec, sources[i], |StreamOf(codec, sources[..i])|)
  {
    MembersAre(codec, sources);
  }

  lemma EntrySourceIsMember(codec: Codec, root: string, e: TreeEntry, offset: nat)
    ensures IsMemberOf(root, MemberAt(codec, EntrySource(root + "/", e), offset), e)
    ensures e.mode != Link ==> EntrySource(root + "/", e).content == e.blob
  {}

  lemma BuiltMember(codec: Codec, root: string, entries: seq<TreeEntry>, i: nat)
    requires i < |entries|
    ensures var members := BuiltMembers(codec, root, entries);
            && |members| == |entries| + 1 && IsMemberOf(root, members[i + 1], entries[i])
            && MatchesEntry(BuiltStream(codec, root, entries), members[i + 1], entries[i])
  {
    var sources := ArchiveSources(root, entries);
    MemberIs(codec, sources, i + 1);
    MemberContent(codec, sources, i + 1);
    assert sources[i + 1] == EntrySource(root + "/", entries[i]);
    EntrySourceIsMember(codec, root, entries[i], |StreamOf(codec, sources[..i + 1])|);
  }

  /** The member of entry `i` is found under its name. */
  lemma BuiltLookup(codec: Codec, root: string, entries: seq<TreeEntry>, i: nat)
    requires IsListed(entries) && i < |entries|
    ensures var name, found := root + "/" + entries[i].path, BuiltMap(codec, root, entries);
            && name in found && IsMemberOf(root, found[name], entries[i])
            && MatchesEntry(BuiltStream(codec, root, entries), found[name], entries[i])
  {
    BuiltMember(codec, root, entries, i);
    BuiltNamesAreDistinct(codec, root, entries);
    MemberMapLookup(BuiltMembers(codec, root, entries), i + 1);
  }

  lemma {:induction false} BlobIsOfEntry(entries: seq<TreeEntry>, path: string) returns (i: nat)
    requires BlobAt(entries, path).Some?
    ensures i < |entries| && entries[i].path == path && BlobAt(entries, path) == Some(entries[i].blob)
    decreases entries
  {
    if entries[0].path == path {
      i := 0;
    } else {
      var j := BlobIsOfEntry(entries[1..], path);
      i := j + 1;
    }
  }

  /** The tree has a regular file at the path. */
  predicate IsFileAt(entries: seq<TreeEntry>, path: string) {
    exists e <- entries :: e.path == path && e.mode != Link
  }

  lemma FileAtEntry(entries: seq<TreeEntry>, i: nat)
    requires HasUniquePaths(entries) && i < |entries|
    ensures IsFileAt(entries, entries[i].path) <==> entries[i].mode != Link
  {
    if entries[i].mode != Link { assert entries[i] in entries; }
    if e :| e in entries && e.path == entries[i].path && e.mode != Link {
      var j :| 0 <= j < |entries| && entries[j] == e;
      assert i == j;
    }
  }

  /** Reading a path back from the archive succeeds for regular files within the limit, and only for them. */
  lemma ReadBack(codec: Codec, root: string, entries: seq<TreeEntry>, path: string, maxBytes: int)
    requires IsListed(entries) && BlobAt(entries, path).Some?
    ensures var content := ReadMember(BuiltStream(codec, root, entries), BuiltMap(codec, root, entries),
                                      root + "/" + path, maxBytes);
            && (content.Some? ==> content == BlobAt(entries, path))
            && (content.Some? <==> IsFileAt(entries, path) && |BlobAt(entries, path).value| <= maxBytes)
  {
    var i := BlobIsOfEntry(entries, path);
    BuiltLookup(codec, root, entries, i);
    FileAtEntry(entries, i);
  }

  predicate IsSmallFileAt(entries: seq<TreeEntry>, path: string) {
    && IsFileAt(entries, path)
    && BlobAt(entries, path).Some? && |BlobAt(entries, path).value| <= MAX_ARCHIVE_MEMBER_BYTES
  }

  lemma RecordReadsBack(codec: Codec, root: string, entries: seq<TreeEntry>, path: string)
    requires IsListed(entries) && HashedPath(codec, entries, path).Some?
    ensures HoldsRecord(codec, BuiltStream(codec, root, entries), BuiltMap(codec, root, entries), root + "/",
                        HashedPath(codec, entries, path).value)
       <==> IsSmallFileAt(entries, path)
    ensures HashedPath(codec, entries, path).value.path == path
  {
    ReadBack(codec, root, entries, path, |BlobAt(entries, path).value|);
  }

  lemma {:induction false} HashedPathsAre(codec: Codec, entries: seq<TreeEntry>, paths: seq<string>)
    requires HashedPaths(codec, entries, paths).Some?
    ensures |HashedPaths(codec, entries, paths).value| == |paths|
    ensures forall i :: 0 <= i < |paths| ==>
              HashedPath(codec, entries, paths[i]) == Some(HashedPaths(codec, entries, paths).value[i])
    decreases paths
  {
    if paths != [] { HashedPathsAre(codec, entries, paths[1..]); }
  }

  ghost predicate AreSmallFiles(entries: seq<TreeEntry>, paths: seq<string>) {
    forall i :: 0 <= i < |paths| ==> IsSmallFileAt(entries, paths[i])
  }

  lemma RecordsReadBack(codec: Codec, root: string, entries: seq<TreeEntry>, paths: seq<string>)
    requires IsListed(entries) && HashedPaths(codec, entries, paths).Some?
    ensures HoldsRecords(codec, BuiltStream(codec, root, entries), BuiltMap(codec, root, entries), root + "/",
                         HashedPaths(codec, entries, paths).value, paths)
       <==> AreSmallFiles(entries, paths)
  {
    var rs := HashedPaths(codec, entries, paths).value;
    var stream, found := BuiltStream(codec, root, entries), BuiltMap(codec, root, entries);
    HashedPathsAre(codec, entries, paths);
    forall i | 0 <= i < |paths|
      ensures rs[i].path == paths[i]
      ensures HoldsRecord(codec, stream, found, root + "/", rs[i]) <==> IsSmallFileAt(entries, paths[i])
    {
      RecordReadsBack(codec, root, entries, paths[i]);
    }
  }

  /** The four files of the semantic extension. */
  function SemanticPaths(c: Contract): seq<string> {
    [c.platformPath, c.inputPath, c.constraintsPath, c.semanticLockPath]
  }

  lemma SemanticReadsBack(codec: Codec, c: Contract, root: string, entries: seq<TreeEntry>)
    requires IsListed(entries) && SemanticRecord(codec, c, entries).Some?
    ensures HoldsSemantic(codec, c, BuiltStream(codec, root, entries), BuiltMap(codec, root, entries), root + "/",
                          SemanticRecord(codec, c, entries).value)
       <==> AreSmallFiles(entries, SemanticPaths(c))
  {
    var paths := SemanticPaths(c);
    var rs := HashedPaths(codec, entries, paths).value;
    var stream, found := BuiltStream(codec, root, entries), BuiltMap(codec, root, entries);
    HashedPathsAre(codec, entries, paths);
    forall i | 0 <= i < 4
      ensures rs[i].path == paths[i]
      ensures HoldsRecord(codec, stream, found, root + "/", rs[i]) <==> IsSmallFileAt(entries, paths[i])
    {
      RecordReadsBack(codec, root, entries, paths[i]);
    }
    SemanticHolds(codec, c, stream, found, root + "/", rs);
  }

  lemma SemanticHolds(codec: Codec, c: Contract, stream: Bytes, found: map<string, Member>, prefix: string,
                      rs: seq<HashRecord>)
    requires |rs| == 4 && forall i :: 0 <= i < 4 ==> rs[i].path == SemanticPaths(c)[i]
    ensures HoldsSemantic(codec, c, stream, found, prefix,
                          Semantic(c.semanticStatus, false, c.semanticPolicy, rs[0],
                                   [SemanticTarget(c.semanticTarget, rs[1], rs[2], rs[3])]))
       <==> forall i :: 0 <= i < 4 ==> HoldsRecord(codec, stream, found, prefix, rs[i])
  {
    assert rs[0].path == SemanticPaths(c)[0] && rs[1].path == SemanticPaths(c)[1];
    assert rs[2].path == SemanticPaths(c)[2] && rs[3].path == SemanticPaths(c)[3];
  }

  // ----- the member checks -----

  /** A path and a size that the verifier takes from an entry. */
  predicate IsTakenEntry(e: TreeEntry) {
    IsSafeName(e.path) && (e.mode != Link ==> |e.blob| <= MAX_ARCHIVE_MEMBER_BYTES)
  }

  predicate IsRoot(root: string) {
    '/' !in root && IsOrdinary(root) && IsPrefix(root + "/") && RootName(root + "/") == root
  }

  lemma EntryMemberTaken(root: string, m: Member, e: TreeEntry)
    requires IsRoot(root) && IsMemberOf(root, m, e)
    requires e.mode == Link ==> IsSafeLink(e.path, Text(e.blob))
    requires 0 <= m.offset <= m.dataOffset && m.dataOffset + Padded(m.size) <= MAX_ARCHIVE_STREAM_BYTES
    ensures IsTakenMember(m, root + "/") <==> IsTakenEntry(e)
  {
    SafeNameUnder(root, e.path);
    assert root + "/" + e.path == (root + "/") + e.path;
    BelowPrefix(root + "/", e.path);
    assert root + "/" <= m.name;
  }

  lemma RootMemberTaken(codec: Codec, root: string, entries: seq<TreeEntry>)
    requires IsRoot(root) && |StreamOf(codec, ArchiveSources(root, entries))| <= MAX_ARCHIVE_STREAM_BYTES
    ensures var m := BuiltMembers(codec, root, entries);
            |m| > 0 && IsTakenMember(m[0], root + "/")
  {
    MembersAre(codec, ArchiveSources(root, entries));
    MemberContent(codec, ArchiveSources(root, entries), 0);
    SafeNameUnder(root, "");
  }

  lemma BuiltMemberTaken(codec: Codec, root: string, entries: seq<TreeEntry>, i: nat)
    requires IsRoot(root) && HasSafeLinks(entries) && i < |entries|
    requires |StreamOf(codec, ArchiveSources(root, entries))| <= MAX_ARCHIVE_STREAM_BYTES
    ensures |BuiltMembers(codec, root, entries)| == |entries| + 1
    ensures var m := BuiltMembers(codec, root, entries)[i + 1];
            (IsTakenMember(m, root + "/") <==> IsTakenEntry(entries[i]))
  {
    BuiltMember(codec, root, entries, i);
    MemberContent(codec, ArchiveSources(root, entries), i + 1);
    assert entries[i] in entries;
    EntryMemberTaken(root, BuiltMembers(codec, root, entries)[i + 1], entries[i]);
  }

  /** Every member is taken if and only if the root is, as it is here, and every entry is. */
  lemma AllTakenIff(root: string, members: seq<Member>, entries: seq<TreeEntry>)
    requires IsRoot(root) && |members| == |entries| + 1
    requires IsTakenMember(members[0], root + "/")
    requires forall i :: 0 <= i < |entries| ==>
               (IsTakenMember(members[i + 1], root + "/") <==> IsTakenEntry(entries[i]))
    ensures (forall x <- members :: IsTakenMember(x, root + "/")) <==> (forall e <- entries :: IsTakenEntry(e))
  {
    if forall x <- members :: IsTakenMember(x, root + "/") {
      forall i | 0 <= i < |entries| ensures IsTakenEntry(entries[i]) { assert members[i + 1] in members; }
    }
    if forall e <- entries :: IsTakenEntry(e) {
      forall i | 0 <= i < |members| ensures IsTakenMember(members[i], root + "/") {
        if i > 0 { assert entries[i - 1] in entries && IsTakenMember(members[(i - 1) + 1], root + "/"); }
      }
    }
  }

  lemma MembersTaken(codec: Codec, root: string, entries: seq<TreeEntry>)
    requires IsRoot(root) && HasSafeLinks(entries)
    requires |StreamOf(codec, ArchiveSources(root, entries))| <= MAX_ARCHIVE_STREAM_BYTES
    ensures (forall x <- BuiltMembers(codec, root, entries) :: IsTakenMember(x, root + "/"))
       <==> (forall e <- entries :: IsTakenEntry(e))
  {
    var members := BuiltMembers(codec, root, entries);
    RootMemberTaken(codec, root, entries);
    MembersAre(codec, ArchiveSources(root, entries));
    forall i | 0 <= i < |entries| ensures IsTakenMember(members[i + 1], root + "/") <==> IsTakenEntry(entries[i]) {
      BuiltMemberTaken(codec, root, entries, i);
    }
    AllTakenIff(root, members, entries);
  }

  /** The limits on the members of an archive, in terms of the tree. */
  ghost predicate HasTakenEntries(entries: seq<TreeEntry>) {
    && |entries| + 1 <= MAX_ARCHIVE_MEMBERS
    && (forall e <- entries :: IsTakenEntry(e))
    && FileTotal(entries) <= MAX_ARCHIVE_TOTAL_BYTES
  }

  lemma BuiltMembersAccepted(codec: Codec, m: Manifest, archive: Bytes, root: string, entries: seq<TreeEntry>)
    requires IsRoot(root) && IsListed(entries) && HasSafeLinks(entries)
    requires m.prefix == root + "/" && m.trackedCount == |entries|
    requires codec.sha(archive) == m.archiveSha && |archive| == m.archiveBytes && HasZeroGzipTime(archive)
    requires |BuiltStream(codec, root, entries)| <= MAX_ARCHIVE_STREAM_BYTES
    requires |BuiltStream(codec, root, entries)| <= |archive| * MAX_ARCHIVE_COMPRESSION_RATIO
    ensures AreMembers(codec, m, archive, BuiltMembers(codec, root, entries)) <==> HasTakenEntries(entries)
  {
    var members := BuiltMembers(codec, root, entries);
    MembersAre(codec, ArchiveSources(root, entries));
    MembersTaken(codec, root, entries);
    TotalSizeIsFileTotal(codec, root, entries);
    BuiltNamesAreDistinct(codec, root, entries);
    BuiltNames(codec, root, entries);
    TreeOrderIsCanonical(root, entries);
  }

  lemma BuiltTreeMatches(codec: Codec, m: Manifest, root: string, entries: seq<TreeEntry>, repo: Repo)
    requires IsRoot(root) && IsListed(entries) && m.prefix == root + "/"
    requires m.commit == repo.commit && m.tree == repo.tree && ListTree(repo.raw) == Some(entries)
    ensures MatchesTree(m, BuiltStream(codec, root, entries), BuiltMap(codec, root, entries), repo)
       <==> HasBoundedBlobs(entries)
  {
    var found, wanted := BuiltMap(codec, root, entries), TreeNames(root + "/", entries);
    BuiltNamesAreDistinct(codec, root, entries);
    BuiltNames(codec, root, entries);
    MemberMapKeys(BuiltMembers(codec, root, entries));
    RootIsNoTreeName(root, entries);
    assert found.Keys - {root} == (set x | x in wanted);
    assert HasTreeNames(found, root + "/", entries);
    forall e <- entries
      ensures root + "/" + e.path in found
      ensures MatchesEntry(BuiltStream(codec, root, entries), found[root + "/" + e.path], e)
    {
      var i :| 0 <= i < |entries| && entries[i] == e;
      BuiltLookup(codec, root, entries, i);
    }
  }

  lemma RetiredStayAway(codec: Codec, c: Contract, root: string, entries: seq<TreeEntry>, path: string)
    requires IsListed(entries) && !HasRetiredPath(c, entries) && path in c.retiredPaths
    ensures root + "/" + path !in BuiltMap(codec, root, entries)
  {
    BuiltNamesAreDistinct(codec, root, entries);
    BuiltNames(codec, root, entries);
    MemberMapKeys(BuiltMembers(codec, root, entries));
    NoSuchTreeName(root + "/", entries, path);
    assert |root + "/" + path| > |root|;
  }

  lemma NoSuchTreeName(prefix: string, entries: seq<TreeEntry>, path: string)
    requires forall e <- entries :: e.path != path
    ensures prefix + path !in TreeNames(prefix, entries)
  {
    BelowPrefix(prefix, path);
    forall i | 0 <= i < |entries| ensures TreeNames(prefix, entries)[i] != prefix + path {
      BelowPrefix(prefix, entries[i].path);
      assert entries[i] in entries;
    }
  }

  // ----- SHA256SUMS -----

  lemma {:induction false} SplitLinesAtNewline(line: string, rest: string)
    requires forall ch <- line :: !IsLineBreak(ch)
    ensures SplitLines(line + "\n" + rest) == [line] + SplitLines(rest)
    decreases line
  {
    var s := line + "\n" + rest;
    if line == "" {
      assert s[1..] == rest;
    } else {
      assert s[1..] == line[1..] + "\n" + rest;
      SplitLinesAtNewline(line[1..], rest);
      assert line[0] in line;
      assert [line[0]] + line[1..] == line;
    }
  }

  lemma SplitTwoLines(a: string, b: string)
    requires forall ch <- a + b :: !IsLineBreak(ch)
    ensures SplitLines(a + "\n" + b + "\n") == [a, b]
  {
    assert a + "\n" + b + "\n" == a + "\n" + (b + "\n" + "");
    forall ch <- a ensures !IsLineBreak(ch) { assert ch in a + b; }
    forall ch <- b ensures !IsLineBreak(ch) { assert ch in a + b; }
    SplitLinesAtNewline(a, b + "\n" + "");
    SplitLinesAtNewline(b, "");
  }

  /** A name that may stand in SHA256SUMS as it is. */
  predicate IsPlainName(s: string) { IsPlain(s) && '/' !in s }

  lemma SumLineIsRead(sha: string, name: string)
    requires |sha| == 64 && IsHex(sha) && IsPlainName(name)
    ensures var line := SumLine(sha, name);
            IsSumLine(line) && line[..64] == sha && line[66..] == name
            && forall ch <- line :: !IsLineBreak(ch) && ch < 128 as char
  {
    var line := SumLine(sha, name);
    assert line[..64] == sha && line[66..] == name;
    forall ch <- line ensures !IsLineBreak(ch) && ch < 128 as char {
      assert ch in sha || ch == ' ' || ch in name;
    }
  }

  lemma TwoLinesParse(a: string, b: string)
    requires IsSumLine(a) && IsSumLine(b) && a[66..] != b[66..]
    ensures ParseSums([a, b]) == Some(map[a[66..] := a[..64], b[66..] := b[..64]])
  {
    assert [a, b][..1] == [a] && [a][..0] == [];
    assert ParseSums([a]) == Some(map[a[66..] := a[..64]]);
  }

  /** The sums that the builder writes are read back as the two digests. */
  lemma BuiltSumsParse(codec: Codec, sha: string, name: string, sha': string, name': string)
    requires IsCodec(codec)
    requires |sha| == 64 && IsHex(sha) && IsPlainName(name)
    requires |sha'| == 64 && IsHex(sha') && IsPlainName(name') && name != name'
    ensures var text := SumsText(SumLine(sha, name), SumLine(sha', name'));
            && codec.text(Encode(text)) == Some(text) && |Encode(text)| == |text|
            && ParseSums(SplitLines(text)) == Some(map[name := sha, name' := sha'])
  {
    var a, b := SumLine(sha, name), SumLine(sha', name');
    SumLineIsRead(sha, name);
    SumLineIsRead(sha', name');
    SortOfTwo(a, b);
    var first, second := if LexLe(a, b) then a else b, if LexLe(a, b) then b else a;
    var text := first + "\n" + second + "\n";
    SplitTwoLines(first, second);
    TwoLinesParse(first, second);
    forall ch <- text ensures ch < 128 as char { assert ch in a || ch in b || ch == '\n'; }
    assert IsAscii(text);
    assert SumsText(a, b) == text;
    assert map[name := sha, name' := sha'] == map[name' := sha', name := sha];
  }

  lemma SortOfTwo(a: string, b: string)
    ensures Sort([a, b], LexLe) == if LexLe(a, b) then [a, b] else [b, a]
  {
    assert [a, b][1..] == [b] && [b][1..] == [];
    assert Sort([b], LexLe) == [b];
    assert [b][1..] == [] && Insert(a, [], LexLe) == [a];
    assert Insert(a, [b], LexLe) == if LexLe(a, b) then [a] + [b] else [b] + Insert(a, [b][1..], LexLe);
    assert [a] + [b] == [a, b] && [b] + [a] == [b, a];
  }

  // ----- the candidate directory -----

  function ArchiveName(c: Contract, repo: Repo): string
    requires IsObjectId(repo.commit)
  {
    Root(c, repo.version, repo.commit) + c.archiveSuffix
  }

  function ManifestName(c: Contract, repo: Repo): string
    requires IsObjectId(repo.commit)
  {
    Root(c, repo.version, repo.commit) + c.manifestSuffix
  }

  lemma SuffixFixesLast(name: string, suffix: string)
    requires suffix != "" && HasSuffix(name, suffix)
    ensures name != "" && Last(name) == Last(suffix)
  {
    assert name[|name| - |suffix|..][|suffix| - 1] == name[|name| - 1];
  }

  lemma NamesAreFit(c: Contract, repo: Repo)
    requires IsContract(c) && IsVersion(repo.version) && IsObjectId(repo.commit)
    ensures var a, m := ArchiveName(c, repo), ManifestName(c, repo);
            && IsPlainName(a) && IsPlainName(m) && IsSafeName(a)
            && a != m && a != c.sumsName && m != c.sumsName
            && HasSuffix(m, c.manifestSuffix) && !HasSuffix(a, c.manifestSuffix)
            && !HasSuffix(c.sumsName, c.manifestSuffix)
  {
    var root, a, m := Root(c, repo.version, repo.commit), ArchiveName(c, repo), ManifestName(c, repo);
    RootIsPlainPiece(c, repo.version, repo.commit);
    PlainHasNoSlash(c.archiveSuffix);
    PlainHasNoSlash(c.manifestSuffix);
    forall ch <- a ensures IsVersionChar(ch) { assert ch in root || ch in c.archiveSuffix; }
    forall ch <- m ensures IsVersionChar(ch) { assert ch in root || ch in c.manifestSuffix; }
    PlainHasNoSlash(a);
    PlainHasNoSlash(m);
    SplitOfOnePiece(a);
    assert |a| > 14;
    assert Last(a) == Last(c.archiveSuffix) && Last(m) == Last(c.manifestSuffix);
    if HasSuffix(a, c.manifestSuffix) { SuffixFixesLast(a, c.manifestSuffix); }
    if HasSuffix(c.sumsName, c.manifestSuffix) { SuffixFixesLast(c.sumsName, c.manifestSuffix); }
    assert m[|m| - |c.manifestSuffix|..] == c.manifestSuffix;
  }

  lemma PlainHasNoSlash(s: string)
    requires forall ch <- s :: IsVersionChar(ch)
    ensures '/' !in s
  {}

  lemma OnlyManifestName(c: Contract, archive: string, manifest: string, dir: Dir)
    requires dir.Keys == {archive, manifest, c.sumsName}
    requires HasSuffix(manifest, c.manifestSuffix) && !HasSuffix(archive, c.manifestSuffix)
    requires !HasSuffix(c.sumsName, c.manifestSuffix)
    ensures ManifestNames(c, dir) == {manifest}
  {}

  lemma ThreeItems(archive: string, manifest: string, sums: string, a: Item, m: Item, t: Item)
    requires archive != manifest && archive != sums && manifest != sums
    ensures var dir: Dir := map[archive := a, manifest := m, sums := t];
            dir.Keys == {archive, manifest, sums} && dir[archive] == a && dir[manifest] == m && dir[sums] == t
  {}

  lemma BuiltItems(codec: Codec, c: Contract, repo: Repo)
    requires IsContract(c) && IsBuildable(codec, c, repo)
    ensures var dir := Candidate(codec, c, repo);
            && dir.Keys == {ArchiveName(c, repo), ManifestName(c, repo), c.sumsName}
            && dir[ManifestName(c, repo)] == Item(true, codec.encode(BuiltManifest(codec, c, repo)))
            && dir[ArchiveName(c, repo)] == Item(true, Archive(codec, c, repo))
            && dir[c.sumsName] == Item(true, Encode(Sums(codec, c, repo)))
  {
    NamesAreFit(c, repo);
    ThreeItems(ArchiveName(c, repo), ManifestName(c, repo), c.sumsName, Item(true, Archive(codec, c, repo)),
               Item(true, codec.encode(BuiltManifest(codec, c, repo))), Item(true, Encode(Sums(codec, c, repo))));
  }

  lemma BuiltDirIsCandidate(codec: Codec, c: Contract, repo: Repo)
    requires IsContract(c) && IsBuildable(codec, c, repo)
    ensures var dir, name := Candidate(codec, c, repo), ManifestName(c, repo);
            IsCandidateDir(c, dir, name, BuiltManifest(codec, c, repo))
  {
    NamesAreFit(c, repo);
    BuiltItems(codec, c, repo);
    OnlyManifestName(c, ArchiveName(c, repo), ManifestName(c, repo), Candidate(codec, c, repo));
  }

  lemma BuiltManifestMeetsFields(codec: Codec, c: Contract, repo: Repo)
    requires IsContract(c) && IsBuildable(codec, c, repo)
    ensures HasContractFields(c, BuiltManifest(codec, c, repo))
    ensures IsRoot(Root(c, repo.version, repo.commit))
  {
    RootIsPlainPiece(c, repo.version, repo.commit);
  }

  // ----- the theorem -----

  /** The verifier's limits, in terms of the tree and of the sizes of what was built. */
  ghost predicate IsWithinLimits(codec: Codec, c: Contract, repo: Repo, sourceBound: bool)
    requires IsBuildable(codec, c, repo)
  {
    var entries, archive := ListTree(repo.raw).value, Archive(codec, c, repo);
    var stream := BuiltStream(codec, Root(c, repo.version, repo.commit), entries);
    && |codec.encode(BuiltManifest(codec, c, repo))| <= MAX_MANIFEST_BYTES
    && |Sums(codec, c, repo)| <= MAX_SHA256SUMS_BYTES
    && |archive| <= MAX_ARCHIVE_BYTES && |stream| <= MAX_ARCHIVE_STREAM_BYTES
    && |stream| <= |archive| * MAX_ARCHIVE_COMPRESSION_RATIO
    && HasTakenEntries(entries)
    && AreSmallFiles(entries, c.lockPaths) && AreSmallFiles(entries, SemanticPaths(c))
    && IsFileAt(entries, c.licensePath) && |BlobAt(entries, c.licensePath).value| <= MAX_LICENSE_BYTES
    && (sourceBound ==> HasBoundedBlobs(entries))
  }

  lemma BuiltContractIsMet(codec: Codec, c: Contract, repo: Repo)
    requires IsContract(c) && IsBuildable(codec, c, repo) && IsListed(ListTree(repo.raw).value)
    ensures var root, entries := Root(c, repo.version, repo.commit), ListTree(repo.raw).value;
            (MeetsContract(codec, c, BuiltManifest(codec, c, repo), BuiltStream(codec, root, entries),
                           BuiltMap(codec, root, entries))
             <==> (&& AreSmallFiles(entries, c.lockPaths) && AreSmallFiles(entries, SemanticPaths(c))
                   && IsFileAt(entries, c.licensePath)
                   && |BlobAt(entries, c.licensePath).value| <= MAX_LICENSE_BYTES))
  {
    var root, entries := Root(c, repo.version, repo.commit), ListTree(repo.raw).value;
    BuiltManifestMeetsFields(codec, c, repo);
    RecordsReadBack(codec, root, entries, c.lockPaths);
    SemanticReadsBack(codec, c, root, entries);
    ReadBack(codec, root, entries, c.licensePath, MAX_LICENSE_BYTES);
  }

  lemma BuiltSumsAreRead(codec: Codec, c: Contract, repo: Repo)
    requires IsCodec(codec) && IsContract(c) && IsBuildable(codec, c, repo)
    ensures codec.text(Encode(Sums(codec, c, repo))) == Some(Sums(codec, c, repo))
    ensures ParseSums(SplitLines(Sums(codec, c, repo)))
         == Some(map[ArchiveName(c, repo) := codec.sha(Archive(codec, c, repo)),
                     ManifestName(c, repo) := codec.sha(codec.encode(BuiltManifest(codec, c, repo)))])
    ensures |Encode(Sums(codec, c, repo))| == |Sums(codec, c, repo)|
  {
    NamesAreFit(c, repo);
    var a, m := codec.sha(Archive(codec, c, repo)), codec.sha(codec.encode(BuiltManifest(codec, c, repo)));
    var text := SumsText(SumLine(a, ArchiveName(c, repo)), SumLine(m, ManifestName(c, repo)));
    BuiltSumsParse(codec, a, ArchiveName(c, repo), m, ManifestName(c, repo));
    assert Sums(codec, c, repo) == text;
  }

  /** The checks that remain when the directory, the sums and the codecs are settled. */
  ghost predicate PassesRest(codec: Codec, c: Contract, m: Manifest, archive: Bytes, sums: Bytes, stream: Bytes,
                             members: seq<Member>, repo: Option<Repo>)
  {
    && |archive| <= MAX_ARCHIVE_BYTES && |sums| <= MAX_SHA256SUMS_BYTES
    && |stream| <= MAX_ARCHIVE_STREAM_BYTES && |stream| <= |archive| * MAX_ARCHIVE_COMPRESSION_RATIO
    && AreMembers(codec, m, archive, members)
    && MeetsContract(codec, c, m, stream, MemberMap(members))
    && (repo.Some? ==> MatchesTree(m, stream, MemberMap(members), repo.value))
  }

  lemma RemainingChecks(codec: Codec, c: Contract, dir: Dir, repo: Option<Repo>, name: string, m: Manifest,
                        stream: Bytes, members: seq<Member>)
    requires IsCandidateDir(c, dir, name, m) && m.license == c.license && m.distribution == c.distribution
    requires codec.text(dir[c.sumsName].data).Some?
    requires ParseSums(SplitLines(codec.text(dir[c.sumsName].data).value))
          == Some(map[m.archivePath := codec.sha(dir[m.archivePath].data), name := codec.sha(dir[name].data)])
    requires codec.gunzip(dir[m.archivePath].data) == Some(stream) && codec.untar(stream) == members
    requires forall p <- c.retiredPaths :: m.prefix + p !in MemberMap(members)
    ensures AcceptsManifest(codec, c, dir, repo, name, m)
       <==> PassesRest(codec, c, m, dir[m.archivePath].data, dir[c.sumsName].data, stream, members, repo)
  {}

  /** The built archive unpacks to the built stream and members. */
  lemma BuiltArchiveIsRead(codec: Codec, c: Contract, repo: Repo)
    requires IsCodec(codec) && IsContract(c) && IsBuildable(codec, c, repo)
    requires HasGitPaths(ListTree(repo.raw).value)
    ensures var root, entries := Root(c, repo.version, repo.commit), ListTree(repo.raw).value;
            && codec.gunzip(Archive(codec, c, repo)) == Some(BuiltStream(codec, root, entries))
            && codec.untar(BuiltStream(codec, root, entries)) == BuiltMembers(codec, root, entries)
            && HasZeroGzipTime(Archive(codec, c, repo))
  {
    RootIsPlainPiece(c, repo.version, repo.commit);
  }

  /** On what was built, the remaining checks are the limits. */
  lemma RestIsLimits(codec: Codec, c: Contract, repo: Repo, sourceBound: bool)
    requires IsContract(c) && IsBuildable(codec, c, repo) && IsListed(ListTree(repo.raw).value)
    requires HasZeroGzipTime(Archive(codec, c, repo))
    requires |codec.encode(BuiltManifest(codec, c, repo))| <= MAX_MANIFEST_BYTES
    ensures var root, entries := Root(c, repo.version, repo.commit), ListTree(repo.raw).value;
            (PassesRest(codec, c, BuiltManifest(codec, c, repo), Archive(codec, c, repo), Encode(Sums(codec, c, repo)),
                        BuiltStream(codec, root, entries), BuiltMembers(codec, root, entries),
                        if sourceBound then Some(repo) else None)
             <==> IsWithinLimits(codec, c, repo, sourceBound))
  {
    var root, entries, archive := Root(c, repo.version, repo.commit), ListTree(repo.raw).value, Archive(codec, c, repo);
    var m, stream := BuiltManifest(codec, c, repo), BuiltStream(codec, root, entries);
    BuiltManifestMeetsFields(codec, c, repo);
    if |stream| <= MAX_ARCHIVE_STREAM_BYTES && |stream| <= |archive| * MAX_ARCHIVE_COMPRESSION_RATIO {
      BuiltMembersAccepted(codec, m, archive, root, entries);
    }
    BuiltContractIsMet(codec, c, repo);
    BuiltTreeMatches(codec, m, root, entries, repo);
  }

  lemma BuiltManifestAccepted(codec: Codec, c: Contract, repo: Repo, sourceBound: bool)
    requires IsCodec(codec) && IsContract(c) && IsBuildable(codec, c, repo) && IsListed(ListTree(repo.raw).value)
    requires HasGitPaths(ListTree(repo.raw).value)
    requires |codec.encode(BuiltManifest(codec, c, repo))| <= MAX_MANIFEST_BYTES
    ensures AcceptsManifest(codec, c, Candidate(codec, c, repo), if sourceBound then Some(repo) else None,
                            ManifestName(c, repo), BuiltManifest(codec, c, repo))
       <==> IsWithinLimits(codec, c, repo, sourceBound)
  {
    var root, entries := Root(c, repo.version, repo.commit), ListTree(repo.raw).value;
    var m := BuiltManifest(codec, c, repo);
    BuiltDirIsCandidate(codec, c, repo);
    BuiltItems(codec, c, repo);
    BuiltSumsAreRead(codec, c, repo);
    BuiltArchiveIsRead(codec, c, repo);
    forall p <- c.retiredPaths ensures m.prefix + p !in BuiltMap(codec, root, entries) {
      RetiredStayAway(codec, c, root, entries, p);
    }
    RemainingChecks(codec, c, Candidate(codec, c, repo), if sourceBound then Some(repo) else None,
                    ManifestName(c, repo), m, BuiltStream(codec, root, entries), BuiltMembers(codec, root, entries));
    RestIsLimits(codec, c, repo, sourceBound);
  }

  /** The verifier accepts a built candidate, with or without the repository, exactly within its limits. */
  lemma VerifierAcceptsWhatIsBuilt(codec: Codec, c: Contract, repo: Repo, sourceBound: bool)
    requires IsCodec(codec) && IsContract(c) && IsBuildable(codec, c, repo)
    requires HasUniquePaths(ListTree(repo.raw).value) && HasGitPaths(ListTree(repo.raw).value)
    ensures Accepts(codec, c, Candidate(codec, c, repo), if sourceBound then Some(repo) else None)
       <==> IsWithinLimits(codec, c, repo, sourceBound)
  {
    var dir, name := Candidate(codec, c, repo), ManifestName(c, repo);
    ListedTreeIsSorted(repo.raw);
    BuiltDirIsCandidate(codec, c, repo);
    BuiltItems(codec, c, repo);
    AcceptsOnlyManifest(codec, c, dir, if sourceBound then Some(repo) else None, name);
    if |codec.encode(BuiltManifest(codec, c, repo))| <= MAX_MANIFEST_BYTES {
      BuiltManifestAccepted(codec, c, repo, sourceBound);
    }
  }

  lemma LinkIsNoFile(entries: seq<TreeEntry>, i: nat)
    requires HasUniquePaths(entries) && i < |entries| && entries[i].mode == Link
    ensures !IsFileAt(entries, entries[i].path)
  {}

  lemma NoFileNoLimits(codec: Codec, c: Contract, repo: Repo, sourceBound: bool, k: nat)
    requires IsBuildable(codec, c, repo) && k < |c.lockPaths|
    requires !IsFileAt(ListTree(repo.raw).value, c.lockPaths[k])
    ensures !IsWithinLimits(codec, c, repo, sourceBound)
  {
    assert !IsSmallFileAt(ListTree(repo.raw).value, c.lockPaths[k]);
  }

  /** One of the limits that the builder does not check: a lock that is a symbolic link. */
  lemma LinkedLockIsRefused(codec: Codec, c: Contract, repo: Repo, sourceBound: bool, i: nat, k: nat)
    requires IsCodec(codec) && IsContract(c) && IsBuildable(codec, c, repo)
    requires HasUniquePaths(ListTree(repo.raw).value) && HasGitPaths(ListTree(repo.raw).value)
    requires i < |ListTree(repo.raw).value| && k < |c.lockPaths|
    requires var e := ListTree(repo.raw).value[i];
             e.mode == Link && e.path == c.lockPaths[k]
    ensures !Accepts(codec, c, Candidate(codec, c, repo), if sourceBound then Some(repo) else None)
  {
    ListedTreeIsSorted(repo.raw);
    LinkIsNoFile(ListTree(repo.raw).value, i);
    NoFileNoLimits(codec, c, repo, sourceBound, k);
    VerifierAcceptsWhatIsBuilt(codec, c, repo, sourceBound);
  }
}
