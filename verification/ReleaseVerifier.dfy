/**
 The release-candidate verifier (scripts/release/verify_release_candidate.py): each check as a
 predicate on the candidate, and the procedures that decide it.
 */
module ReleaseVerifier {
  import opened Wrappers
  import opened Ordering
  import opened Paths
  import opened ReleaseModel

  // ----- SHA256SUMS -----

  /** The line boundaries of `str.splitlines`. */
  predicate IsLineBreak(c: char) {
    var k := c as int;
    10 <= k <= 13 || 28 <= k <= 30 || k == 0x85 || k == 0x2028 || k == 0x2029
  }

  /** `str.splitlines`; a carriage return and newline count once. */
  function SplitLines(s: string): seq<string> {
    if s == "" then []
    else if |s| >= 2 && s[0] == '\r' && s[1] == '\n' then [""] + SplitLines(s[2..])
    else if IsLineBreak(s[0]) then [""] + SplitLines(s[1..])
    else
      var rest := SplitLines(s[1..]);
      if rest == [] then [[s[0]]] else [[s[0]] + rest[0]] + rest[1..]
  }

  /** Sixty-four hex digits, two spaces and a name without slash. */
  predicate IsSumLine(line: string) {
    |line| > 66 && IsHex(line[..64]) && line[64] == ' ' && line[65] == ' ' && '/' !in line[66..]
  }

  /** The digest of each named file, or `None` for a malformed or repeated line. */
  function ParseSums(lines: seq<string>): Option<map<string, string>> {
    if lines == [] then Some(map[])
    else
      match ParseSums(lines[..|lines| - 1])
      case None => None
      case Some(sums) =>
        var line := lines[|lines| - 1];
        if !IsSumLine(line) || line[66..] in sums then None else Some(sums[line[66..] := line[..64]])
  }

  /** The file is small enough and its text, if it is UTF-8, lists exactly the expected digests. */
  predicate AreSums(codec: Codec, data: Bytes, expected: map<string, string>) {
    && |data| <= MAX_SHA256SUMS_BYTES
    && codec.text(data).Some? && ParseSums(SplitLines(codec.text(data).value)) == Some(expected)
  }

  method VerifySums(codec: Codec, data: Bytes, expected: map<string, string>) returns (ok: bool)
    ensures ok <==> AreSums(codec, data, expected)
  {
    if |data| > MAX_SHA256SUMS_BYTES || codec.text(data).None? { return false; }
    var lines := SplitLines(codec.text(data).value);
    var observed: map<string, string> := map[];
    for i := 0 to |lines|
      invariant ParseSums(lines[..i]) == Some(observed)
    {
      assert lines[..i + 1][..i] == lines[..i];
      if !IsSumLine(lines[i]) || lines[i][66..] in observed {
        UnparsedPrefix(lines, i + 1);
        return false;
      }
      observed := observed[lines[i][66..] := lines[i][..64]];
    }
    assert lines[..|lines|] == lines;
    ok := observed == expected;
  }

  lemma {:induction false} UnparsedPrefix(lines: seq<string>, n: nat)
    requires n <= |lines| && ParseSums(lines[..n]).None?
    ensures ParseSums(lines).None?
    decreases |lines| - n
  {
    if n < |lines| {
      assert lines[..n + 1][..n] == lines[..n];
      UnparsedPrefix(lines, n + 1);
    } else {
      assert lines[..n] == lines;
    }
  }

  // ----- the archive's members -----

  predicate IsPrefix(prefix: string) {
    |prefix| > 0 && prefix[|prefix| - 1] == '/' && IsSafeName(prefix[..|prefix| - 1])
  }

  function RootName(prefix: string): string
    requires IsPrefix(prefix)
  {
    prefix[..|prefix| - 1]
  }

  /** What follows the prefix in a name. */
  function Below(prefix: string, name: string): string {
    if |name| >= |prefix| then name[|prefix|..] else ""
  }

  ghost predicate IsValidMember(m: Member, prefix: string)
    requires IsPrefix(prefix)
  {
    && IsSafeName(m.name)
    && (m.name == RootName(prefix) || prefix <= m.name)
    && m.uid == 0 && m.gid == 0 && m.mtime == 0
    && m.kind != OtherKind
    && (m.kind == Symlink ==> IsSafeLink(Below(prefix, m.name), m.linkname))
  }

  predicate HasFittingSize(m: Member) {
    && 0 <= m.offset && 0 <= m.dataOffset && m.dataOffset + Padded(m.size) <= MAX_ARCHIVE_STREAM_BYTES
    && (m.kind == File ==> 0 <= m.size <= MAX_ARCHIVE_MEMBER_BYTES)
  }

  ghost predicate IsTakenMember(m: Member, prefix: string)
    requires IsPrefix(prefix)
  {
    IsValidMember(m, prefix) && HasFittingSize(m)
  }

  function TotalSize(members: seq<Member>): int {
    if members == [] then 0
    else
      var last := members[|members| - 1];
      TotalSize(members[..|members| - 1]) + (if last.kind == File then last.size else 0)
  }

  ghost predicate HasDistinctNames(members: seq<Member>) {
    forall i, j :: 0 <= i < j < |members| ==> members[i].name != members[j].name
  }

  function MemberMap(members: seq<Member>): map<string, Member> {
    if members == [] then map[]
    else var last := members[|members| - 1]; MemberMap(members[..|members| - 1])[last.name := last]
  }

  lemma {:induction false} MemberMapKeys(members: seq<Member>)
    requires HasDistinctNames(members)
    ensures |MemberMap(members)| == |members|
    ensures forall name :: name in MemberMap(members) <==> name in Names(members)
  {
    if members != [] {
      var front, last := members[..|members| - 1], members[|members| - 1];
      MemberMapKeys(front);
      assert Names(members) == Names(front) + [last.name];
      assert last.name !in Names(front);
    }
  }

  lemma {:induction false} MemberMapLookup(members: seq<Member>, i: nat)
    requires HasDistinctNames(members) && i < |members|
    ensures members[i].name in MemberMap(members) && MemberMap(members)[members[i].name] == members[i]
    decreases members
  {
    var front := members[..|members| - 1];
    if i < |front| { MemberMapLookup(front, i); }
  }

  function Names(members: seq<Member>): seq<string> {
    seq(|members|, i requires 0 <= i < |members| => members[i].name)
  }

  function Without(names: seq<string>, name: string): seq<string> {
    if names == [] then [] else (if names[0] == name then [] else [names[0]]) + Without(names[1..], name)
  }

  /** Names below the prefix in ascending order of their bytes. */
  function ByBelow(prefix: string): (string, string) -> bool {
    (a: string, b: string) => LexLe(Below(prefix, a), Below(prefix, b))
  }

  predicate IsCanonicalOrder(prefix: string, names: seq<string>)
    requires IsPrefix(prefix)
  {
    names == [RootName(prefix)] + Sort(Without(names, RootName(prefix)), ByBelow(prefix))
  }

  /** The first eight bytes of the file, of which bytes 4 to 7 hold the gzip time stamp. */
  predicate HasZeroGzipTime(archive: Bytes) {
    |archive| >= 8 && archive[4] == 0 && archive[5] == 0 && archive[6] == 0 && archive[7] == 0
  }

  predicate IsArchiveHeader(codec: Codec, m: Manifest, archive: Bytes) {
    && 0 <= m.trackedCount && m.trackedCount + 1 <= MAX_ARCHIVE_MEMBERS
    && codec.sha(archive) == m.archiveSha && |archive| == m.archiveBytes
    && IsPrefix(m.prefix) && HasZeroGzipTime(archive)
  }

  ghost predicate AreMembers(codec: Codec, m: Manifest, archive: Bytes, members: seq<Member>) {
    && IsArchiveHeader(codec, m, archive)
    && HasDistinctNames(members) && |members| == m.trackedCount + 1
    && (forall x <- members :: IsTakenMember(x, m.prefix))
    && TotalSize(members) <= MAX_ARCHIVE_TOTAL_BYTES
    && TotalSize(members) <= |archive| * MAX_ARCHIVE_COMPRESSION_RATIO
    && IsCanonicalOrder(m.prefix, Names(members))
  }

  method ValidateMember(m: Member, prefix: string) returns (ok: bool)
    requires IsPrefix(prefix)
    ensures ok <==> IsValidMember(m, prefix)
  {
    if !IsSafeName(m.name) { return false; }
    if m.name != RootName(prefix) && !(prefix <= m.name) { return false; }
    if m.uid != 0 || m.gid != 0 || m.mtime != 0 { return false; }
    if m.kind == OtherKind { return false; }
    if m.kind == Symlink {
      ok := SafeSymlinkTarget(Below(prefix, m.name), m.linkname);
      return;
    }
    ok := true;
  }

  lemma {:induction false} TotalSizeGrows(members: seq<Member>, n: nat)
    requires n <= |members| && forall x <- members :: HasFittingSize(x)
    ensures TotalSize(members[..n]) <= TotalSize(members)
    decreases |members|
  {
    if n == |members| {
      assert members[..n] == members;
    } else {
      assert members[..|members| - 1][..n] == members[..n];
      assert members[|members| - 1] in members;
      TotalSizeGrows(members[..|members| - 1], n);
    }
  }

  /** What the loop over the members checks of those it has read. */
  ghost predicate AreAdmissible(prefix: string, members: seq<Member>)
    requires IsPrefix(prefix)
  {
    && HasDistinctNames(members)
    && (forall x <- members :: IsTakenMember(x, prefix))
    && TotalSize(members) <= MAX_ARCHIVE_TOTAL_BYTES
  }

  lemma AdmissiblePrefix(prefix: string, members: seq<Member>, n: nat)
    requires IsPrefix(prefix) && n <= |members| && AreAdmissible(prefix, members)
    ensures AreAdmissible(prefix, members[..n])
  {
    TotalSizeGrows(members, n);
  }

  lemma AppendMember(members: seq<Member>, m: Member)
    ensures TotalSize(members + [m]) == TotalSize(members) + (if m.kind == File then m.size else 0)
    ensures MemberMap(members + [m]) == MemberMap(members)[m.name := m]
    ensures Names(members + [m]) == Names(members) + [m.name]
  {
    var all := members + [m];
    assert all[..|members|] == members && all[|members|] == m;
  }

  lemma AppendDistinct(members: seq<Member>, m: Member)
    requires HasDistinctNames(members)
    ensures HasDistinctNames(members + [m]) <==> m.name !in MemberMap(members)
    ensures |MemberMap(members)| == |members|
  {
    var all := members + [m];
    MemberMapKeys(members);
    if m.name in Names(members) {
      var i :| 0 <= i < |members| && Names(members)[i] == m.name;
      assert all[i].name == all[|members|].name;
    } else {
      forall i, j | 0 <= i < j < |all| ensures all[i].name != all[j].name {
        assert all[i].name == Names(members)[i];
      }
    }
  }

  lemma OneMoreMember(prefix: string, members: seq<Member>, m: Member)
    requires IsPrefix(prefix) && AreAdmissible(prefix, members)
    ensures AreAdmissible(prefix, members + [m]) <==>
              && m.name !in MemberMap(members) && IsValidMember(m, prefix) && HasFittingSize(m)
              && TotalSize(members) + (if m.kind == File then m.size else 0) <= MAX_ARCHIVE_TOTAL_BYTES
  {
    AppendMember(members, m);
    AppendDistinct(members, m);
    TakenOneMore(prefix, members, m);
  }

  lemma TakenOneMore(prefix: string, members: seq<Member>, m: Member)
    requires IsPrefix(prefix)
    ensures (forall x <- members + [m] :: IsTakenMember(x, prefix))
       <==> (forall x <- members :: IsTakenMember(x, prefix)) && IsTakenMember(m, prefix)
  {
    assert forall x :: x in members + [m] <==> x in members || x == m;
  }

  /** The loop's accounts after one more member of the stream. */
  lemma AccountedOneMore(prefix: string, stream: seq<Member>, i: nat)
    requires IsPrefix(prefix) && i < |stream| && AreAdmissible(prefix, stream[..i])
    ensures var x, before, after := stream[i], stream[..i], stream[..i + 1];
            && (AreAdmissible(prefix, after) <==>
                  && x.name !in MemberMap(before) && IsValidMember(x, prefix) && HasFittingSize(x)
                  && TotalSize(after) <= MAX_ARCHIVE_TOTAL_BYTES)
            && TotalSize(after) == TotalSize(before) + (if x.kind == File then x.size else 0)
            && MemberMap(after) == MemberMap(before)[x.name := x] && Names(after) == Names(before) + [x.name]
            && |MemberMap(before)| == i
  {
    assert stream[..i + 1] == stream[..i] + [stream[i]];
    OneMoreMember(prefix, stream[..i], stream[i]);
    AppendMember(stream[..i], stream[i]);
    MemberMapKeys(stream[..i]);
  }

  /** Reads the members in stream order; the result maps names to members. */
  method ArchiveMembers(codec: Codec, m: Manifest, archive: Bytes, stream: seq<Member>)
      returns (members: Option<map<string, Member>>)
    ensures members.Some? <==> AreMembers(codec, m, archive, stream)
    ensures members.Some? ==> members.value == MemberMap(stream)
  {
    if !IsArchiveHeader(codec, m, archive) { return None; }
    var seen: map<string, Member> := map[];
    var order: seq<string> := [];
    var total := 0;
    for i := 0 to |stream|
      invariant AreAdmissible(m.prefix, stream[..i]) && i <= MAX_ARCHIVE_MEMBERS
      invariant seen == MemberMap(stream[..i]) && order == Names(stream[..i]) && total == TotalSize(stream[..i])
    {
      var x := stream[i];
      AccountedOneMore(m.prefix, stream, i);
      if |seen| >= MAX_ARCHIVE_MEMBERS { return None; }
      var valid := ValidateMember(x, m.prefix);
      total := total + (if x.kind == File then x.size else 0);
      if x.name in seen || !valid || !HasFittingSize(x) || total > MAX_ARCHIVE_TOTAL_BYTES {
        if AreAdmissible(m.prefix, stream) { AdmissiblePrefix(m.prefix, stream, i + 1); }
        return None;
      }
      order := order + [x.name];
      seen := seen[x.name := x];
    }
    assert stream[..|stream|] == stream;
    MemberMapKeys(stream);
    if total > |archive| * MAX_ARCHIVE_COMPRESSION_RATIO { return None; }
    if |seen| != m.trackedCount + 1 { return None; }
    if !IsCanonicalOrder(m.prefix, order) { return None; }
    members := Some(seen);
  }

  // ----- members that the manifest describes -----

  function ReadMember(stream: Bytes, members: map<string, Member>, name: string, maxBytes: int): Option<Bytes> {
    if name !in members || members[name].kind != File || members[name].size > maxBytes then None
    else
      var content := ReadAt(stream, members[name].dataOffset, members[name].size);
      if |content| != members[name].size then None else Some(content)
  }

  /** The archive holds a regular file of the recorded size and digest. */
  predicate HoldsRecord(codec: Codec, stream: Bytes, members: map<string, Member>, prefix: string, r: HashRecord) {
    && 0 <= r.bytes <= MAX_ARCHIVE_MEMBER_BYTES
    && var content := ReadMember(stream, members, prefix + r.path, r.bytes);
       content.Some? && |content.value| == r.bytes && codec.sha(content.value) == r.sha
  }

  ghost predicate HoldsRecords(codec: Codec, stream: Bytes, members: map<string, Member>, prefix: string,
                               rs: seq<HashRecord>, paths: seq<string>) {
    |rs| == |paths|
    && forall i :: 0 <= i < |rs| ==> rs[i].path == paths[i] && HoldsRecord(codec, stream, members, prefix, rs[i])
  }

  method VerifyDependencyLocks(codec: Codec, stream: Bytes, members: map<string, Member>, prefix: string,
                               rs: seq<HashRecord>, paths: seq<string>) returns (ok: bool)
    ensures ok <==> HoldsRecords(codec, stream, members, prefix, rs, paths)
  {
    if |rs| != |paths| { return false; }
    var observed: seq<string> := [];
    for i := 0 to |rs|
      invariant |observed| == i && forall j :: 0 <= j < i ==> observed[j] == rs[j].path
      invariant forall j :: 0 <= j < i ==> HoldsRecord(codec, stream, members, prefix, rs[j])
    {
      observed := observed + [rs[i].path];
      if !HoldsRecord(codec, stream, members, prefix, rs[i]) { return false; }
    }
    ok := observed == paths;
    assert ok <==> forall i :: 0 <= i < |rs| ==> observed[i] == paths[i];
  }

  predicate HoldsSemantic(codec: Codec, c: Contract, stream: Bytes, members: map<string, Member>, prefix: string,
                          s: Semantic) {
    && s.status == c.semanticStatus && !s.enabled && s.policy == c.semanticPolicy
    && s.platform.path == c.platformPath && HoldsRecord(codec, stream, members, prefix, s.platform)
    && |s.targets| == 1 && s.targets[0].id == c.semanticTarget
    && s.targets[0].input.path == c.inputPath && HoldsRecord(codec, stream, members, prefix, s.targets[0].input)
    && s.targets[0].constraints.path == c.constraintsPath
    && HoldsRecord(codec, stream, members, prefix, s.targets[0].constraints)
    && s.targets[0].lock.path == c.semanticLockPath && HoldsRecord(codec, stream, members, prefix, s.targets[0].lock)
  }

  predicate HasContractFields(c: Contract, m: Manifest) {
    && m.schema == c.schema && m.project == c.project && m.repository == c.repository
    && IsVersion(m.releaseVersion) && IsObjectId(m.commit) && IsObjectId(m.tree)
    && !m.dirty && m.timestamp == 0
    && m.candidateId == CandidateId(m.releaseVersion, m.commit)
    && m.prefix == Root(c, m.releaseVersion, m.commit) + "/"
    && m.archivePath == Root(c, m.releaseVersion, m.commit) + c.archiveSuffix
    && m.format == c.format && m.normalization == Normalization(0, 0, 0, 0, c.pathOrder)
    && forall claim <- c.nonclaims :: claim in m.nonclaims
  }

  ghost predicate MeetsContract(codec: Codec, c: Contract, m: Manifest, stream: Bytes, members: map<string, Member>) {
    && HasContractFields(c, m)
    && HoldsRecords(codec, stream, members, m.prefix, m.locks, c.lockPaths)
    && (var license := ReadMember(stream, members, m.prefix + c.licensePath, MAX_LICENSE_BYTES);
        license.Some? && codec.isLicense(license.value))
    && HoldsSemantic(codec, c, stream, members, m.prefix, m.semantic)
  }

  // ----- comparison with the repository -----

  function BlobTotal(entries: seq<TreeEntry>): nat {
    if entries == [] then 0 else BlobTotal(entries[..|entries| - 1]) + |entries[|entries| - 1].blob|
  }

  ghost predicate HasBoundedBlobs(entries: seq<TreeEntry>) {
    && (forall e <- entries :: |e.blob| <= MAX_ARCHIVE_MEMBER_BYTES)
    && BlobTotal(entries) <= MAX_ARCHIVE_TOTAL_BYTES
  }

  lemma {:induction false} BlobTotalGrows(entries: seq<TreeEntry>, n: nat)
    requires n <= |entries|
    ensures BlobTotal(entries[..n]) <= BlobTotal(entries)
    decreases |entries|
  {
    if n == |entries| {
      assert entries[..n] == entries;
    } else {
      assert entries[..|entries| - 1][..n] == entries[..n];
      BlobTotalGrows(entries[..|entries| - 1], n);
    }
  }

  method CheckBlobSizes(entries: seq<TreeEntry>) returns (ok: bool)
    ensures ok <==> HasBoundedBlobs(entries)
  {
    var total := 0;
    for i := 0 to |entries|
      invariant total == BlobTotal(entries[..i]) <= MAX_ARCHIVE_TOTAL_BYTES
      invariant forall e <- entries[..i] :: |e.blob| <= MAX_ARCHIVE_MEMBER_BYTES
    {
      assert entries[..i + 1][..i] == entries[..i];
      if |entries[i].blob| > MAX_ARCHIVE_MEMBER_BYTES { return false; }
      total := total + |entries[i].blob|;
      if total > MAX_ARCHIVE_TOTAL_BYTES {
        BlobTotalGrows(entries, i + 1);
        return false;
      }
    }
    assert entries[..|entries|] == entries;
    ok := true;
  }

  /** The member has the entry's type, permissions and bytes, or for a link its target. */
  predicate MatchesEntry(stream: Bytes, m: Member, e: TreeEntry) {
    if e.mode == Link then m.kind == Symlink && m.linkname == Text(e.blob)
    else
      && m.kind == File && m.mode == (if e.mode == Executable then 0x1ED else 0x1A4)
      && m.size == |e.blob| && ReadAt(stream, m.dataOffset, m.size) == e.blob
  }

  /** The member names that the tree asks for, in its order. */
  function TreeNames(prefix: string, entries: seq<TreeEntry>): seq<string> {
    seq(|entries|, i requires 0 <= i < |entries| => prefix + entries[i].path)
  }

  /** Besides the root, the archive names exactly what the tree asks for. */
  predicate HasTreeNames(members: map<string, Member>, prefix: string, entries: seq<TreeEntry>)
    requires IsPrefix(prefix)
  {
    members.Keys - {RootName(prefix)} == (set x | x in TreeNames(prefix, entries))
  }

  ghost predicate MatchesTree(m: Manifest, stream: Bytes, members: map<string, Member>, repo: Repo)
    requires IsPrefix(m.prefix)
  {
    && m.commit == repo.commit && m.tree == repo.tree && ListTree(repo.raw).Some?
    && var entries := ListTree(repo.raw).value;
       && HasBoundedBlobs(entries)
       && HasTreeNames(members, m.prefix, entries)
       && forall e <- entries :: m.prefix + e.path in members && MatchesEntry(stream, members[m.prefix + e.path], e)
  }

  method CompareWithRepo(m: Manifest, stream: Bytes, members: map<string, Member>, repo: Repo) returns (ok: bool)
    requires IsPrefix(m.prefix)
    ensures ok <==> MatchesTree(m, stream, members, repo)
  {
    if m.commit != repo.commit || m.tree != repo.tree { return false; }
    var entries := ListTree(repo.raw);
    if entries.None? { return false; }
    var bounded := CheckBlobSizes(entries.value);
    if !bounded { return false; }
    var expected := set x | x in TreeNames(m.prefix, entries.value);
    var observed := members.Keys - {RootName(m.prefix)};
    if observed != expected { return false; }
    forall e <- entries.value ensures m.prefix + e.path in expected {
      var i :| 0 <= i < |entries.value| && entries.value[i] == e;
      assert TreeNames(m.prefix, entries.value)[i] == m.prefix + e.path;
    }
    ok := CompareEntries(m.prefix, stream, members, entries.value);
  }

  method CompareEntries(prefix: string, stream: Bytes, members: map<string, Member>, entries: seq<TreeEntry>)
      returns (ok: bool)
    requires forall e <- entries :: prefix + e.path in members
    ensures ok <==> forall e <- entries :: MatchesEntry(stream, members[prefix + e.path], e)
  {
    for i := 0 to |entries|
      invariant forall e <- entries[..i] :: MatchesEntry(stream, members[prefix + e.path], e)
    {
      if !MatchesEntry(stream, members[prefix + entries[i].path], entries[i]) { return false; }
    }
    ok := true;
  }

  // ----- the whole verification -----

  predicate HasSuffix(name: string, suffix: string) {
    |name| >= |suffix| && name[|name| - |suffix|..] == suffix
  }

  function ManifestNames(c: Contract, dir: Dir): set<string> {
    set n | n in dir && HasSuffix(n, c.manifestSuffix)
  }

  /** The directory holds one manifest, its archive and the sums, all of them regular files. */
  predicate IsCandidateDir(c: Contract, dir: Dir, manifestName: string, m: Manifest) {
    && ManifestNames(c, dir) == {manifestName}
    && m.schema == c.schema && m.kind == c.kind && m.version == c.version
    && IsSafeName(m.archivePath) && '/' !in m.archivePath
    && dir.Keys == {manifestName, m.archivePath, c.sumsName}
    && forall n <- dir :: dir[n].regular
  }

  /** What the members hold, and that they are those of the repository if there is one. */
  ghost predicate HasContent(codec: Codec, c: Contract, m: Manifest, stream: Bytes, members: map<string, Member>,
                             repo: Option<Repo>)
    requires IsPrefix(m.prefix)
  {
    && (forall p <- c.retiredPaths :: m.prefix + p !in members)
    && MeetsContract(codec, c, m, stream, members)
    && (repo.Some? ==> MatchesTree(m, stream, members, repo.value))
  }

  ghost predicate AcceptsManifest(codec: Codec, c: Contract, dir: Dir, repo: Option<Repo>, manifestName: string,
                                  m: Manifest) {
    && IsCandidateDir(c, dir, manifestName, m)
    && var archive := dir[m.archivePath].data;
       && |archive| <= MAX_ARCHIVE_BYTES
       && AreSums(codec, dir[c.sumsName].data,
                  map[m.archivePath := codec.sha(archive), manifestName := codec.sha(dir[manifestName].data)])
       && m.license == c.license && m.distribution == c.distribution
       && codec.gunzip(archive).Some?
       && var stream := codec.gunzip(archive).value;
          && |stream| <= MAX_ARCHIVE_STREAM_BYTES && |stream| <= |archive| * MAX_ARCHIVE_COMPRESSION_RATIO
          && AreMembers(codec, m, archive, codec.untar(stream))
          && HasContent(codec, c, m, stream, MemberMap(codec.untar(stream)), repo)
  }

  ghost predicate AcceptsNamed(codec: Codec, c: Contract, dir: Dir, repo: Option<Repo>, manifestName: string) {
    && manifestName in dir && ManifestNames(c, dir) == {manifestName}
    && dir[manifestName].regular && |dir[manifestName].data| <= MAX_MANIFEST_BYTES
    && codec.decode(dir[manifestName].data).Some?
    && AcceptsManifest(codec, c, dir, repo, manifestName, codec.decode(dir[manifestName].data).value)
  }

  ghost predicate Accepts(codec: Codec, c: Contract, dir: Dir, repo: Option<Repo>) {
    exists manifestName :: AcceptsNamed(codec, c, dir, repo, manifestName)
  }

  lemma AcceptsOnlyManifest(codec: Codec, c: Contract, dir: Dir, repo: Option<Repo>, name: string)
    requires ManifestNames(c, dir) == {name}
    ensures Accepts(codec, c, dir, repo) <==> AcceptsNamed(codec, c, dir, repo, name)
  {
    if other :| AcceptsNamed(codec, c, dir, repo, other) {
      assert other in ManifestNames(c, dir);
    }
  }

  method VerifyManifest(codec: Codec, c: Contract, dir: Dir, repo: Option<Repo>, manifestName: string, m: Manifest)
      returns (ok: bool)
    requires manifestName in dir
    ensures ok <==> AcceptsManifest(codec, c, dir, repo, manifestName, m)
  {
    if !IsCandidateDir(c, dir, manifestName, m) { return false; }
    var archive := dir[m.archivePath].data;
    if |archive| > MAX_ARCHIVE_BYTES { return false; }
    ok := VerifySums(codec, dir[c.sumsName].data,
                     map[m.archivePath := codec.sha(archive), manifestName := codec.sha(dir[manifestName].data)]);
    if !ok { return; }
    if m.license != c.license || m.distribution != c.distribution { return false; }
    var unzipped := codec.gunzip(archive);
    if unzipped.None? { return false; }
    var stream := unzipped.value;
    if |stream| > MAX_ARCHIVE_STREAM_BYTES || |stream| > |archive| * MAX_ARCHIVE_COMPRESSION_RATIO { return false; }
    var found := ArchiveMembers(codec, m, archive, codec.untar(stream));
    if found.None? { return false; }
    ok := VerifyContent(codec, c, m, stream, found.value, repo);
  }

  method VerifyContent(codec: Codec, c: Contract, m: Manifest, stream: Bytes, members: map<string, Member>,
                       repo: Option<Repo>) returns (ok: bool)
    requires IsPrefix(m.prefix)
    ensures ok <==> HasContent(codec, c, m, stream, members, repo)
  {
    if exists p <- c.retiredPaths :: m.prefix + p in members { return false; }
    if !HasContractFields(c, m) { return false; }
    ok := VerifyDependencyLocks(codec, stream, members, m.prefix, m.locks, c.lockPaths);
    if !ok { return; }
    var license := ReadMember(stream, members, m.prefix + c.licensePath, MAX_LICENSE_BYTES);
    if license.None? || !codec.isLicense(license.value) { return false; }
    if !HoldsSemantic(codec, c, stream, members, m.prefix, m.semantic) { return false; }
    if repo.Some? {
      ok := CompareWithRepo(m, stream, members, repo.value);
    }
  }

  method VerifyReleaseCandidate(codec: Codec, c: Contract, dir: Dir, repo: Option<Repo>) returns (ok: bool)
    ensures ok <==> Accepts(codec, c, dir, repo)
  {
    var manifests := ManifestNames(c, dir);
    if |manifests| != 1 { return false; }
    var name :| name in manifests;
    OnlyElement(manifests, name);
    AcceptsOnlyManifest(codec, c, dir, repo, name);
    ok := VerifyNamed(codec, c, dir, repo, name);
  }

  method VerifyNamed(codec: Codec, c: Contract, dir: Dir, repo: Option<Repo>, name: string) returns (ok: bool)
    requires name in dir && ManifestNames(c, dir) == {name}
    ensures ok <==> AcceptsNamed(codec, c, dir, repo, name)
  {
    if !dir[name].regular || |dir[name].data| > MAX_MANIFEST_BYTES { return false; }
    var m := codec.decode(dir[name].data);
    if m.None? { return false; }
    ok := VerifyManifest(codec, c, dir, repo, name, m.value);
  }

  lemma OnlyElement<T>(s: set<T>, x: T)
    requires |s| == 1 && x in s
    ensures s == {x}
  {
    assert |s - {x}| == 0;
  }
}
