/**
 What a release candidate consists of, and how it is built from a Git tree
 (scripts/release/build_release_candidate.py).

 A path or a text is the string of its bytes.  SHA-256, gzip, tar headers and the JSON of the
 manifest are parameters; the padding of tar members to 512-byte blocks is spelled out.
 */
module ReleaseModel {
  import opened Wrappers
  import opened Ordering
  import opened Paths

  const MAX_ARCHIVE_BYTES := 64 * 1024 * 1024
  const MAX_ARCHIVE_MEMBER_BYTES := 16 * 1024 * 1024
  const MAX_ARCHIVE_TOTAL_BYTES := 128 * 1024 * 1024
  const MAX_ARCHIVE_STREAM_BYTES := 160 * 1024 * 1024
  const MAX_ARCHIVE_COMPRESSION_RATIO := 200
  const MAX_ARCHIVE_MEMBERS := 10000
  const MAX_MANIFEST_BYTES := 1024 * 1024
  const MAX_SHA256SUMS_BYTES := 64 * 1024
  const MAX_LICENSE_BYTES := 1024 * 1024

  /** The fixed texts that builder and verifier share. */
  datatype Contract = Contract(
    kind: string, version: string, schema: string, license: string, distribution: string,
    slug: string, project: string, repository: string, format: string, pathOrder: string,
    licensePath: string, lockPaths: seq<string>, retiredPaths: seq<string>,
    semanticStatus: string, semanticPolicy: string, semanticTarget: string,
    platformPath: string, inputPath: string, constraintsPath: string, semanticLockPath: string,
    nonclaims: seq<string>, sumsName: string, manifestSuffix: string, archiveSuffix: string)

  // ----- Git trees -----

  /** One record of `git ls-tree -rz`, with the blob it names. */
  datatype RawEntry = RawEntry(mode: string, kind: string, path: string, blob: Bytes)

  datatype Mode = Regular | Executable | Link

  datatype TreeEntry = TreeEntry(mode: Mode, path: string, blob: Bytes)

  datatype Repo = Repo(commit: string, tree: string, version: string, raw: seq<RawEntry>)

  function ParseMode(mode: string): Option<Mode> {
    if mode == "100644" then Some(Regular)
    else if mode == "100755" then Some(Executable)
    else if mode == "120000" then Some(Link)
    else None
  }

  function ParseEntry(r: RawEntry): Option<TreeEntry> {
    if r.path == "" || r.path[0] == '/' || ".." in Parts(r.path) || r.kind != "blob" then None
    else
      match ParseMode(r.mode)
      case None => None
      case Some(mode) => Some(TreeEntry(mode, r.path, r.blob))
  }

  function ParseEntries(raw: seq<RawEntry>): Option<seq<TreeEntry>> {
    if raw == [] then Some([])
    else
      match (ParseEntry(raw[0]), ParseEntries(raw[1..]))
      case (Some(e), Some(rest)) => Some([e] + rest)
      case _ => None
  }

  predicate PathLe(e: TreeEntry, f: TreeEntry) { LexLe(e.path, f.path) }

  /** The entries in ascending order of path bytes, or `None` for an unsupported tree. */
  function ListTree(raw: seq<RawEntry>): Option<seq<TreeEntry>> {
    match ParseEntries(raw)
    case None => None
    case Some(entries) => Some(Sort(entries, PathLe))
  }

  /** The blob of the entry at a path, as `git show commit:path` gives it. */
  function BlobAt(entries: seq<TreeEntry>, path: string): Option<Bytes> {
    if entries == [] then None
    else if entries[0].path == path then Some(entries[0].blob)
    else BlobAt(entries[1..], path)
  }

  // ----- the archive -----

  datatype MemberKind = Directory | File | Symlink | OtherKind

  /** A tar member as the reader reports it. */
  datatype Member = Member(name: string, kind: MemberKind, mode: nat, uid: nat, gid: nat, mtime: nat,
                           linkname: string, size: int, offset: int, dataOffset: int)

  /** A member to be written: its header fields and its content. */
  datatype Source = Source(name: string, kind: MemberKind, mode: nat, linkname: string, content: Bytes)

  function Text(b: Bytes): string { seq(|b|, i requires 0 <= i < |b| => b[i] as char) }

  function EntrySource(prefix: string, e: TreeEntry): Source {
    match e.mode
    case Link => Source(prefix + e.path, Symlink, 0x1FF, Text(e.blob), [])
    case Executable => Source(prefix + e.path, File, 0x1ED, "", e.blob)
    case Regular => Source(prefix + e.path, File, 0x1A4, "", e.blob)
  }

  /** The root directory and then one member per entry. */
  function ArchiveSources(root: string, entries: seq<TreeEntry>): seq<Source> {
    [Source(root, Directory, 0x1ED, "", [])]
    + seq(|entries|, i requires 0 <= i < |entries| => EntrySource(root + "/", entries[i]))
  }

  /** The codecs that the model leaves open. */
  datatype Codec = Codec(
    sha: Bytes -> string,
    gzip: Bytes -> Bytes,
    gunzip: Bytes -> Option<Bytes>,
    header: Source -> Bytes,
    trailer: nat -> Bytes,
    untar: Bytes -> seq<Member>,
    encode: Manifest -> Bytes,
    decode: Bytes -> Option<Manifest>,
    text: Bytes -> Option<string>,      // UTF-8
    isLicense: Bytes -> bool)

  function Padded(size: int): int { ((size + 511) / 512) * 512 }

  function MemberBytes(codec: Codec, s: Source): Bytes {
    codec.header(s) + s.content + Zeros(Padded(|s.content|) - |s.content|)
  }

  function Zeros(n: int): Bytes { if n <= 0 then [] else [0] + Zeros(n - 1) }

  function StreamOf(codec: Codec, sources: seq<Source>): Bytes {
    if sources == [] then []
    else StreamOf(codec, sources[..|sources| - 1]) + MemberBytes(codec, sources[|sources| - 1])
  }

  function TarBytes(codec: Codec, sources: seq<Source>): Bytes {
    StreamOf(codec, sources) + codec.trailer(|StreamOf(codec, sources)|)
  }

  function MemberAt(codec: Codec, s: Source, offset: nat): Member {
    Member(s.name, s.kind, s.mode, 0, 0, 0, s.linkname, |s.content|, offset, offset + |codec.header(s)|)
  }

  function MembersOf(codec: Codec, sources: seq<Source>): seq<Member> {
    if sources == [] then []
    else
      var front := sources[..|sources| - 1];
      MembersOf(codec, front) + [MemberAt(codec, sources[|sources| - 1], |StreamOf(codec, front)|)]
  }

  /** What `read(size)` returns after `seek(offset)`. */
  function ReadAt(stream: Bytes, offset: int, size: int): Bytes {
    if offset < 0 || size < 0 || offset >= |stream| then []
    else if offset + size > |stream| then stream[offset..]
    else stream[offset..offset + size]
  }

  // ----- the manifest -----

  datatype HashRecord = HashRecord(path: string, bytes: int, sha: string)

  datatype SemanticTarget = SemanticTarget(id: string, input: HashRecord, constraints: HashRecord, lock: HashRecord)

  datatype Semantic = Semantic(status: string, enabled: bool, policy: string, platform: HashRecord,
                               targets: seq<SemanticTarget>)

  datatype Normalization = Normalization(uid: int, gid: int, mtime: int, gzipMtime: int, pathOrder: string)

  datatype Manifest = Manifest(
    schema: string, kind: string, version: string,
    project: string, repository: string, releaseVersion: string, candidateId: string,
    commit: string, tree: string, dirty: bool, timestamp: int,
    license: string, distribution: string,
    archivePath: string, prefix: string, format: string, archiveBytes: int, archiveSha: string,
    trackedCount: int, normalization: Normalization,
    locks: seq<HashRecord>, semantic: Semantic, nonclaims: seq<string>)

  /** A directory item: whether it is a regular file, and its content. */
  datatype Item = Item(regular: bool, data: Bytes)

  type Dir = map<string, Item>

  // ----- names -----

  predicate IsHex(s: string) { forall c <- s :: '0' <= c <= '9' || 'a' <= c <= 'f' }

  predicate IsObjectId(s: string) { |s| == 40 && IsHex(s) }

  predicate IsVersionChar(c: char) {
    '0' <= c <= '9' || 'A' <= c <= 'Z' || 'a' <= c <= 'z' || c == '.' || c == '-'
  }

  /** A digit run followed by a dot; `rest` is what comes after the dot. */
  function AfterNumberDot(s: string): Option<string> {
    var n := DigitRun(s);
    if 0 < n < |s| && s[n] == '.' then Some(s[n + 1..]) else None
  }

  function DigitRun(s: string): (n: nat)
    ensures n <= |s|
  {
    if s != "" && '0' <= s[0] <= '9' then 1 + DigitRun(s[1..]) else 0
  }

  /** Three numbers, and perhaps a hyphen with a nonempty suffix. */
  predicate IsVersion(s: string) {
    match AfterNumberDot(s)
    case None => false
    case Some(t) =>
      match AfterNumberDot(t)
      case None => false
      case Some(u) =>
        var n := DigitRun(u);
        && n > 0
        && (n == |u| || (u[n] == '-' && n + 1 < |u| && forall c <- u[n + 1..] :: IsVersionChar(c)))
  }

  function CandidateId(version: string, commit: string): string
    requires IsObjectId(commit)
  {
    version + "-g" + commit[..12]
  }

  function Root(c: Contract, version: string, commit: string): string
    requires IsObjectId(commit)
  {
    c.slug + "-" + CandidateId(version, commit)
  }

  /** The line of a file in SHA256SUMS. */
  function SumLine(sha: string, name: string): string { sha + "  " + name }

  // ----- building -----

  function HashedPath(codec: Codec, entries: seq<TreeEntry>, path: string): Option<HashRecord> {
    match BlobAt(entries, path)
    case None => None
    case Some(data) => Some(HashRecord(path, |data|, codec.sha(data)))
  }

  function HashedPaths(codec: Codec, entries: seq<TreeEntry>, paths: seq<string>): Option<seq<HashRecord>> {
    if paths == [] then Some([])
    else
      match (HashedPath(codec, entries, paths[0]), HashedPaths(codec, entries, paths[1..]))
      case (Some(r), Some(rest)) => Some([r] + rest)
      case _ => None
  }

  function SemanticRecord(codec: Codec, c: Contract, entries: seq<TreeEntry>): Option<Semantic> {
    match HashedPaths(codec, entries, [c.platformPath, c.inputPath, c.constraintsPath, c.semanticLockPath])
    case None => None
    case Some(rs) =>
      if |rs| != 4 then None
      else Some(Semantic(c.semanticStatus, false, c.semanticPolicy, rs[0],
                         [SemanticTarget(c.semanticTarget, rs[1], rs[2], rs[3])]))
  }

  function Encode(s: string): Bytes {
    seq(|s|, i requires 0 <= i < |s| => if s[i] < 256 as char then s[i] as int else 63)
  }

  ghost predicate HasSafeLinks(entries: seq<TreeEntry>) {
    forall e <- entries :: e.mode == Link ==> IsSafeLink(e.path, Text(e.blob))
  }

  function BuildManifest(c: Contract, repo: Repo, archiveBytes: nat, archiveSha: string, tracked: nat,
                         locks: seq<HashRecord>, semantic: Semantic): Manifest
    requires IsObjectId(repo.commit)
  {
    var root := Root(c, repo.version, repo.commit);
    Manifest(c.schema, c.kind, c.version, c.project, c.repository, repo.version, CandidateId(repo.version, repo.commit),
             repo.commit, repo.tree, false, 0, c.license, c.distribution,
             root + c.archiveSuffix, root + "/", c.format, archiveBytes, archiveSha, tracked,
             Normalization(0, 0, 0, 0, c.pathOrder), locks, semantic, c.nonclaims)
  }

  predicate HasRetiredPath(c: Contract, entries: seq<TreeEntry>) {
    exists e <- entries :: e.path in c.retiredPaths
  }

  /** The tree can be built at all: the checks of `build_release_candidate` before it writes. */
  ghost predicate IsBuildable(codec: Codec, c: Contract, repo: Repo) {
    && IsObjectId(repo.commit) && IsObjectId(repo.tree) && IsVersion(repo.version)
    && ListTree(repo.raw).Some?
    && var entries := ListTree(repo.raw).value;
       && BlobAt(entries, c.licensePath).Some? && codec.isLicense(BlobAt(entries, c.licensePath).value)
       && !HasRetiredPath(c, entries) && HasSafeLinks(entries)
       && HashedPaths(codec, entries, c.lockPaths).Some? && SemanticRecord(codec, c, entries).Some?
  }

  function SumsText(line: string, other: string): string {
    var lines := Sort([line, other], LexLe);
    if |lines| == 2 then lines[0] + "\n" + lines[1] + "\n" else ""
  }

  /** The stream of the root and the first entries, with one entry more. */
  lemma StreamOneMore(codec: Codec, root: string, entries: seq<TreeEntry>, i: nat)
    requires i < |entries|
    ensures StreamOf(codec, ArchiveSources(root, entries)[..i + 2])
         == StreamOf(codec, ArchiveSources(root, entries)[..i + 1])
            + MemberBytes(codec, EntrySource(root + "/", entries[i]))
  {
    var all := ArchiveSources(root, entries);
    assert all[..i + 2][..i + 1] == all[..i + 1] && all[i + 1] == EntrySource(root + "/", entries[i]);
  }

  /** The tar archive, or `None` if a link is unsafe. */
  method BuildTar(codec: Codec, root: string, entries: seq<TreeEntry>) returns (tar: Option<Bytes>)
    ensures tar.Some? <==> HasSafeLinks(entries)
    ensures tar.Some? ==> tar.value == TarBytes(codec, ArchiveSources(root, entries))
  {
    ghost var all := ArchiveSources(root, entries);
    var stream := MemberBytes(codec, Source(root, Directory, 0x1ED, "", []));
    assert all[..1] == [all[0]] && all[..1][..0] == [];
    assert StreamOf(codec, all[..0]) == [] && [] + stream == stream;
    for i := 0 to |entries|
      invariant HasSafeLinks(entries[..i])
      invariant stream == StreamOf(codec, all[..i + 1])
    {
      var e := entries[i];
      assert entries[..i + 1] == entries[..i] + [e];
      if e.mode == Link {
        var safe := SafeSymlinkTarget(e.path, Text(e.blob));
        if !safe {
          assert e in entries;
          return None;
        }
      }
      StreamOneMore(codec, root, entries, i);
      stream := stream + MemberBytes(codec, EntrySource(root + "/", e));
    }
    assert all[..|entries| + 1] == all && entries[..|entries|] == entries;
    tar := Some(stream + codec.trailer(|stream|));
  }

  /** `clean` and `outside` answer for the working tree and for where `out` is; `out` must be empty. */
  method BuildReleaseCandidate(codec: Codec, c: Contract, repo: Repo, clean: bool, outside: bool, out: Dir)
      returns (dir: Option<Dir>)
    ensures dir.Some? <==> clean && outside && out == map[] && IsBuildable(codec, c, repo)
    ensures dir.Some? ==> dir.value == Candidate(codec, c, repo)
  {
    if !clean || !outside || out != map[] { return None; }
    if !(IsObjectId(repo.commit) && IsObjectId(repo.tree) && IsVersion(repo.version)) { return None; }
    var entries := ListTree(repo.raw);
    if entries.None? || HasRetiredPath(c, entries.value) { return None; }
    var license := BlobAt(entries.value, c.licensePath);
    if license.None? || !codec.isLicense(license.value) { return None; }
    var root := Root(c, repo.version, repo.commit);
    var tar := BuildTar(codec, root, entries.value);
    var locks := HashedPaths(codec, entries.value, c.lockPaths);
    var semantic := SemanticRecord(codec, c, entries.value);
    if tar.None? || locks.None? || semantic.None? { return None; }
    var archive := codec.gzip(tar.value);
    var manifest := BuildManifest(c, repo, |archive|, codec.sha(archive), |entries.value|, locks.value, semantic.value);
    var written := codec.encode(manifest);
    var archiveName, manifestName := root + c.archiveSuffix, root + c.manifestSuffix;
    var sums := SumsText(SumLine(codec.sha(archive), archiveName), SumLine(codec.sha(written), manifestName));
    dir := Some(map[archiveName := Item(true, archive), manifestName := Item(true, written),
                    c.sumsName := Item(true, Encode(sums))]);
  }

  // ----- the candidate that a buildable tree gives rise to -----

  ghost function Archive(codec: Codec, c: Contract, repo: Repo): Bytes
    requires IsBuildable(codec, c, repo)
  {
    codec.gzip(TarBytes(codec, ArchiveSources(Root(c, repo.version, repo.commit), ListTree(repo.raw).value)))
  }

  ghost function BuiltManifest(codec: Codec, c: Contract, repo: Repo): Manifest
    requires IsBuildable(codec, c, repo)
  {
    var entries, archive := ListTree(repo.raw).value, Archive(codec, c, repo);
    BuildManifest(c, repo, |archive|, codec.sha(archive), |entries|, HashedPaths(codec, entries, c.lockPaths).value,
                  SemanticRecord(codec, c, entries).value)
  }

  ghost function Sums(codec: Codec, c: Contract, repo: Repo): string
    requires IsBuildable(codec, c, repo)
  {
    var root := Root(c, repo.version, repo.commit);
    SumsText(SumLine(codec.sha(Archive(codec, c, repo)), root + c.archiveSuffix),
             SumLine(codec.sha(codec.encode(BuiltManifest(codec, c, repo))), root + c.manifestSuffix))
  }

  ghost function Candidate(codec: Codec, c: Contract, repo: Repo): Dir
    requires IsBuildable(codec, c, repo)
  {
    var root := Root(c, repo.version, repo.commit);
    map[root + c.archiveSuffix := Item(true, Archive(codec, c, repo)),
        root + c.manifestSuffix := Item(true, codec.encode(BuiltManifest(codec, c, repo))),
        c.sumsName := Item(true, Encode(Sums(codec, c, repo)))]
  }
}
