/**
 What the builder takes from Git, in terms of the raw listing: which listings are supported, which
 version texts, and which trees can be built; and what an accepted archive holds of each raw record.
 */
module ReleaseListing {
  import opened Wrappers
  import opened Ordering
  import opened Paths
  import opened ReleaseModel
  import opened ReleaseVerifier
  import opened ReleasePinning
  import opened ReleaseRoundTrip
  import opened ReleaseAcceptance

  // ----- the listing -----

  /** A blob with one of three modes, at a relative path that does not go up. */
  ghost predicate IsSupported(r: RawEntry) {
    && r.kind == "blob" && (r.mode == "100644" || r.mode == "100755" || r.mode == "120000")
    && r.path != "" && r.path[0] != '/' && ".." !in Split(r.path)
  }

  /** The entry is the record, with its mode read as what Git means by it. */
  ghost predicate IsEntryOf(e: TreeEntry, r: RawEntry) {
    && e.path == r.path && e.blob == r.blob
    && (e.mode == Regular <==> r.mode == "100644")
    && (e.mode == Executable <==> r.mode == "100755")
    && (e.mode == Link <==> r.mode == "120000")
  }

  lemma EntryIs(r: RawEntry)
    ensures ParseEntry(r).Some? <==> IsSupported(r)
    ensures ParseEntry(r).Some? ==> IsEntryOf(ParseEntry(r).value, r)
  {
    DropKeeps(Split(r.path), "..");
    assert "100644" != "100755" && "100644" != "120000" && "100755" != "120000" by {
      assert "100644"[3] != "100755"[3] && "120000"[1] != "100755"[1] && "120000"[1] != "100644"[1];
    }
  }

  lemma {:induction false} EntriesAre(raw: seq<RawEntry>)
    ensures ParseEntries(raw).Some? <==> forall r <- raw :: IsSupported(r)
    ensures ParseEntries(raw).Some? ==>
              && |ParseEntries(raw).value| == |raw|
              && forall i :: 0 <= i < |raw| ==> IsEntryOf(ParseEntries(raw).value[i], raw[i])
  {
    if raw != [] {
      EntryIs(raw[0]);
      EntriesAre(raw[1..]);
      assert raw == [raw[0]] + raw[1..];
    }
  }

  ghost predicate HasUniqueRawPaths(raw: seq<RawEntry>) {
    forall i, j :: 0 <= i < j < |raw| ==> raw[i].path != raw[j].path
  }

  lemma InsertUnique(e: TreeEntry, entries: seq<TreeEntry>)
    requires HasUniquePaths(entries) && forall f <- entries :: f.path != e.path
    ensures HasUniquePaths(Insert(e, entries, PathLe))
    ensures forall f :: f in Insert(e, entries, PathLe) <==> f == e || f in entries
  {
    if entries != [] && !PathLe(e, entries[0]) {
      var rest := Insert(e, entries[1..], PathLe);
      InsertUnique(e, entries[1..]);
      assert entries == [entries[0]] + entries[1..];
      forall f <- rest ensures f.path != entries[0].path {
        if f != e { var j :| 0 < j < |entries| && entries[j] == f; }
      }
    }
  }

  lemma {:induction false} SortUnique(entries: seq<TreeEntry>)
    requires HasUniquePaths(entries)
    ensures HasUniquePaths(Sort(entries, PathLe))
    ensures forall f :: f in Sort(entries, PathLe) <==> f in entries
    ensures |Sort(entries, PathLe)| == |entries|
  {
    PathOrderIsPreorder();
    SortSorts(entries, PathLe);
    assert |Sort(entries, PathLe)| == |multiset(Sort(entries, PathLe))| == |multiset(entries)| == |entries|;
    if entries != [] {
      SortUnique(entries[1..]);
      InsertUnique(entries[0], Sort(entries[1..], PathLe));
      assert entries == [entries[0]] + entries[1..];
    }
  }

  /** A listing is taken iff every record is supported, and nothing is lost, added or changed by sorting it. */
  lemma ListedIff(raw: seq<RawEntry>)
    requires HasUniqueRawPaths(raw)
    ensures ListTree(raw).Some? <==> forall r <- raw :: IsSupported(r)
    ensures ListTree(raw).Some? ==>
              var entries := ListTree(raw).value;
              && |entries| == |raw| && HasUniquePaths(entries)
              && (forall r <- raw :: exists e <- entries :: IsEntryOf(e, r))
              && (forall e <- entries :: exists r <- raw :: IsEntryOf(e, r))
              && forall i, j :: 0 <= i < j < |entries| ==> LexLe(entries[i].path, entries[j].path)
  {
    EntriesAre(raw);
    if ListTree(raw).Some? {
      var parsed, entries := ParseEntries(raw).value, ListTree(raw).value;
      SortUnique(parsed);
      ListedTreeIsSorted(raw);
      forall r <- raw ensures exists e <- entries :: IsEntryOf(e, r) {
        var i :| 0 <= i < |raw| && raw[i] == r;
        assert parsed[i] in entries && IsEntryOf(parsed[i], raw[i]);
      }
      forall e <- entries ensures exists r <- raw :: IsEntryOf(e, r) {
        var i :| 0 <= i < |parsed| && parsed[i] == e;
        assert raw[i] in raw && IsEntryOf(e, raw[i]);
      }
      forall i, j | 0 <= i < j < |entries| ensures LexLe(entries[i].path, entries[j].path) {
        assert PathLe(entries[i], entries[j]);
      }
    }
  }

  // ----- what an accepted archive holds of each record -----

  /** A file with the record's bytes and permissions, or a safe link to the text of the blob. */
  ghost predicate IsRawMember(prefix: string, stream: Bytes, m: Member, r: RawEntry) {
    && m.name == prefix + r.path
    && (r.mode == "100644" ==> m.kind == File && m.mode == 420)
    && (r.mode == "100755" ==> m.kind == File && m.mode == 493)
    && (r.mode != "120000" ==> m.size == |r.blob| && ReadAt(stream, m.dataOffset, m.size) == r.blob)
    && (r.mode == "120000" ==>
          && m.kind == Symlink && |m.linkname| == |r.blob|
          && (forall i :: 0 <= i < |r.blob| ==> m.linkname[i] as int == r.blob[i] as int)
          && IsSafeLink(r.path, m.linkname))
  }

  ghost predicate HasRawMember(prefix: string, stream: Bytes, members: seq<Member>, r: RawEntry) {
    exists i :: 1 <= i < |members| && IsRawMember(prefix, stream, members[i], r)
  }

  lemma EntryMemberIsRaw(prefix: string, stream: Bytes, m: Member, e: TreeEntry, r: RawEntry)
    requires m.name == prefix + e.path && IsEntryMember(stream, m, e) && IsEntryOf(e, r)
    ensures IsRawMember(prefix, stream, m, r)
  {}

  /** Besides its root an accepted archive holds the records of the tree, and nothing else. */
  lemma AcceptancePinsRaw(codec: Codec, c: Contract, dir: Dir, repo: Repo, name: string)
    requires AcceptsNamed(codec, c, dir, Some(repo), name) && HasUniqueRawPaths(repo.raw)
    ensures forall r <- repo.raw :: IsSupported(r)
    ensures var m := codec.decode(dir[name].data).value;
            && m.archivePath in dir && codec.gunzip(dir[m.archivePath].data).Some?
            && |MembersIn(codec, dir, m)| == |repo.raw| + 1
            && forall r <- repo.raw :: HasRawMember(m.prefix, StreamIn(codec, dir, m), MembersIn(codec, dir, m), r)
  {
    ListedIff(repo.raw);
    AcceptancePinsTree(codec, c, dir, repo, name);
    var m, entries := codec.decode(dir[name].data).value, ListTree(repo.raw).value;
    var stream, members := StreamIn(codec, dir, m), MembersIn(codec, dir, m);
    forall r <- repo.raw ensures HasRawMember(m.prefix, stream, members, r) {
      RecordHasMember(m.prefix, stream, members, entries, r);
    }
  }

  lemma RecordHasMember(prefix: string, stream: Bytes, members: seq<Member>, entries: seq<TreeEntry>, r: RawEntry)
    requires IsPrefix(prefix) && IsTreeArchive(prefix, stream, members, entries)
    requires exists e <- entries :: IsEntryOf(e, r)
    ensures HasRawMember(prefix, stream, members, r)
  {
    var e :| e in entries && IsEntryOf(e, r);
    var i :| 0 <= i < |entries| && entries[i] == e;
    assert Names(members)[i + 1] == TreeNames(prefix, entries)[i];
    EntryMemberIsRaw(prefix, stream, members[i + 1], e, r);
  }

  /** A held file is the record's blob, with its size and digest. */
  lemma HeldRecordIs(codec: Codec, stream: Bytes, members: seq<Member>, prefix: string, bytes: int, sha: string,
                     r: RawEntry)
    requires HasDistinctNames(members) && IsSupported(r) && HasRawMember(prefix, stream, members, r)
    requires IsHeld(codec, stream, members, prefix + r.path, bytes, sha)
    ensures r.mode != "120000" && bytes == |r.blob| && sha == codec.sha(r.blob)
  {
    var i :| 1 <= i < |members| && IsRawMember(prefix, stream, members[i], r);
    var j :| 0 <= j < |members|
      && members[j].name == prefix + r.path && members[j].kind == File && members[j].size == bytes
      && |ReadAt(stream, members[j].dataOffset, bytes)| == bytes
      && codec.sha(ReadAt(stream, members[j].dataOffset, bytes)) == sha;
    assert i == j;
  }

  /** The recorded locks of an accepted candidate have the sizes and digests of the tree's files. */
  lemma AcceptedLocksAreOfTree(codec: Codec, c: Contract, dir: Dir, repo: Repo, name: string, i: nat, r: RawEntry)
    requires AcceptsNamed(codec, c, dir, Some(repo), name) && HasUniqueRawPaths(repo.raw)
    requires i < |c.lockPaths| && r in repo.raw && r.path == c.lockPaths[i]
    ensures var m := codec.decode(dir[name].data).value;
            && |m.locks| == |c.lockPaths| && m.locks[i] == HashRecord(r.path, |r.blob|, codec.sha(r.blob))
  {
    var m := codec.decode(dir[name].data).value;
    AcceptancePinsRaw(codec, c, dir, repo, name);
    AcceptedRecords(codec, c, dir, Some(repo), name);
    AcceptedMembers(codec, c, dir, Some(repo), name);
    var members := MembersIn(codec, dir, m);
    assert IsHeldAs(codec, StreamIn(codec, dir, m), members, m.prefix, c.lockPaths[i], m.locks[i]);
    HeldRecordIs(codec, StreamIn(codec, dir, m), members, m.prefix, m.locks[i].bytes, m.locks[i].sha, r);
  }

  // ----- versions -----

  predicate AreDigits(s: string) { forall i :: 0 <= i < |s| ==> '0' <= s[i] <= '9' }

  predicate IsNumber(s: string) { s != "" && AreDigits(s) }

  predicate IsSuffixChar(ch: char) {
    '0' <= ch <= '9' || 'A' <= ch <= 'Z' || 'a' <= ch <= 'z' || ch == '.' || ch == '-'
  }

  predicate IsPreRelease(s: string) {
    s == "" || (|s| > 1 && s[0] == '-' && forall i :: 1 <= i < |s| ==> IsSuffixChar(s[i]))
  }

  ghost predicate IsVersionOf(s: string, a: string, b: string, d: string, suffix: string) {
    && IsNumber(a) && IsNumber(b) && IsNumber(d) && IsPreRelease(suffix)
    && s == a + "." + (b + "." + (d + suffix))
  }

  lemma {:induction false} DigitRunIs(s: string)
    ensures AreDigits(s[..DigitRun(s)])
    ensures DigitRun(s) < |s| ==> !('0' <= s[DigitRun(s)] <= '9')
  {
    if s != "" && '0' <= s[0] <= '9' {
      DigitRunIs(s[1..]);
      assert s[..DigitRun(s)] == [s[0]] + s[1..][..DigitRun(s[1..])];
    }
  }

  lemma {:induction false} DigitRunOf(digits: string, rest: string)
    requires AreDigits(digits)
    requires rest != "" ==> !('0' <= rest[0] <= '9')
    ensures DigitRun(digits + rest) == |digits|
  {
    if digits == "" {
      assert digits + rest == rest;
    } else {
      assert (digits + rest)[1..] == digits[1..] + rest;
      DigitRunOf(digits[1..], rest);
    }
  }

  lemma NumberDotIff(s: string)
    ensures AfterNumberDot(s).Some? ==>
              IsNumber(s[..DigitRun(s)]) && s == s[..DigitRun(s)] + "." + AfterNumberDot(s).value
  {
    DigitRunIs(s);
  }

  lemma NumberDotOf(number: string, rest: string)
    requires IsNumber(number)
    ensures AfterNumberDot(number + "." + rest) == Some(rest)
  {
    assert number + "." + rest == number + ("." + rest);
    DigitRunOf(number, "." + rest);
  }

  /** The third number and the suffix, as `IsVersion` reads them. */
  predicate IsLastPart(u: string) {
    var n := DigitRun(u);
    && n > 0
    && (n == |u| || (u[n] == '-' && n + 1 < |u| && forall c <- u[n + 1..] :: IsVersionChar(c)))
  }

  lemma LastPartOf(d: string, suffix: string)
    requires IsNumber(d) && IsPreRelease(suffix)
    ensures IsLastPart(d + suffix)
  {
    DigitRunOf(d, suffix);
    var u := d + suffix;
    if suffix != "" {
      assert u[|d|] == suffix[0];
      forall c <- u[|d| + 1..] ensures IsVersionChar(c) {
        var i :| 0 <= i < |u| - |d| - 1 && u[|d| + 1..][i] == c;
        assert c == suffix[i + 1];
      }
    }
  }

  lemma LastPartIs(u: string) returns (d: string, suffix: string)
    requires IsLastPart(u)
    ensures IsNumber(d) && IsPreRelease(suffix) && u == d + suffix
  {
    var n := DigitRun(u);
    d, suffix := u[..n], u[n..];
    DigitRunIs(u);
    forall i | 1 <= i < |suffix| ensures IsVersionChar(suffix[i]) { assert suffix[i] == u[n + 1..][i - 1]; }
  }

  lemma VersionOf(s: string, a: string, b: string, d: string, suffix: string)
    requires IsVersionOf(s, a, b, d, suffix)
    ensures IsVersion(s)
  {
    NumberDotOf(a, b + "." + (d + suffix));
    NumberDotOf(b, d + suffix);
    LastPartOf(d, suffix);
  }

  lemma VersionParts(s: string)
    requires IsVersion(s)
    ensures exists a, b, d, suffix :: IsVersionOf(s, a, b, d, suffix)
  {
    var t := AfterNumberDot(s).value;
    var u := AfterNumberDot(t).value;
    NumberDotIff(s);
    NumberDotIff(t);
    var d, suffix := LastPartIs(u);
    assert IsVersionOf(s, s[..DigitRun(s)], t[..DigitRun(t)], d, suffix);
  }

  /** Three numbers with dots between them, and perhaps a hyphen and a suffix. */
  lemma VersionIff(s: string)
    ensures IsVersion(s) <==> exists a, b, d, suffix :: IsVersionOf(s, a, b, d, suffix)
  {
    if IsVersion(s) { VersionParts(s); }
    forall a, b, d, suffix | IsVersionOf(s, a, b, d, suffix) ensures IsVersion(s) { VersionOf(s, a, b, d, suffix); }
  }

  // ----- what can be built -----

  ghost predicate IsListedPath(raw: seq<RawEntry>, path: string) { exists r <- raw :: r.path == path }

  lemma {:induction false} BlobAtIff(entries: seq<TreeEntry>, path: string)
    ensures BlobAt(entries, path).Some? <==> exists e <- entries :: e.path == path
  {
    if entries != [] {
      BlobAtIff(entries[1..], path);
      assert entries == [entries[0]] + entries[1..];
    }
  }

  lemma {:induction false} HashedPathsIff(codec: Codec, entries: seq<TreeEntry>, paths: seq<string>)
    ensures HashedPaths(codec, entries, paths).Some? <==> forall p <- paths :: BlobAt(entries, p).Some?
  {
    if paths != [] {
      HashedPathsIff(codec, entries, paths[1..]);
      assert forall p :: p in paths <==> p == paths[0] || p in paths[1..];
      assert HashedPath(codec, entries, paths[0]).Some? <==> BlobAt(entries, paths[0]).Some?;
      assert HashedPaths(codec, entries, paths).Some? <==>
               HashedPath(codec, entries, paths[0]).Some? && HashedPaths(codec, entries, paths[1..]).Some?;
    }
  }

  lemma SemanticRecordIff(codec: Codec, c: Contract, entries: seq<TreeEntry>)
    ensures SemanticRecord(codec, c, entries).Some? <==>
              && BlobAt(entries, c.platformPath).Some? && BlobAt(entries, c.inputPath).Some?
              && BlobAt(entries, c.constraintsPath).Some? && BlobAt(entries, c.semanticLockPath).Some?
  {
    var paths := [c.platformPath, c.inputPath, c.constraintsPath, c.semanticLockPath];
    HashedPathsIff(codec, entries, paths);
    if HashedPaths(codec, entries, paths).Some? { HashedPathsAre(codec, entries, paths); }
    assert forall p :: p in paths <==> p == paths[0] || p == paths[1] || p == paths[2] || p == paths[3];
  }

  lemma ListedPathIs(raw: seq<RawEntry>, path: string)
    requires HasUniqueRawPaths(raw) && ListTree(raw).Some?
    ensures BlobAt(ListTree(raw).value, path).Some? <==> IsListedPath(raw, path)
    ensures forall r <- raw :: r.path == path ==> BlobAt(ListTree(raw).value, path) == Some(r.blob)
  {
    ListedIff(raw);
    var entries := ListTree(raw).value;
    BlobAtIff(entries, path);
    forall r <- raw | r.path == path ensures BlobAt(entries, path) == Some(r.blob) { RecordIsAt(entries, r); }
    if BlobAt(entries, path).Some? {
      var e :| e in entries && e.path == path;
      var r :| r in raw && IsEntryOf(e, r);
      assert r.path == path;
    }
  }

  lemma RecordIsAt(entries: seq<TreeEntry>, r: RawEntry)
    requires HasUniquePaths(entries) && exists e <- entries :: IsEntryOf(e, r)
    ensures BlobAt(entries, r.path) == Some(r.blob)
  {
    var e :| e in entries && IsEntryOf(e, r);
    BlobAtIff(entries, r.path);
    var i := BlobIsOfEntry(entries, r.path);
    var j :| 0 <= j < |entries| && entries[j] == e;
    assert i == j;
  }

  /** What a buildable tree is, record by record. */
  ghost predicate CanBeBuilt(codec: Codec, c: Contract, repo: Repo) {
    && |repo.commit| == 40 && (forall ch <- repo.commit :: ch in "0123456789abcdef")
    && |repo.tree| == 40 && (forall ch <- repo.tree :: ch in "0123456789abcdef")
    && (exists a, b, d, suffix :: IsVersionOf(repo.version, a, b, d, suffix))
    && (forall r <- repo.raw :: IsSupported(r) && r.path !in c.retiredPaths)
    && (forall r <- repo.raw :: r.mode == "120000" ==> IsSafeLink(r.path, Text(r.blob)))
    && (exists r <- repo.raw :: r.path == c.licensePath && codec.isLicense(r.blob))
    && HasRecordedFiles(c, repo.raw)
  }

  lemma HexIs(s: string)
    ensures IsHex(s) <==> forall ch <- s :: ch in "0123456789abcdef"
  {
    forall ch: char ensures ch in "0123456789abcdef" <==> ('0' <= ch <= '9' || 'a' <= ch <= 'f') {
      HexDigitIs(ch);
    }
  }

  lemma HexDigitIs(ch: char)
    ensures ch in "0123456789abcdef" <==> ('0' <= ch <= '9' || 'a' <= ch <= 'f')
  {
    var digits := "0123456789abcdef";
    if '0' <= ch <= '9' { assert digits[ch as int - 48] == ch; }
    if 'a' <= ch <= 'f' { assert digits[ch as int - 87] == ch; }
  }

  lemma LicenseIs(codec: Codec, raw: seq<RawEntry>, path: string)
    requires HasUniqueRawPaths(raw) && ListTree(raw).Some?
    ensures var blob := BlobAt(ListTree(raw).value, path);
            (blob.Some? && codec.isLicense(blob.value)
             <==> exists r <- raw :: r.path == path && codec.isLicense(r.blob))
  {
    ListedPathIs(raw, path);
  }

  lemma RetiredAndLinksAre(c: Contract, raw: seq<RawEntry>)
    requires HasUniqueRawPaths(raw) && ListTree(raw).Some?
    ensures HasRetiredPath(c, ListTree(raw).value) <==> exists r <- raw :: r.path in c.retiredPaths
    ensures HasSafeLinks(ListTree(raw).value)
       <==> forall r <- raw :: r.mode == "120000" ==> IsSafeLink(r.path, Text(r.blob))
  {
    ListedIff(raw);
    var entries := ListTree(raw).value;
    forall r <- raw ensures exists e <- entries :: IsEntryOf(e, r) {}
    forall e <- entries ensures exists r <- raw :: IsEntryOf(e, r) {}
  }

  /** The files that a candidate records are all there. */
  ghost predicate HasRecordedFiles(c: Contract, raw: seq<RawEntry>) {
    && (forall p <- c.lockPaths :: IsListedPath(raw, p))
    && IsListedPath(raw, c.platformPath) && IsListedPath(raw, c.inputPath)
    && IsListedPath(raw, c.constraintsPath) && IsListedPath(raw, c.semanticLockPath)
  }

  lemma RecordedFilesAre(codec: Codec, c: Contract, raw: seq<RawEntry>)
    requires HasUniqueRawPaths(raw) && ListTree(raw).Some?
    ensures var entries := ListTree(raw).value;
            HashedPaths(codec, entries, c.lockPaths).Some? && SemanticRecord(codec, c, entries).Some?
            <==> HasRecordedFiles(c, raw)
  {
    var entries := ListTree(raw).value;
    HashedPathsIff(codec, entries, c.lockPaths);
    SemanticRecordIff(codec, c, entries);
    forall p ensures BlobAt(entries, p).Some? <==> IsListedPath(raw, p) { ListedPathIs(raw, p); }
  }

  /** A tree can be built iff its listing, version and ids meet these conditions. */
  lemma BuildableIff(codec: Codec, c: Contract, repo: Repo)
    requires HasUniqueRawPaths(repo.raw)
    ensures IsBuildable(codec, c, repo) <==> CanBeBuilt(codec, c, repo)
  {
    HexIs(repo.commit);
    HexIs(repo.tree);
    VersionIff(repo.version);
    ListTreeIff(repo.raw);
    if ListTree(repo.raw).Some? {
      LicenseIs(codec, repo.raw, c.licensePath);
      RetiredAndLinksAre(c, repo.raw);
      RecordedFilesAre(codec, c, repo.raw);
    }
  }

  lemma ListTreeIff(raw: seq<RawEntry>)
    requires HasUniqueRawPaths(raw)
    ensures ListTree(raw).Some? <==> forall r <- raw :: IsSupported(r)
  {
    ListedIff(raw);
  }

  // ----- what is built -----

  /** Members are padded to whole blocks of 512 bytes. */
  lemma PaddedIs(size: nat)
    ensures Padded(size) % 512 == 0 && size <= Padded(size) < size + 512
  {}

  /** What is written for a record: a file with its permissions and bytes, or a link to the blob's text. */
  ghost predicate IsRawSource(s: Source, prefix: string, r: RawEntry) {
    && s.name == prefix + r.path
    && (r.mode == "100644" ==> s.kind == File && s.mode == 420 && s.content == r.blob && s.linkname == "")
    && (r.mode == "100755" ==> s.kind == File && s.mode == 493 && s.content == r.blob && s.linkname == "")
    && (r.mode == "120000" ==>
          && s.kind == Symlink && s.mode == 511 && s.content == [] && |s.linkname| == |r.blob|
          && forall i :: 0 <= i < |r.blob| ==> s.linkname[i] as int == r.blob[i] as int)
  }

  lemma SourceIsRaw(prefix: string, e: TreeEntry, r: RawEntry)
    requires IsEntryOf(e, r)
    ensures IsRawSource(EntrySource(prefix, e), prefix, r)
  {}

  /** The built stream holds the root directory and then one member for every record, in byte order of paths. */
  lemma SourcesAre(root: string, raw: seq<RawEntry>)
    requires HasUniqueRawPaths(raw) && ListTree(raw).Some?
    ensures var sources := ArchiveSources(root, ListTree(raw).value);
            && |sources| == |raw| + 1 && sources[0] == Source(root, Directory, 493, "", [])
            && (forall r <- raw :: exists s <- sources[1..] :: IsRawSource(s, root + "/", r))
            && (forall i, j :: 0 <= i < j < |raw| ==> LexLe(ListTree(raw).value[i].path, ListTree(raw).value[j].path))
            && (forall i :: 0 <= i < |raw| ==> sources[i + 1].name == root + "/" + ListTree(raw).value[i].path)
  {
    ListedIff(raw);
    var entries, sources := ListTree(raw).value, ArchiveSources(root, ListTree(raw).value);
    forall r <- raw ensures exists s <- sources[1..] :: IsRawSource(s, root + "/", r) {
      SourceForRecord(root, entries, r);
    }
    forall i | 0 <= i < |raw| ensures sources[i + 1].name == root + "/" + entries[i].path {
      assert sources[i + 1] == EntrySource(root + "/", entries[i]);
    }
  }

  lemma SourceForRecord(root: string, entries: seq<TreeEntry>, r: RawEntry)
    requires exists e <- entries :: IsEntryOf(e, r)
    ensures exists s <- ArchiveSources(root, entries)[1..] :: IsRawSource(s, root + "/", r)
  {
    var e :| e in entries && IsEntryOf(e, r);
    var i :| 0 <= i < |entries| && entries[i] == e;
    var s := EntrySource(root + "/", e);
    assert ArchiveSources(root, entries)[1..][i] == s;
    SourceIsRaw(root + "/", e, r);
  }

  /** The sums file holds the two lines in order, each ended by a newline. */
  lemma SumsTextIs(line: string, other: string)
    ensures SumsText(line, other) ==
            if LexLe(line, other) then line + "\n" + other + "\n" else other + "\n" + line + "\n"
  {
    SortOfTwo(line, other);
  }

  /** The verifier's limits in bytes, members and ratio. */
  lemma LimitsAre(codec: Codec, c: Contract, repo: Repo, sourceBound: bool)
    requires IsBuildable(codec, c, repo)
    ensures var entries, archive := ListTree(repo.raw).value, Archive(codec, c, repo);
            var stream := BuiltStream(codec, Root(c, repo.version, repo.commit), entries);
            (IsWithinLimits(codec, c, repo, sourceBound) <==>
             (&& |codec.encode(BuiltManifest(codec, c, repo))| <= 1048576 && |Sums(codec, c, repo)| <= 65536
              && |archive| <= 67108864 && |stream| <= 167772160 && |stream| <= 200 * |archive|
              && |entries| < 10000 && FileTotal(entries) <= 134217728
              && (forall e <- entries :: IsSafeName(e.path) && (e.mode != Link ==> |e.blob| <= 16777216))
              && AreFilesOf(entries, c.lockPaths, 16777216) && AreFilesOf(entries, SemanticPaths(c), 16777216)
              && IsFileOf(entries, c.licensePath, 1048576)
              && (sourceBound ==> BlobTotal(entries) <= 134217728 && forall e <- entries :: |e.blob| <= 16777216)))
  {
    LicenseFileIs(ListTree(repo.raw).value, c.licensePath);
    SmallFilesAre(ListTree(repo.raw).value, c.lockPaths);
    SmallFilesAre(ListTree(repo.raw).value, SemanticPaths(c));
  }

  /** A regular file of at most that size. */
  predicate IsFileOf(entries: seq<TreeEntry>, path: string, limit: nat) {
    IsFileAt(entries, path) && BlobAt(entries, path).Some? && |BlobAt(entries, path).value| <= limit
  }

  ghost predicate AreFilesOf(entries: seq<TreeEntry>, paths: seq<string>, limit: nat) {
    forall p <- paths :: IsFileOf(entries, p, limit)
  }

  lemma LicenseFileIs(entries: seq<TreeEntry>, path: string)
    ensures IsFileAt(entries, path) ==> BlobAt(entries, path).Some?
  {
    BlobAtIff(entries, path);
  }

  lemma SmallFilesAre(entries: seq<TreeEntry>, paths: seq<string>)
    ensures AreSmallFiles(entries, paths) <==> AreFilesOf(entries, paths, 16777216)
  {
    forall i | 0 <= i < |paths| ensures IsSmallFileAt(entries, paths[i]) <==> IsFileOf(entries, paths[i], 16777216) {}
    if AreSmallFiles(entries, paths) {
      forall p | p in paths ensures IsFileOf(entries, p, 16777216) {
        var i :| 0 <= i < |paths| && paths[i] == p;
        assert IsSmallFileAt(entries, paths[i]);
      }
    }
  }
}
