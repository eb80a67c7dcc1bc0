/**
 What acceptance says about the bytes of a candidate, and what building asks of a tree, spelled out
 in terms of the files, the archive's members and the raw listing of the tree.
 */
module ReleaseAcceptance {
  import opened Wrappers
  import opened Ordering
  import opened Paths
  import opened ReleaseModel
  import opened ReleaseVerifier
  import opened ReleasePinning

  // ----- SHA256SUMS -----

  /** Parsed sums are read off lines of the form digest, two spaces, name: one line for each name. */
  lemma {:induction false} ParsedLines(lines: seq<string>)
    requires ParseSums(lines).Some?
    ensures var sums := ParseSums(lines).value;
            && |sums| == |lines|
            && (forall line :: line in lines <==> exists name :: name in sums && line == SumLine(sums[name], name))
  {
    var sums := ParseSums(lines).value;
    if lines != [] {
      var front, last := lines[..|lines| - 1], lines[|lines| - 1];
      var before := ParseSums(front).value;
      ParsedLines(front);
      assert lines == front + [last];
      assert last == last[..64] + ([' ', ' '] + last[66..]) && last == SumLine(sums[last[66..]], last[66..]);
      forall line ensures line in lines <==> exists name :: name in sums && line == SumLine(sums[name], name) {
        if line in front {
          var name :| name in before && line == SumLine(before[name], name);
          assert name in sums && sums[name] == before[name];
        }
        if name :| name in sums && line == SumLine(sums[name], name) {
          if name in before { assert line in front; } else { assert name == last[66..]; }
        }
      }
    }
  }

  /** An accepted candidate's SHA256SUMS has two lines: those of the archive and of the manifest. */
  lemma AcceptedSums(codec: Codec, c: Contract, dir: Dir, repo: Option<Repo>, name: string)
    requires AcceptsNamed(codec, c, dir, repo, name)
    ensures c.sumsName in dir && codec.text(dir[c.sumsName].data).Some?
    ensures var m := codec.decode(dir[name].data).value;
            var lines := SplitLines(codec.text(dir[c.sumsName].data).value);
            && m.archivePath in dir && (m.archivePath != name ==> |lines| == 2)
            && forall line :: line in lines <==>
                 || line == SumLine(codec.sha(dir[m.archivePath].data), m.archivePath)
                 || line == SumLine(codec.sha(dir[name].data), name)
  {
    var m := codec.decode(dir[name].data).value;
    var lines := SplitLines(codec.text(dir[c.sumsName].data).value);
    ParsedLines(lines);
    var sums := ParseSums(lines).value;
    assert sums.Keys == {m.archivePath, name} && |sums| == |sums.Keys|;
    assert m.archivePath in sums && name in sums;
  }

  function Concat(lines: seq<string>): string { if lines == [] then "" else lines[0] + Concat(lines[1..]) }

  function WithoutBreaks(s: string): string {
    if s == "" then "" else (if IsLineBreak(s[0]) then "" else [s[0]]) + WithoutBreaks(s[1..])
  }

  predicate HasBreak(line: string) { exists ch <- line :: IsLineBreak(ch) }

  lemma ConcatStep(line: string, lines: seq<string>)
    ensures Concat([line] + lines) == line + Concat(lines)
    ensures (forall x <- [line] + lines :: !HasBreak(x)) <==> !HasBreak(line) && forall x <- lines :: !HasBreak(x)
  {
    assert ([line] + lines)[1..] == lines;
    assert forall x :: x in [line] + lines <==> x == line || x in lines;
  }

  lemma CharInFront(ch: char, line: string)
    ensures HasBreak([ch] + line) <==> IsLineBreak(ch) || HasBreak(line)
  {
    assert forall x :: x in [ch] + line <==> x == ch || x in line;
  }

  ghost predicate HaveNoBreaks(lines: seq<string>) { forall line <- lines :: !HasBreak(line) }

  lemma Associate(a: string, b: string, c: string)
    ensures (a + b) + c == a + (b + c)
  {}

  /** One more character in front of the first line. */
  lemma LineGrows(ch: char, first: string, rest: seq<string>)
    requires !IsLineBreak(ch)
    ensures Concat([[ch] + first] + rest) == [ch] + Concat([first] + rest)
    ensures HaveNoBreaks([first] + rest) ==> HaveNoBreaks([[ch] + first] + rest)
  {
    CharInFront(ch, first);
    ConcatStep(first, rest);
    ConcatStep([ch] + first, rest);
    Associate([ch], first, Concat(rest));
  }

  lemma EmptyLineInFront(lines: seq<string>)
    ensures Concat([""] + lines) == Concat(lines) && (HaveNoBreaks(lines) ==> HaveNoBreaks([""] + lines))
  {
    ConcatStep("", lines);
  }

  lemma BreakIsDropped(s: string)
    requires s != "" && IsLineBreak(s[0])
    ensures WithoutBreaks(s) == WithoutBreaks(s[1..])
  {}

  /** Splitting into lines drops the line breaks and nothing else. */
  lemma {:induction false} LinesKeepTheRest(s: string)
    ensures Concat(SplitLines(s)) == WithoutBreaks(s)
    ensures HaveNoBreaks(SplitLines(s))
  {
    if s == "" {
    } else if |s| >= 2 && s[0] == '\r' && s[1] == '\n' {
      LinesKeepTheRest(s[2..]);
      EmptyLineInFront(SplitLines(s[2..]));
      BreakIsDropped(s);
      BreakIsDropped(s[1..]);
      assert s[1..][1..] == s[2..];
    } else if IsLineBreak(s[0]) {
      LinesKeepTheRest(s[1..]);
      EmptyLineInFront(SplitLines(s[1..]));
      BreakIsDropped(s);
    } else {
      var rest := SplitLines(s[1..]);
      LinesKeepTheRest(s[1..]);
      if rest == [] {
        OneCharacter(s[0]);
        assert s[1..] == "";
      } else {
        LineGrows(s[0], rest[0], rest[1..]);
        assert rest == [rest[0]] + rest[1..];
      }
    }
  }

  lemma OneCharacter(ch: char)
    requires !IsLineBreak(ch)
    ensures Concat([[ch]]) == [ch] && HaveNoBreaks([[ch]])
  {
    CharInFront(ch, "");
    ConcatStep([ch], []);
    assert [[ch]] + [] == [[ch]] && [ch] + "" == [ch];
  }

  // ----- the directory, the archive and the manifest -----

  lemma ZeroTimeIs(archive: Bytes)
    ensures HasZeroGzipTime(archive) <==> |archive| >= 8 && archive[4..8] == [0, 0, 0, 0]
  {}

  /** Three regular files of bounded size; the archive is the one that the manifest describes. */
  lemma AcceptedDirectory(codec: Codec, c: Contract, dir: Dir, repo: Option<Repo>, name: string)
    requires AcceptsNamed(codec, c, dir, repo, name)
    ensures var m := codec.decode(dir[name].data).value;
            && dir.Keys == {name, m.archivePath, c.sumsName}
            && (forall n <- dir :: dir[n].regular)
            && |dir[name].data| <= 1048576
            && IsBoundedArchive(codec, m, dir[m.archivePath].data) && |dir[c.sumsName].data| <= 65536
  {
    var m := codec.decode(dir[name].data).value;
    assert IsCandidateDir(c, dir, name, m);
    assert c.sumsName in dir && m.archivePath in dir;
    ZeroTimeIs(dir[m.archivePath].data);
  }

  /** The archive has the recorded size and digest, no time stamp, and unpacks within the limits. */
  ghost predicate IsBoundedArchive(codec: Codec, m: Manifest, archive: Bytes) {
    && |archive| <= 67108864 && |archive| == m.archiveBytes && codec.sha(archive) == m.archiveSha
    && |archive| >= 8 && archive[4..8] == [0, 0, 0, 0] && codec.gunzip(archive).Some?
    && |codec.gunzip(archive).value| <= 167772160 && |codec.gunzip(archive).value| <= 200 * |archive|
  }

  /** The names in the manifest follow from its version and commit; the fixed fields are the contract's. */
  lemma AcceptedManifest(codec: Codec, c: Contract, dir: Dir, repo: Option<Repo>, name: string)
    requires AcceptsNamed(codec, c, dir, repo, name)
    ensures var m := codec.decode(dir[name].data).value;
            && m.schema == c.schema && m.kind == c.kind && m.version == c.version
            && m.license == c.license && m.distribution == c.distribution
            && m.project == c.project && m.repository == c.repository && m.format == c.format
            && |m.commit| == 40 && |m.tree| == 40 && !m.dirty && m.timestamp == 0
            && (forall ch <- m.commit + m.tree :: '0' <= ch <= '9' || 'a' <= ch <= 'f')
            && m.candidateId == m.releaseVersion + "-g" + m.commit[..12]
            && m.prefix == c.slug + "-" + m.candidateId + "/"
            && m.archivePath == c.slug + "-" + m.candidateId + c.archiveSuffix
            && m.normalization == Normalization(0, 0, 0, 0, c.pathOrder)
            && (forall claim <- c.nonclaims :: claim in m.nonclaims)
            && (repo.Some? ==> m.commit == repo.value.commit && m.tree == repo.value.tree)
  {}

  /** Members in order, each admissible, as many as the manifest says. */
  lemma AcceptedMembers(codec: Codec, c: Contract, dir: Dir, repo: Option<Repo>, name: string)
    requires AcceptsNamed(codec, c, dir, repo, name)
    ensures var m := codec.decode(dir[name].data).value;
            && m.archivePath in dir && codec.gunzip(dir[m.archivePath].data).Some?
            && |m.prefix| > 0
            && var members := MembersIn(codec, dir, m);
               && |members| == m.trackedCount + 1 && |members| <= 10000
               && members[0].name + "/" == m.prefix
               && (forall i, j :: 0 <= i < j < |members| ==> members[i].name != members[j].name)
               && (forall p <- c.retiredPaths :: forall x <- members :: x.name != m.prefix + p)
               && TotalSize(members) <= 134217728 && TotalSize(members) <= 200 * |dir[m.archivePath].data|
               && forall x <- members :: IsNormalMember(m.prefix, x)
  {
    var m := codec.decode(dir[name].data).value;
    var members := MembersIn(codec, dir, m);
    assert members[0].name == Names(members)[0] == RootName(m.prefix);
    forall p <- c.retiredPaths ensures forall x <- members :: x.name != m.prefix + p {
      RetiredIsNoMember(members, m.prefix + p);
    }
    forall x <- members ensures IsNormalMember(m.prefix, x) { TakenIsNormal(m.prefix, x); }
  }

  lemma RetiredIsNoMember(members: seq<Member>, name: string)
    requires HasDistinctNames(members) && name !in MemberMap(members)
    ensures forall x <- members :: x.name != name
  {
    forall i | 0 <= i < |members| ensures members[i].name != name { MemberMapLookup(members, i); }
  }

  lemma TakenIsNormal(prefix: string, x: Member)
    requires IsPrefix(prefix) && IsTakenMember(x, prefix)
    ensures IsNormalMember(prefix, x)
  {
    assert RootName(prefix) + "/" == prefix;
    if prefix <= x.name { assert x.name == prefix + x.name[|prefix|..]; }
  }

  /** Below the root or the root itself, owned by nobody, of a known kind, small, and if a link inside the root. */
  ghost predicate IsNormalMember(prefix: string, x: Member) {
    && (x.name + "/" == prefix || prefix <= x.name)
    && (forall piece <- Split(x.name) :: piece != "" && piece != "." && piece != "..")
    && x.uid == 0 && x.gid == 0 && x.mtime == 0
    && (x.kind == Directory || x.kind == File || x.kind == Symlink)
    && (x.kind == File ==> 0 <= x.size <= 16777216)
    && 0 <= x.offset && 0 <= x.dataOffset && x.dataOffset + Padded(x.size) <= 167772160
    && (x.kind == Symlink ==> IsSafeLink(Below(prefix, x.name), x.linkname))
  }

  // ----- the recorded files -----

  /** Some member of that name is a regular file of that size and digest. */
  ghost predicate IsHeld(codec: Codec, stream: Bytes, members: seq<Member>, name: string, bytes: int, sha: string) {
    exists i :: 0 <= i < |members|
      && members[i].name == name && members[i].kind == File && members[i].size == bytes
      && |ReadAt(stream, members[i].dataOffset, bytes)| == bytes
      && codec.sha(ReadAt(stream, members[i].dataOffset, bytes)) == sha
  }

  lemma {:induction false} MapIsOfMembers(members: seq<Member>, name: string) returns (i: nat)
    requires name in MemberMap(members)
    ensures i < |members| && members[i].name == name && MemberMap(members)[name] == members[i]
    decreases |members|
  {
    var n := |members| - 1;
    if name == members[n].name { i := n; } else { i := MapIsOfMembers(members[..n], name); }
  }

  lemma HeldRecord(codec: Codec, stream: Bytes, members: seq<Member>, prefix: string, r: HashRecord)
    requires HoldsRecord(codec, stream, MemberMap(members), prefix, r)
    ensures IsHeld(codec, stream, members, prefix + r.path, r.bytes, r.sha) && 0 <= r.bytes <= 16777216
  {
    var i := MapIsOfMembers(members, prefix + r.path);
  }

  /** The locks and the semantic files are recorded by path, and held with their sizes and digests. */
  lemma AcceptedRecords(codec: Codec, c: Contract, dir: Dir, repo: Option<Repo>, name: string)
    requires AcceptsNamed(codec, c, dir, repo, name)
    ensures var m := codec.decode(dir[name].data).value;
            && m.archivePath in dir && codec.gunzip(dir[m.archivePath].data).Some?
            && |m.locks| == |c.lockPaths|
            && |m.semantic.targets| == 1 && m.semantic.status == c.semanticStatus && !m.semantic.enabled
            && m.semantic.policy == c.semanticPolicy && m.semantic.targets[0].id == c.semanticTarget
            && var t, s, xs := m.semantic.targets[0], StreamIn(codec, dir, m), MembersIn(codec, dir, m);
               && (forall i :: 0 <= i < |m.locks| ==>
                     m.locks[i].path == c.lockPaths[i] && IsHeldAs(codec, s, xs, m.prefix, c.lockPaths[i], m.locks[i]))
               && IsHeldAs(codec, s, xs, m.prefix, c.platformPath, m.semantic.platform)
               && IsHeldAs(codec, s, xs, m.prefix, c.inputPath, t.input)
               && IsHeldAs(codec, s, xs, m.prefix, c.constraintsPath, t.constraints)
               && IsHeldAs(codec, s, xs, m.prefix, c.semanticLockPath, t.lock)
  {
    var m := codec.decode(dir[name].data).value;
    var t, s, xs := m.semantic.targets[0], StreamIn(codec, dir, m), MembersIn(codec, dir, m);
    forall i | 0 <= i < |m.locks| ensures IsHeldAs(codec, s, xs, m.prefix, c.lockPaths[i], m.locks[i]) {
      HeldRecord(codec, s, xs, m.prefix, m.locks[i]);
    }
    HeldRecord(codec, s, xs, m.prefix, m.semantic.platform);
    HeldRecord(codec, s, xs, m.prefix, t.input);
    HeldRecord(codec, s, xs, m.prefix, t.constraints);
    HeldRecord(codec, s, xs, m.prefix, t.lock);
  }

  ghost predicate IsHeldAs(codec: Codec, stream: Bytes, members: seq<Member>, prefix: string, path: string,
                           r: HashRecord) {
    r.path == path && IsHeld(codec, stream, members, prefix + path, r.bytes, r.sha)
  }

  /** The archive holds a license of at most a mebibyte that the check recognises. */
  lemma AcceptedLicense(codec: Codec, c: Contract, dir: Dir, repo: Option<Repo>, name: string) returns (i: nat)
    requires AcceptsNamed(codec, c, dir, repo, name)
    ensures var m := codec.decode(dir[name].data).value;
            && m.archivePath in dir && codec.gunzip(dir[m.archivePath].data).Some?
            && var xs := MembersIn(codec, dir, m);
               && i < |xs| && xs[i].name == m.prefix + c.licensePath && xs[i].kind == File && xs[i].size <= 1048576
               && codec.isLicense(ReadAt(StreamIn(codec, dir, m), xs[i].dataOffset, xs[i].size))
  {
    var m := codec.decode(dir[name].data).value;
    i := MapIsOfMembers(MembersIn(codec, dir, m), m.prefix + c.licensePath);
  }
}
