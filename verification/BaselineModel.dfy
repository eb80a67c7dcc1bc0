/**
 The planning-registration baseline (scripts/docmeta/check_planning_registration.py): a sorted
 list of tolerated findings, how it is built, what makes it loadable, and how current findings
 are partitioned against it.

 The digest behind the ids is a parameter; JSON is read and written exactly.
 */
module BaselineModel {
  import opened Wrappers
  import opened Ordering
  import opened PythonText
  import opened Paths

  datatype Code = Unregistered | InvalidException | ControlFileMissing | ControlFileParseError | OtherCode(text: string)

  function CodeText(code: Code): string {
    match code
    case Unregistered => "UNREGISTERED_PLANNING_ARTIFACT"
    case InvalidException => "INVALID_PLANNING_EXCEPTION"
    case ControlFileMissing => "CONTROL_FILE_MISSING"
    case ControlFileParseError => "CONTROL_FILE_PARSE_ERROR"
    case OtherCode(text) => text
  }

  /** A finding, or the entry of a baseline that tolerates it. */
  datatype Finding = Finding(id: string, code: Code, path: string, kind: string, reason: string)

  /** `isOurs`: exactly the expected fields, schema and generator, and a valid time stamp. */
  datatype Document = Document(isOurs: bool, entries: seq<Finding>)

  type Digest = string -> string

  // ----- filters and images -----

  function Keep<T(!new)>(s: seq<T>, p: T -> bool): (r: seq<T>)
    ensures forall x :: x in r <==> x in s && p(x)
    ensures |r| <= |s|
  {
    if s == [] then [] else (if p(s[0]) then [s[0]] else []) + Keep(s[1..], p)
  }

  function Ids(s: seq<Finding>): (ids: set<string>)
    ensures forall f <- s :: f.id in ids
  {
    set f | f in s :: f.id
  }

  predicate HasDistinctIds(s: seq<Finding>) {
    forall i, j :: 0 <= i < j < |s| ==> s[i].id != s[j].id
  }

  // ----- ids and order -----

  function Slashed(path: string): string {
    if path == "" then "" else [if path[0] == '\\' then '/' else path[0]] + Slashed(path[1..])
  }

  function ComputeId(digest: Digest, code: Code, path: string, kind: string): string {
    digest(CodeText(code) + "\0" + Slashed(path) + "\0" + kind)
  }

  predicate IsId(s: string) { |s| == 16 && forall c <- s :: '0' <= c <= '9' || 'a' <= c <= 'f' }

  /** The digest is cut to sixteen hexadecimal digits. */
  ghost predicate GivesIds(digest: Digest) { forall s :: IsId(digest(s)) }

  /** `run_checks` gives every finding the id of its code, path and kind. */
  ghost predicate HasItsId(digest: Digest, f: Finding) { f.id == ComputeId(digest, f.code, f.path, f.kind) }

  /** The order of the sort keys (path, code, id). */
  predicate KeyLe(e: Finding, f: Finding) {
    if e.path != f.path then LexLe(e.path, f.path)
    else if CodeText(e.code) != CodeText(f.code) then LexLe(CodeText(e.code), CodeText(f.code))
    else LexLe(e.id, f.id)
  }

  function Key(f: Finding): (string, string, string) { (f.path, CodeText(f.code), f.id) }

  function Keys(s: seq<Finding>): seq<(string, string, string)> {
    seq(|s|, i requires 0 <= i < |s| => Key(s[i]))
  }

  // ----- paths -----

  /** `posixpath.normpath` of the pieces of a relative path. */
  function NormalPieces(pieces: seq<string>, done: seq<string>): seq<string>
    decreases |pieces|
  {
    if pieces == [] then done
    else
      var p := pieces[0];
      NormalPieces(pieces[1..],
                   if p == "" || p == "." then done
                   else if p != ".." || done == [] || done[|done| - 1] == ".." then done + [p]
                   else done[..|done| - 1])
  }

  function NormalPath(path: string): string {
    var pieces := NormalPieces(Split(path), []);
    if pieces == [] then "." else Join(pieces)
  }

  predicate IsBaselinePath(path: string) {
    && path != "" && path != "."
    && path[0] != '/'
    && '\\' !in path
    && NormalPath(path) == path
    && !(".." <= path)
  }

  // ----- building, loading, partitioning -----

  function BuildBaseline(findings: seq<Finding>): Document {
    Document(true, Sort(Keep(findings, (f: Finding) => f.code == Unregistered), KeyLe))
  }

  predicate IsValidEntry(digest: Digest, e: Finding) {
    && IsId(e.id)
    && !IsBlankText(CodeText(e.code)) && !IsBlankText(e.path) && !IsBlankText(e.kind)
    && IsBaselinePath(e.path)
    && e.code == Unregistered
    && e.id == ComputeId(digest, e.code, e.path, e.kind)
  }

  /** The program compares the list of keys with its sorted copy. */
  predicate IsLoadable(digest: Digest, d: Document) {
    && d.isOurs
    && (forall e <- d.entries :: IsValidEntry(digest, e))
    && HasDistinctIds(d.entries)
    && Keys(Sort(d.entries, KeyLe)) == Keys(d.entries)
  }

  datatype Partition = Partition(added: seq<Finding>, known: seq<Finding>, resolved: seq<Finding>)

  predicate IsRatchetable(f: Finding) {
    f.code != InvalidException && f.code != ControlFileMissing && f.code != ControlFileParseError
  }

  function Ratchetable(findings: seq<Finding>): seq<Finding> {
    Keep(findings, (f: Finding) => IsRatchetable(f))
  }

  /** The entries that no current finding stands behind. */
  function Unmatched(findings: seq<Finding>, entries: seq<Finding>): seq<Finding> {
    var current := Ids(Ratchetable(findings));
    Keep(entries, (e: Finding) => e.id !in current)
  }

  function PartitionRatchet(findings: seq<Finding>, entries: seq<Finding>): Partition {
    var baseline := Ids(entries);
    Partition(Keep(Ratchetable(findings), (f: Finding) => f.id !in baseline),
              Keep(Ratchetable(findings), (f: Finding) => f.id in baseline),
              Sort(Unmatched(findings, entries), KeyLe))
  }

  predicate HasControlErrors(findings: seq<Finding>) {
    exists f <- findings :: f.code == ControlFileMissing || f.code == ControlFileParseError
  }

  predicate HasInvalidExceptions(findings: seq<Finding>) {
    exists f <- findings :: f.code == InvalidException
  }

  /** The exit code of the ratchet against a loaded baseline. */
  function RatchetExit(findings: seq<Finding>, entries: seq<Finding>): int {
    if HasControlErrors(findings) then 2
    else if PartitionRatchet(findings, entries).added != [] || HasInvalidExceptions(findings) then 1
    else 0
  }

  /** The entries whose ids are not in `gone`, in canonical order. */
  function Without(entries: seq<Finding>, gone: set<string>): seq<Finding> {
    Sort(Keep(entries, (e: Finding) => e.id !in gone), KeyLe)
  }

  // ----- the file and the modes that change it -----

  /** What is at the baseline's path. */
  datatype File = Missing | Unreadable | Holds(doc: Document)

  function Load(digest: Digest, file: File): Option<Document> {
    if file.Holds? && IsLoadable(digest, file.doc) then Some(file.doc) else None
  }

  /** When the operating system fails during a write, if it does: before, during, or once the content is complete. */
  datatype Fault = NoFault | BeforeWriting | WhileWriting | AfterWriting

  /** The file and the exit code that a mode ends with. */
  datatype Effect = Effect(file: File, exit: int)

  /** A prune writes beside the baseline, so that nothing is lost until the new content is complete. */
  predicate StopsPrune(fault: Fault) { fault == BeforeWriting || fault == WhileWriting }

  function WritePruned(digest: Digest, file: File, doc: Document, resolved: seq<Finding>, fault: Fault): Effect {
    var retained := Without(doc.entries, Ids(resolved));
    var pruned := doc.(entries := retained);
    if resolved == [] then Effect(file, 0)
    else if !HasDistinctIds(resolved) || !(Ids(resolved) <= Ids(doc.entries)) || retained == [] then Effect(file, 2)
    else if StopsPrune(fault) || !IsLoadable(digest, pruned) then Effect(file, 2)
    else Effect(Holds(pruned), if fault == AfterWriting then 2 else 0)
  }

  predicate WouldEmpty(entries: seq<Finding>, resolved: seq<Finding>) {
    Ids(entries) != {} && Ids(resolved) == Ids(entries)
  }

  function Prune(digest: Digest, file: File, findings: seq<Finding>, write: bool, fault: Fault): Effect {
    match Load(digest, file)
    case None => Effect(file, 2)
    case Some(doc) =>
      var resolved := PartitionRatchet(findings, doc.entries).resolved;
      if HasControlErrors(findings) || HasInvalidExceptions(findings)
         || (write && WouldEmpty(doc.entries, resolved)) then
        Effect(file, 2)
      else if !write then Effect(file, 0)
      else WritePruned(digest, file, doc, resolved, fault)
  }

  /** The update overwrites in place: a fault while it writes leaves part of a document. */
  function Update(file: File, findings: seq<Finding>, fault: Fault): Effect {
    if HasControlErrors(findings) then Effect(file, 2)
    else if HasInvalidExceptions(findings) then Effect(file, 1)
    else
      match fault
      case NoFault => Effect(Holds(BuildBaseline(findings)), 0)
      case BeforeWriting => Effect(file, 2)
      case WhileWriting => Effect(Unreadable, 2)
      case AfterWriting => Effect(Holds(BuildBaseline(findings)), 2)
  }
}
