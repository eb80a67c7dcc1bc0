/**
 The line scanner that finds container images in workflow files
 (scripts/ci/check_github_actions_pins.py): a stack of open keys and a block-scalar guard.

 A line is given by what the scanner's patterns find in it.  The declarative side says which lines
 are inside a block scalar and which keys are open at a line, without a stack.
 */
module IndentationScan {
  import opened Wrappers
  import opened Ordering

  /** `header`: the indentation before `run:` or `script:` when a block scalar starts there. */
  datatype Line =
    | Ignored
    | Text(indent: nat, header: Option<nat>, entry: Option<Entry>, uses: Option<string>)

  /** `value` is empty if nothing follows the colon. */
  datatype Entry = Entry(key: string, value: string)

  datatype Found = Found(line: nat, value: string)

  // ----- block scalars -----

  /** The text lines from `h + 1` to `i` are indented deeper than the header at `h`. */
  ghost predicate BlockReaches(lines: seq<Line>, h: nat, i: nat)
    requires h < |lines| && lines[h].Text? && lines[h].header.Some? && i < |lines|
  {
    forall m :: h < m <= i && lines[m].Text? ==> lines[m].indent > lines[h].header.value
  }

  predicate LooksLikeHeader(lines: seq<Line>, h: nat)
    requires h < |lines|
  {
    lines[h].Text? && lines[h].header.Some?
  }

  /** The line is part of the scalar of a header that is not itself part of one. */
  ghost predicate IsInBlock(lines: seq<Line>, i: nat)
    requires i < |lines|
    decreases i
  {
    exists h: nat :: h < i && LooksLikeHeader(lines, h) && !IsInBlock(lines, h) && BlockReaches(lines, h, i)
  }

  ghost predicate IsHeader(lines: seq<Line>, h: nat)
    requires h < |lines|
  {
    LooksLikeHeader(lines, h) && !IsInBlock(lines, h)
  }

  /** Neither blank, nor a comment, nor a block header, nor inside a block. */
  ghost predicate IsProcessed(lines: seq<Line>, i: nat)
    requires i < |lines|
  {
    lines[i].Text? && lines[i].header.None? && !IsInBlock(lines, i)
  }

  // ----- open keys -----

  ghost predicate OpensKey(lines: seq<Line>, j: nat)
    requires j < |lines|
  {
    IsProcessed(lines, j) && lines[j].entry.Some? && lines[j].entry.value.value == ""
  }

  /** Every processed line after `j` and before `end` is indented deeper than `j`. */
  ghost predicate StaysDeeper(lines: seq<Line>, j: nat, end: nat)
    requires j < |lines| && lines[j].Text? && end <= |lines|
  {
    forall m :: j < m < end && IsProcessed(lines, m) ==> lines[m].indent > lines[j].indent
  }

  ghost predicate IsOpen(lines: seq<Line>, j: nat, end: nat)
    requires j < |lines| && end <= |lines|
  {
    OpensKey(lines, j) && StaysDeeper(lines, j, end)
  }

  /** The open keys before `end` among the first `n` lines, in order. */
  ghost function OpenKeys(lines: seq<Line>, n: nat, end: nat): (js: seq<nat>)
    requires n <= |lines| && end <= |lines|
    ensures forall j: nat :: j in js <==> j < n && IsOpen(lines, j, end)
    ensures forall a, b :: 0 <= a < b < |js| ==> js[a] < js[b]
    ensures forall a :: 0 <= a < |js| ==> js[a] < n
  {
    if n == 0 then []
    else OpenKeys(lines, n - 1, end) + (if IsOpen(lines, n - 1, end) then [n - 1] else [])
  }

  /** The keys around line `i`: the valueless keys before it that every processed line up to it stays below. */
  ghost function Parents(lines: seq<Line>, i: nat): seq<nat>
    requires i < |lines|
  {
    OpenKeys(lines, i, i + 1)
  }

  ghost function KeysAt(lines: seq<Line>, js: seq<nat>): seq<string>
    requires forall j <- js :: j < |lines| && lines[j].Text? && lines[j].entry.Some?
  {
    seq(|js|, a requires 0 <= a < |js| => assert js[a] in js; lines[js[a]].entry.value.key)
  }

  // ----- what is reported -----

  predicate NamesImage(key: string, parents: seq<string>) {
    var n := |parents|;
    || (key == "container" && n >= 2 && parents[n - 2] == "jobs")
    || (key == "image" && n >= 1 && parents[n - 1] == "container")
    || (key == "image" && n >= 2 && parents[n - 2] == "services")
  }

  /** What line `i` reports, if anything. */
  ghost function ImageAt(lines: seq<Line>, i: nat): seq<Found>
    requires i < |lines|
  {
    if IsProcessed(lines, i) && lines[i].entry.Some? && lines[i].entry.value.value != ""
       && NamesImage(lines[i].entry.value.key, KeysAt(lines, Parents(lines, i)))
    then [Found(i + 1, lines[i].entry.value.value)] else []
  }

  ghost function Images(lines: seq<Line>, n: nat): seq<Found>
    requires n <= |lines|
  {
    if n == 0 then [] else Images(lines, n - 1) + ImageAt(lines, n - 1)
  }

  ghost function UsesAt(lines: seq<Line>, i: nat): seq<Found>
    requires i < |lines|
  {
    if IsProcessed(lines, i) && lines[i].uses.Some? then [Found(i + 1, lines[i].uses.value)] else []
  }

  ghost function Uses(lines: seq<Line>, n: nat): seq<Found>
    requires n <= |lines|
  {
    if n == 0 then [] else Uses(lines, n - 1) + UsesAt(lines, n - 1)
  }

  // ----- the block guard -----

  /** `block` is the indentation of the header whose scalar is still open before line `i`, if any. */
  ghost predicate GuardsBlock(lines: seq<Line>, i: nat, block: Option<nat>)
    requires i <= |lines|
  {
    && (forall h: nat :: h < i && IsHeader(lines, h) && BlockReaches(lines, h, i - 1) ==>
          block == Some(lines[h].header.value))
    && (block.Some? ==> exists h: nat :: h < i && IsHeader(lines, h) && BlockReaches(lines, h, i - 1)
                                         && block == Some(lines[h].header.value))
  }

  lemma ReachesOneMore(lines: seq<Line>, h: nat, i: nat)
    requires h < i < |lines| && LooksLikeHeader(lines, h)
    ensures BlockReaches(lines, h, i) <==>
            BlockReaches(lines, h, i - 1) && (lines[i].Text? ==> lines[i].indent > lines[h].header.value)
  {}

  /** With the guard right, a text line is inside a block exactly when it is deeper than the guard. */
  lemma GuardDecides(lines: seq<Line>, i: nat, block: Option<nat>)
    requires i < |lines| && lines[i].Text? && GuardsBlock(lines, i, block)
    ensures IsInBlock(lines, i) <==> block.Some? && lines[i].indent > block.value
  {
    forall h: nat | h < i && LooksLikeHeader(lines, h)
      ensures BlockReaches(lines, h, i) <==> BlockReaches(lines, h, i - 1) && lines[i].indent > lines[h].header.value
    {
      ReachesOneMore(lines, h, i);
    }
    if block.Some? && lines[i].indent > block.value {
      var h: nat :| h < i && IsHeader(lines, h) && BlockReaches(lines, h, i - 1)
                    && block == Some(lines[h].header.value);
      assert BlockReaches(lines, h, i);
    }
  }

  /** The guard after line `i`. */
  function NextGuard(block: Option<nat>, line: Line): Option<nat> {
    if line.Ignored? then block
    else if block.Some? && line.indent > block.value then block
    else line.header
  }

  lemma GuardMoves(lines: seq<Line>, i: nat, block: Option<nat>)
    requires i < |lines| && GuardsBlock(lines, i, block)
    ensures GuardsBlock(lines, i + 1, NextGuard(block, lines[i]))
  {
    var next := NextGuard(block, lines[i]);
    forall h: nat | h < i && LooksLikeHeader(lines, h)
      ensures BlockReaches(lines, h, i) <==>
              BlockReaches(lines, h, i - 1) && (lines[i].Text? ==> lines[i].indent > lines[h].header.value)
    {
      ReachesOneMore(lines, h, i);
    }
    if lines[i].Text? { GuardDecides(lines, i, block); }
    if next.Some? {
      if next == block && (lines[i].Ignored? || lines[i].indent > block.value) {
        var h: nat :| h < i && IsHeader(lines, h) && BlockReaches(lines, h, i - 1)
                    && block == Some(lines[h].header.value);
        assert BlockReaches(lines, h, i);
      } else {
        assert IsHeader(lines, i) && BlockReaches(lines, i, i);
      }
    }
  }

  /** The guard after line `i`, and whether the line is one to be read. */
  lemma GuardStep(lines: seq<Line>, i: nat, block: Option<nat>)
    requires i < |lines| && GuardsBlock(lines, i, block)
    ensures GuardsBlock(lines, i + 1, NextGuard(block, lines[i]))
    ensures IsProcessed(lines, i) <==>
            lines[i].Text? && lines[i].header.None? && !(block.Some? && lines[i].indent > block.value)
  {
    GuardMoves(lines, i, block);
    if lines[i].Text? { GuardDecides(lines, i, block); }
  }

  // ----- the stack -----

  /** One processed line more keeps exactly the open keys that it is indented below. */
  lemma OpenOneMore(lines: seq<Line>, j: nat, end: nat)
    requires j < end < |lines|
    ensures IsOpen(lines, j, end + 1) <==>
            IsOpen(lines, j, end) && (IsProcessed(lines, end) ==> lines[end].indent > lines[j].indent)
  {}

  /** Of two open keys the later one is indented deeper. */
  lemma OpenKeysDeepen(lines: seq<Line>, end: nat, a: nat, b: nat)
    requires end <= |lines| && a < b < |OpenKeys(lines, end, end)|
    ensures var js := OpenKeys(lines, end, end);
            lines[js[a]].Text? && lines[js[b]].Text? && lines[js[a]].indent < lines[js[b]].indent
  {
    var js := OpenKeys(lines, end, end);
    assert js[a] in js && js[b] in js;
    assert IsOpen(lines, js[a], end) && IsOpen(lines, js[b], end);
  }

  lemma IncreasingSetsAgree(s: seq<nat>, t: seq<nat>)
    requires forall a, b :: 0 <= a < b < |s| ==> s[a] < s[b]
    requires forall a, b :: 0 <= a < b < |t| ==> t[a] < t[b]
    requires forall j :: j in s <==> j in t
    ensures s == t
  {
    var le := (a: nat, b: nat) => a <= b;
    SortedSetsAgree(s, t, le);
  }

  lemma PrefixOfIncreasing(js: seq<nat>, ps: seq<nat>, k: nat)
    requires k <= |js|
    requires forall a, b :: 0 <= a < b < |js| ==> js[a] < js[b]
    requires forall a, b :: 0 <= a < b < |ps| ==> ps[a] < ps[b]
    requires forall a :: 0 <= a < |js| ==> (js[a] in ps <==> a < k)
    requires forall j <- ps :: j in js
    ensures js[..k] == ps
  {
    forall j: nat ensures j in js[..k] <==> j in ps {
      if j in ps {
        var a :| 0 <= a < |js| && js[a] == j;
        assert js[..k][a] == j;
      }
    }
    IncreasingSetsAgree(js[..k], ps);
  }

  /** The line is not processed: every open key stays open. */
  lemma OpenKeysStay(lines: seq<Line>, i: nat)
    requires i < |lines| && !IsProcessed(lines, i)
    ensures OpenKeys(lines, i + 1, i + 1) == OpenKeys(lines, i, i)
  {
    forall j: nat | j < i ensures IsOpen(lines, j, i + 1) <==> IsOpen(lines, j, i) { OpenOneMore(lines, j, i); }
    IncreasingSetsAgree(OpenKeys(lines, i, i), OpenKeys(lines, i, i + 1));
    assert OpenKeys(lines, i + 1, i + 1) == OpenKeys(lines, i, i + 1) + [];
  }

  /** The line is processed: popping the keys that are not less indented leaves its parents. */
  lemma PoppingLeavesParents(lines: seq<Line>, i: nat, k: nat)
    requires i < |lines| && IsProcessed(lines, i)
    requires var js := OpenKeys(lines, i, i);
             && k <= |js|
             && (forall a :: 0 <= a < |js| ==> lines[js[a]].Text?)
             && (k > 0 ==> lines[js[k - 1]].indent < lines[i].indent)
             && (forall a :: k <= a < |js| ==> lines[js[a]].indent >= lines[i].indent)
    ensures OpenKeys(lines, i, i)[..k] == Parents(lines, i)
    ensures OpenKeys(lines, i + 1, i + 1) == Parents(lines, i) + (if OpensKey(lines, i) then [i] else [])
  {
    var js := OpenKeys(lines, i, i);
    var ps := Parents(lines, i);
    forall a | 0 <= a < |js| ensures js[a] in ps <==> a < k {
      assert js[a] in js;
      OpenOneMore(lines, js[a], i);
      if a < k - 1 { OpenKeysDeepen(lines, i, a, k - 1); }
    }
    forall j <- ps ensures j in js { OpenOneMore(lines, j, i); }
    PrefixOfIncreasing(js, ps, k);
  }

  // ----- the scanners -----

  /** The stack holds the indentation and the key of each open line. */
  ghost predicate Holds(lines: seq<Line>, js: seq<nat>, stack: seq<(nat, string)>) {
    && |stack| == |js|
    && forall a :: 0 <= a < |js| ==>
         (js[a] < |lines| && lines[js[a]].Text? && lines[js[a]].entry.Some?
          && stack[a] == (lines[js[a]].indent, lines[js[a]].entry.value.key))
  }

  /** Pops what the line is not indented below; what is left are the line's parents. */
  method PopTo(lines: seq<Line>, i: nat, stack: seq<(nat, string)>) returns (rest: seq<(nat, string)>)
    requires i < |lines| && IsProcessed(lines, i) && Holds(lines, OpenKeys(lines, i, i), stack)
    ensures Holds(lines, Parents(lines, i), rest)
    ensures OpenKeys(lines, i + 1, i + 1) == Parents(lines, i) + (if OpensKey(lines, i) then [i] else [])
  {
    rest := stack;
    ghost var js := OpenKeys(lines, i, i);
    while rest != [] && lines[i].indent <= rest[|rest| - 1].0
      invariant rest <= stack
      invariant forall a :: |rest| <= a < |js| ==> lines[js[a]].indent >= lines[i].indent
    {
      rest := rest[..|rest| - 1];
    }
    PoppingLeavesParents(lines, i, |rest|);
  }

  /** What a processed line reports, and the stack after it. */
  method TakeEntry(lines: seq<Line>, i: nat, stack: seq<(nat, string)>)
      returns (report: seq<Found>, after: seq<(nat, string)>)
    requires i < |lines| && IsProcessed(lines, i) && Holds(lines, OpenKeys(lines, i, i), stack)
    ensures report == ImageAt(lines, i) && Holds(lines, OpenKeys(lines, i + 1, i + 1), after)
  {
    report := [];
    after := PopTo(lines, i, stack);
    if lines[i].entry.Some? {
      var entry := lines[i].entry.value;
      var parents := seq(|after|, a requires 0 <= a < |after| => after[a].1);
      assert parents == KeysAt(lines, Parents(lines, i));
      if entry.value != "" && NamesImage(entry.key, parents) {
        report := [Found(i + 1, entry.value)];
      }
      if entry.value == "" {
        after := after + [(lines[i].indent, entry.key)];
      }
    }
  }

  /** What a line reports, and the stack after it, with the guard that stood before the line. */
  method ScanLine(lines: seq<Line>, i: nat, stack: seq<(nat, string)>, block: Option<nat>)
      returns (report: seq<Found>, after: seq<(nat, string)>)
    requires i < |lines| && GuardsBlock(lines, i, block) && Holds(lines, OpenKeys(lines, i, i), stack)
    ensures report == ImageAt(lines, i) && Holds(lines, OpenKeys(lines, i + 1, i + 1), after)
  {
    GuardStep(lines, i, block);
    if lines[i].Ignored? || (block.Some? && lines[i].indent > block.value) || lines[i].header.Some? {
      OpenKeysStay(lines, i);
      return [], stack;
    }
    report, after := TakeEntry(lines, i, stack);
  }

  /** The container images that a workflow names, each with its line number. */
  method WorkflowImageEntries(lines: seq<Line>) returns (found: seq<Found>)
    ensures found == Images(lines, |lines|)
  {
    found := [];
    var stack: seq<(nat, string)>, block: Option<nat> := [], None;
    for i := 0 to |lines|
      invariant found == Images(lines, i)
      invariant GuardsBlock(lines, i, block) && Holds(lines, OpenKeys(lines, i, i), stack)
    {
      var report;
      report, stack := ScanLine(lines, i, stack, block);
      found := found + report;
      GuardMoves(lines, i, block);
      block := NextGuard(block, lines[i]);
    }
  }

  /** The stack is always strictly deeper towards its top. */
  lemma DeepStack(lines: seq<Line>, end: nat, stack: seq<(nat, string)>)
    requires end <= |lines| && Holds(lines, OpenKeys(lines, end, end), stack)
    ensures forall a, b :: 0 <= a < b < |stack| ==> stack[a].0 < stack[b].0
  {
    forall a, b | 0 <= a < b < |stack| ensures stack[a].0 < stack[b].0 { OpenKeysDeepen(lines, end, a, b); }
  }

  /** The `uses:` references outside block scalars. */
  method UsesEntries(lines: seq<Line>) returns (found: seq<Found>)
    ensures found == Uses(lines, |lines|)
  {
    found := [];
    var block: Option<nat> := None;
    for i := 0 to |lines|
      invariant found == Uses(lines, i) && GuardsBlock(lines, i, block)
    {
      var before := block;
      GuardStep(lines, i, block);
      block := NextGuard(block, lines[i]);
      if lines[i].Text? {
        if !(before.Some? && lines[i].indent > before.value) && lines[i].header.None? && lines[i].uses.Some? {
          found := found + [Found(i + 1, lines[i].uses.value)];
        }
      }
    }
  }

  // ----- consequences -----

  predicate IsOneHere(here: seq<Found>, line: nat) { |here| <= 1 && forall f <- here :: f.line == line }

  lemma ReportsHere(lines: seq<Line>, i: nat)
    requires i < |lines|
    ensures IsOneHere(ImageAt(lines, i), i + 1) && IsOneHere(UsesAt(lines, i), i + 1)
  {}

  function Flatten(reports: seq<seq<Found>>): seq<Found> {
    if reports == [] then [] else Flatten(reports[..|reports| - 1]) + reports[|reports| - 1]
  }

  lemma {:induction false} InFlatten(reports: seq<seq<Found>>, f: Found)
    ensures f in Flatten(reports) <==> exists report <- reports :: f in report
  {
    if reports != [] {
      var front, last := reports[..|reports| - 1], reports[|reports| - 1];
      InFlatten(front, f);
      assert reports == front + [last];
    }
  }

  ghost function ImagesByLine(lines: seq<Line>, n: nat): seq<seq<Found>>
    requires n <= |lines|
  {
    seq(n, i requires 0 <= i < n => ImageAt(lines, i))
  }

  lemma {:induction false} ImagesAreByLine(lines: seq<Line>, n: nat)
    requires n <= |lines|
    ensures Images(lines, n) == Flatten(ImagesByLine(lines, n))
  {
    if n > 0 {
      ImagesAreByLine(lines, n - 1);
      assert ImagesByLine(lines, n)[..n - 1] == ImagesByLine(lines, n - 1);
    }
  }

  /** A line is reported as an image exactly when its parents say so. */
  lemma ReportedIff(lines: seq<Line>, n: nat, f: Found)
    requires n <= |lines|
    ensures f in Images(lines, n) <==> exists i: nat :: i < n && f in ImageAt(lines, i)
  {
    var reports := ImagesByLine(lines, n);
    ImagesAreByLine(lines, n);
    InFlatten(reports, f);
    if report :| report in reports && f in report {
      var i :| 0 <= i < n && reports[i] == report;
      assert f in ImageAt(lines, i);
    }
    if i: nat :| i < n && f in ImageAt(lines, i) { assert reports[i] in reports; }
  }

  /** The last parent is the nearest earlier processed key line above which nothing comes back out. */
  lemma ParentIsNearest(lines: seq<Line>, i: nat, j: nat)
    requires i < |lines| && IsProcessed(lines, i) && j < i && OpensKey(lines, j) && lines[j].indent < lines[i].indent
    requires forall m: nat :: j < m < i && IsProcessed(lines, m) ==> lines[m].indent >= lines[i].indent
    ensures Parents(lines, i) != [] && Parents(lines, i)[|Parents(lines, i)| - 1] == j
  {
    var ps := Parents(lines, i);
    assert IsOpen(lines, j, i + 1);
    assert j in ps;
    var a :| 0 <= a < |ps| && ps[a] == j;
    var last := ps[|ps| - 1];
    assert last in ps && IsOpen(lines, last, i + 1);
    assert lines[last].indent < lines[i].indent;
  }

  // ----- what a line reports, by the key lines around it -----

  /** A valueless key line before `i`, shallower than `i` and than every processed line between them. */
  ghost predicate Encloses(lines: seq<Line>, j: nat, i: nat)
    requires i < |lines| && lines[i].Text?
  {
    && j < i && IsProcessed(lines, j) && lines[j].entry.Some? && lines[j].entry.value.value == ""
    && lines[j].indent < lines[i].indent
    && forall m :: j < m < i && IsProcessed(lines, m) ==> lines[m].indent > lines[j].indent
  }

  /** The last key line before `end` that encloses `i`, and its key. */
  ghost predicate IsNearest(lines: seq<Line>, j: nat, i: nat, end: nat)
    requires i < |lines| && lines[i].Text?
  {
    j < end && Encloses(lines, j, i) && forall k :: j < k < end ==> !Encloses(lines, k, i)
  }

  ghost predicate ParentIs(lines: seq<Line>, i: nat, key: string)
    requires i < |lines| && lines[i].Text?
  {
    exists p: nat :: IsNearest(lines, p, i, i) && lines[p].entry.value.key == key
  }

  ghost predicate GrandparentIs(lines: seq<Line>, i: nat, key: string)
    requires i < |lines| && lines[i].Text?
  {
    exists p: nat, g: nat :: IsNearest(lines, p, i, i) && IsNearest(lines, g, i, p) && lines[g].entry.value.key == key
  }

  lemma ParentsEnclose(lines: seq<Line>, i: nat, j: nat)
    requires i < |lines| && IsProcessed(lines, i)
    ensures j in Parents(lines, i) <==> Encloses(lines, j, i)
  {
    if j < i { OpenOneMore(lines, j, i); }
  }

  lemma NothingBetween(ps: seq<nat>, a: nat)
    requires a <= |ps| && forall b, c :: 0 <= b < c < |ps| ==> ps[b] < ps[c]
    ensures forall k <- ps :: (a > 0 && k <= ps[a - 1]) || (a < |ps| && k >= ps[a])
  {
    forall b | 0 <= b < |ps| ensures (a > 0 && ps[b] <= ps[a - 1]) || (a < |ps| && ps[b] >= ps[a]) {
      assert b < a ==> b == a - 1 || ps[b] < ps[a - 1];
      assert b >= a ==> b == a || ps[a] < ps[b];
    }
  }

  /** The parents from the inside out. */
  lemma NearestIsParent(lines: seq<Line>, i: nat, a: nat, j: nat)
    requires i < |lines| && IsProcessed(lines, i) && a <= |Parents(lines, i)|
    ensures var ps := Parents(lines, i);
            IsNearest(lines, j, i, if a < |ps| then ps[a] else i) <==> a > 0 && ps[a - 1] == j
  {
    var ps := Parents(lines, i);
    var end := if a < |ps| then ps[a] else i;
    forall k: nat ensures k in ps <==> Encloses(lines, k, i) { ParentsEnclose(lines, i, k); }
    NothingBetween(ps, a);
    assert a > 0 ==> ps[a - 1] in ps && ps[a - 1] < end;
  }

  ghost predicate EndsIn(ps: seq<nat>, j: nat) { ps != [] && ps[|ps| - 1] == j }

  ghost predicate EndsInTwo(ps: seq<nat>, j: nat, k: nat) { |ps| >= 2 && ps[|ps| - 2] == j && ps[|ps| - 1] == k }

  lemma NearestTwoAre(lines: seq<Line>, i: nat, g: nat, p: nat)
    requires i < |lines| && IsProcessed(lines, i)
    ensures IsNearest(lines, p, i, i) <==> EndsIn(Parents(lines, i), p)
    ensures IsNearest(lines, p, i, i) && IsNearest(lines, g, i, p) <==> EndsInTwo(Parents(lines, i), g, p)
  {
    var ps := Parents(lines, i);
    NearestIsParent(lines, i, |ps|, p);
    if EndsIn(ps, p) { NearestIsParent(lines, i, |ps| - 1, g); }
  }

  lemma ParentKeyIs(lines: seq<Line>, i: nat, key: string)
    requires i < |lines| && IsProcessed(lines, i)
    ensures var ps := Parents(lines, i);
            ParentIs(lines, i, key) <==> ps != [] && KeysAt(lines, ps)[|ps| - 1] == key
  {
    var ps := Parents(lines, i);
    if ParentIs(lines, i, key) {
      var p: nat :| IsNearest(lines, p, i, i) && lines[p].entry.value.key == key;
      NearestTwoAre(lines, i, 0, p);
    }
    if ps != [] { NearestTwoAre(lines, i, 0, ps[|ps| - 1]); }
  }

  lemma GrandparentKeyIs(lines: seq<Line>, i: nat, key: string)
    requires i < |lines| && IsProcessed(lines, i)
    ensures var ps := Parents(lines, i);
            GrandparentIs(lines, i, key) <==> |ps| >= 2 && KeysAt(lines, ps)[|ps| - 2] == key
  {
    var ps := Parents(lines, i);
    if GrandparentIs(lines, i, key) {
      var p: nat, g: nat :|
        IsNearest(lines, p, i, i) && IsNearest(lines, g, i, p) && lines[g].entry.value.key == key;
      NearestTwoAre(lines, i, g, p);
    }
    if |ps| >= 2 { NearestTwoAre(lines, i, ps[|ps| - 2], ps[|ps| - 1]); }
  }

  lemma NamesImageIff(lines: seq<Line>, i: nat, key: string)
    requires i < |lines| && IsProcessed(lines, i)
    ensures NamesImage(key, KeysAt(lines, Parents(lines, i))) <==>
            || (key == "container" && GrandparentIs(lines, i, "jobs"))
            || (key == "image" && (ParentIs(lines, i, "container") || GrandparentIs(lines, i, "services")))
  {
    GrandparentKeyIs(lines, i, "jobs");
    ParentKeyIs(lines, i, "container");
    GrandparentKeyIs(lines, i, "services");
  }

  /**
   A key with a value is an image if it is a job's `container`, an `image` right below a `container`,
   or an `image` two levels below `services`.
   */
  ghost predicate IsImageLine(lines: seq<Line>, i: nat)
    requires i < |lines|
  {
    && IsProcessed(lines, i) && lines[i].entry.Some? && lines[i].entry.value.value != ""
    && var key := lines[i].entry.value.key;
       || (key == "container" && GrandparentIs(lines, i, "jobs"))
       || (key == "image" && (ParentIs(lines, i, "container") || GrandparentIs(lines, i, "services")))
  }

  /** An image line is reported with its number and value, and no other line is. */
  lemma ImageLineIs(lines: seq<Line>, i: nat)
    requires i < |lines|
    ensures ImageAt(lines, i) == if IsImageLine(lines, i) then [Found(i + 1, lines[i].entry.value.value)] else []
  {
    if IsProcessed(lines, i) && lines[i].entry.Some? { NamesImageIff(lines, i, lines[i].entry.value.key); }
  }

  /** A reference is reported iff it stands outside block scalars, on a line that starts none. */
  lemma {:induction false} UsesAre(lines: seq<Line>, n: nat, f: Found)
    requires n <= |lines|
    ensures f in Uses(lines, n) <==>
            && 1 <= f.line <= n && lines[f.line - 1].Text? && lines[f.line - 1].header.None?
            && !IsInBlock(lines, f.line - 1) && lines[f.line - 1].uses == Some(f.value)
  {
    if n > 0 {
      UsesAre(lines, n - 1, f);
      assert f in Uses(lines, n) <==> f in Uses(lines, n - 1) || f in UsesAt(lines, n - 1);
    }
  }

  ghost predicate AreAscending(found: seq<Found>, n: nat) {
    && (forall f <- found :: 1 <= f.line <= n)
    && (forall a, b :: 0 <= a < b < |found| ==> found[a].line < found[b].line)
  }

  lemma OneMoreAscends(found: seq<Found>, n: nat, here: seq<Found>)
    requires AreAscending(found, n) && IsOneHere(here, n + 1)
    ensures AreAscending(found + here, n + 1)
  {
    assert forall f :: f in found + here <==> f in found || f in here;
    forall a, b | 0 <= a < b < |found + here| ensures (found + here)[a].line < (found + here)[b].line {
      assert a < |found| ==> found[a] in found;
      assert b >= |found| ==> here[b - |found|] in here;
    }
  }

  /** Both scanners report in line order, each line at most once. */
  lemma {:induction false} ImagesAscend(lines: seq<Line>, n: nat)
    requires n <= |lines|
    ensures AreAscending(Images(lines, n), n)
  {
    if n > 0 {
      ImagesAscend(lines, n - 1);
      ReportsHere(lines, n - 1);
      OneMoreAscends(Images(lines, n - 1), n - 1, ImageAt(lines, n - 1));
    }
  }

  lemma {:induction false} UsesAscend(lines: seq<Line>, n: nat)
    requires n <= |lines|
    ensures AreAscending(Uses(lines, n), n)
  {
    if n > 0 {
      UsesAscend(lines, n - 1);
      ReportsHere(lines, n - 1);
      OneMoreAscends(Uses(lines, n - 1), n - 1, UsesAt(lines, n - 1));
    }
  }
}
