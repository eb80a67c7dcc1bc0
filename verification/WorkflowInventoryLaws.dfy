/**
 What the checks of a recorded workflow closure mean: which references are pinned or reusable, what
 the two counters count, and what a finding says.
 */
module WorkflowInventoryLaws {
  import opened Wrappers
  import opened WorkflowInventory

  // ----- references -----

  /** `base` and the revision after the last `@`. */
  predicate IsAt(value: string, base: string, revision: string) {
    value == base + "@" + revision && '@' !in revision
  }

  /** Two positions that are both the last of their kind are one. */
  lemma OnlyLast(value: string, j: nat, k: nat)
    requires j < |value| && value[j] == '@' && '@' !in value[j + 1..]
    requires k < |value| && value[k] == '@' && '@' !in value[k + 1..]
    ensures j == k
  {
    forall i | j < i < |value| ensures value[i] in value[j + 1..] { assert value[j + 1..][i - j - 1] == value[i]; }
    forall i | k < i < |value| ensures value[i] in value[k + 1..] { assert value[k + 1..][i - k - 1] == value[i]; }
  }

  lemma SplitAtLast(value: string, base: string, revision: string)
    requires IsAt(value, base, revision)
    ensures LastAt(value) == |base| && value[..|base|] == base && Revision(value) == revision
  {
    assert value[|base|] == '@' && value[|base| + 1..] == revision && value[..|base|] == base;
    assert LastAt(value) < |value|;
    OnlyLast(value, |base|, LastAt(value));
  }

  /** A reference is pinned iff it ends in `@` and forty hexadecimal digits. */
  lemma PinnedIff(value: string)
    ensures IsPinned(value) <==> exists base, revision ::
              && value == base + "@" + revision && |revision| == 40
              && forall c <- revision :: '0' <= c <= '9' || 'a' <= c <= 'f'
  {
    if IsPinned(value) {
      var k := LastAt(value);
      assert value == value[..k] + "@" + value[k + 1..];
    }
    forall base, revision |
        && value == base + "@" + revision && |revision| == 40
        && forall c <- revision :: '0' <= c <= '9' || 'a' <= c <= 'f'
      ensures IsPinned(value)
    {
      assert '@' !in revision;
      SplitAtLast(value, base, revision);
    }
  }

  ghost predicate OccursIn(piece: string, s: string) { exists a, b :: s == a + piece + b }

  lemma OccursAtStart(piece: string, s: string)
    requires piece <= s
    ensures OccursIn(piece, s)
  {
    assert s == "" + piece + s[|piece|..];
  }

  lemma OccursFurtherOn(piece: string, s: string)
    requires s != "" && OccursIn(piece, s[1..])
    ensures OccursIn(piece, s)
  {
    var a, b :| s[1..] == a + piece + b;
    assert s == [s[0]] + s[1..];
    assert [s[0]] + (a + piece + b) == ([s[0]] + a) + piece + b;
  }

  lemma OccursSomewhere(piece: string, s: string)
    requires s != "" && OccursIn(piece, s)
    ensures piece <= s || OccursIn(piece, s[1..])
  {
    var a, b :| s == a + piece + b;
    if a == "" {
      assert s == piece + b;
    } else {
      assert (a + piece + b)[1..] == a[1..] + piece + b;
    }
  }

  lemma {:induction false} ContainsIff(s: string, piece: string)
    ensures Contains(s, piece) <==> OccursIn(piece, s)
  {
    if s != "" {
      ContainsIff(s[1..], piece);
      if piece <= s { OccursAtStart(piece, s); }
      if OccursIn(piece, s[1..]) { OccursFurtherOn(piece, s); }
      if OccursIn(piece, s) { OccursSomewhere(piece, s); }
    } else if piece == "" {
      OccursAtStart(piece, s);
    }
  }

  /** A reference is reusable iff the workflow directory occurs before its last `@`. */
  lemma ReusableIff(value: string, base: string, revision: string)
    requires IsAt(value, base, revision) || (value == base && '@' !in value)
    ensures IsReusable(value) <==> exists a, b :: base == a + "/.github/workflows/" + b
  {
    if IsAt(value, base, revision) {
      SplitAtLast(value, base, revision);
    } else {
      assert LastAt(value) == |value| && value[..|value|] == value;
    }
    ContainsIff(base, "/.github/workflows/");
  }

  // ----- the counters -----

  /** The required counter holds each reusable use as often as it is declared. */
  lemma {:induction false} RequiredCounts(uses: seq<string>, u: string)
    ensures ReusableUses(uses)[u] == if IsReusable(u) then multiset(uses)[u] else 0
  {
    if uses != [] {
      var front, last := uses[..|uses| - 1], uses[|uses| - 1];
      RequiredCounts(front, u);
      assert uses == front + [last];
    }
  }

  predicate Records(item: Item, u: string) { item.Record? && item.node.uses == u }

  function Places(items: seq<Item>, u: string): set<nat> {
    set i: nat | i < |items| && Records(items[i], u)
  }

  /** The recorded counter holds each use as often as an item records it. */
  lemma {:induction false} RecordedCounts(items: seq<Item>, u: string)
    ensures RecordedUses(items)[u] == |Places(items, u)|
  {
    if items != [] {
      var front, last := items[..|items| - 1], items[|items| - 1];
      RecordedCounts(front, u);
      assert Places(items, u) == Places(front, u) + (if Records(last, u) then {|front|} else {});
    }
  }

  /** So the counters agree iff every reusable use is recorded as often as it is declared, and nothing else is. */
  lemma CountersAgreeIff(node: Node)
    ensures !Breaks(node, ClosureMismatch) <==> forall u ::
              |Places(ItemsOf(node), u)| == if IsReusable(u) then multiset(UsesOf(node))[u] else 0
  {
    var required, recorded := ReusableUses(UsesOf(node)), RecordedUses(ItemsOf(node));
    forall u
      ensures required[u] == if IsReusable(u) then multiset(UsesOf(node))[u] else 0
      ensures recorded[u] == |Places(ItemsOf(node), u)|
    {
      RequiredCounts(UsesOf(node), u);
      RecordedCounts(ItemsOf(node), u);
    }
    if forall u :: |Places(ItemsOf(node), u)| == if IsReusable(u) then multiset(UsesOf(node))[u] else 0 {
      forall u ensures recorded[u] == required[u] { assert |Places(ItemsOf(node), u)| == recorded[u]; }
      assert recorded == required;
    }
  }

  // ----- what a finding says -----

  function Keep<T(!new)>(s: seq<T>, p: T -> bool): seq<T> {
    if s == [] then [] else Keep(s[..|s| - 1], p) + (if p(s[|s| - 1]) then [s[|s| - 1]] else [])
  }

  lemma {:induction false} KeptAre<T(!new)>(s: seq<T>, p: T -> bool, x: T)
    ensures x in Keep(s, p) <==> x in s && p(x)
  {
    if s != [] {
      KeptAre(s[..|s| - 1], p, x);
      assert s == s[..|s| - 1] + [s[|s| - 1]];
    }
  }

  /** The uses that are not pinned, in order. */
  function MutableOnes(uses: seq<string>): seq<string> { Keep(uses, (u: string) => !IsPinned(u)) }

  lemma {:induction false} UseFindingsTell(uses: seq<string>, location: string)
    ensures |UseFindings(uses, location)| == |MutableOnes(uses)|
    ensures forall i :: 0 <= i < |MutableOnes(uses)| ==>
              UseFindings(uses, location)[i] == Finding(MutableActionRef, location, Text(MutableOnes(uses)[i]))
  {
    if uses != [] { UseFindingsTell(uses[..|uses| - 1], location); }
  }

  /** The uses that are not pinned are reported, each with its text. */
  lemma UseFindingsAre(uses: seq<string>, location: string, f: Finding)
    ensures f in UseFindings(uses, location) <==>
            && f.code == MutableActionRef && f.location == location && f.subject.Text?
            && f.subject.text in uses && !IsPinned(f.subject.text)
  {
    var findings, texts := UseFindings(uses, location), MutableOnes(uses);
    UseFindingsTell(uses, location);
    if f in findings {
      var i :| 0 <= i < |findings| && findings[i] == f;
      KeptAre(uses, (u: string) => !IsPinned(u), texts[i]);
    }
    if f.code == MutableActionRef && f.location == location && f.subject.Text? {
      KeptAre(uses, (u: string) => !IsPinned(u), f.subject.text);
      if f.subject.text in texts {
        var i :| 0 <= i < |texts| && texts[i] == f.subject.text;
        assert findings[i] == f;
      }
    }
  }

  lemma {:induction false} StrayFindingsAre(items: seq<Item>, location: string, f: Finding)
    ensures f in StrayFindings(items, location) <==>
            f.code == InvalidWorkflowEntry && f.location == location && f.subject.Position?
            && f.subject.index < |items| && items[f.subject.index].Stray?
  {
    if items != [] {
      var front, last := items[..|items| - 1], items[|items| - 1];
      var here := OneIf(last.Stray?, InvalidWorkflowEntry, location, Position(|items| - 1));
      StrayFindingsAre(front, location, f);
      assert f in StrayFindings(items, location) <==> f in StrayFindings(front, location) || f in here;
    }
  }

  /** What a finding about the node itself is about. */
  ghost predicate SaysOf(node: Node, f: Finding) {
    match f.code
    case InvalidSourceHash =>
      && f.subject == Text(node.sourceHash)
      && !(|node.sourceHash| == 64 && forall c <- node.sourceHash :: '0' <= c <= '9' || 'a' <= c <= 'f')
    case MissingUses => node.transitiveUses.None? && f.subject == Nothing
    case MutableActionRef => f.subject.Text? && f.subject.text in UsesOf(node) && !IsPinned(f.subject.text)
    case MissingWorkflows => node.workflows.NotAList? && f.subject == Nothing
    case InvalidWorkflowEntry =>
      f.subject.Position? && f.subject.index < |ItemsOf(node)| && ItemsOf(node)[f.subject.index].Stray?
    case ClosureMismatch =>
      Breaks(node, ClosureMismatch)
      && f.subject == Counters(ReusableUses(UsesOf(node)), RecordedUses(ItemsOf(node)))
    case MutableWorkflowRef => false
  }

  /** A finding is reported of a node iff it says something true of the node, at the node's place. */
  lemma OwnFindingsAre(node: Node, location: string, f: Finding)
    ensures f in OwnFindings(node, location) <==> f.location == location && SaysOf(node, f)
  {
    var hash := OneIf(!IsHashed(node), InvalidSourceHash, location, Text(node.sourceHash));
    var missing := OneIf(node.transitiveUses.None?, MissingUses, location, Nothing);
    var uses := UseFindings(UsesOf(node), location);
    var nolist := OneIf(node.workflows.NotAList?, MissingWorkflows, location, Nothing);
    var strays := StrayFindings(ItemsOf(node), location);
    var mismatch := OneIf(RecordedUses(ItemsOf(node)) != ReusableUses(UsesOf(node)), ClosureMismatch, location,
                          CountersOf(node));
    UseFindingsAre(UsesOf(node), location, f);
    StrayFindingsAre(ItemsOf(node), location, f);
    InSix(hash, missing, uses, nolist, strays, mismatch, f);
  }

  lemma InSix<T>(a: seq<T>, b: seq<T>, c: seq<T>, d: seq<T>, e: seq<T>, g: seq<T>, x: T)
    ensures x in a + b + c + d + e + g <==> x in a || x in b || x in c || x in d || x in e || x in g
  {}

  /** Below a node, an item's findings are placed behind an arrow and what the item uses. */
  predicate IsBelow(node: Node, location: string, item: Item, f: Finding) {
    && item in ItemsOf(node) && item.Record?
    && (|| (!IsPinned(item.node.uses) && f == Finding(MutableWorkflowRef, location, Text(item.node.uses)))
        || f in FindingsOf(item.node, location + " -> " + (if item.node.uses == "" then "<missing uses>"
                                                           else item.node.uses)))
  }

  lemma {:induction false} InItemsFindings(items: seq<Item>, location: string, f: Finding)
    ensures f in ItemsFindings(items, location) <==> exists item <- items :: f in ItemFindings(item, location)
    decreases items
  {
    if items != [] {
      var first, rest := ItemFindings(items[0], location), ItemsFindings(items[1..], location);
      InItemsFindings(items[1..], location, f);
      assert ItemsFindings(items, location) == first + rest;
      assert f in first + rest <==> f in first || f in rest;
      if f in first { assert items[0] in items; }
      if item :| item in items[1..] && f in ItemFindings(item, location) { assert item in items; }
      if item :| item in items && f in ItemFindings(item, location) { assert item == items[0] || item in items[1..]; }
    }
  }

  lemma ItemFindingIs(node: Node, location: string, item: Item, f: Finding)
    requires item in ItemsOf(node)
    ensures f in ItemFindings(item, location) <==> IsBelow(node, location, item, f)
  {}

  /** The findings are those about the node itself and those about its items, at all depths. */
  lemma FindingsAre(node: Node, location: string, f: Finding)
    ensures f in FindingsOf(node, location) <==>
            (f.location == location && SaysOf(node, f)) || exists item :: IsBelow(node, location, item, f)
  {
    OwnFindingsAre(node, location, f);
    InItemsFindings(ItemsOf(node), location, f);
    forall item | item in ItemsOf(node)
      ensures f in ItemFindings(item, location) <==> IsBelow(node, location, item, f)
    {
      ItemFindingIs(node, location, item, f);
    }
    assert f in FindingsOf(node, location) <==>
             f in OwnFindings(node, location) || f in ItemsFindings(ItemsOf(node), location);
  }

  /** Every finding's place starts with the place of the whole record. */
  lemma {:induction false} FindingsArePlaced(node: Node, location: string, f: Finding)
    requires f in FindingsOf(node, location)
    ensures location <= f.location
    decreases node, 2
  {
    OwnFindingsAre(node, location, f);
    if f !in OwnFindings(node, location) { ItemsFindingsArePlaced(node.workflows.items, location, f); }
  }

  lemma {:induction false} ItemFindingsArePlaced(item: Item, location: string, f: Finding)
    requires f in ItemFindings(item, location)
    ensures location <= f.location
    decreases item, 0
  {
    var below := Below(location, item.node);
    if f in FindingsOf(item.node, below) {
      FindingsArePlaced(item.node, below, f);
      assert location <= below <= f.location;
    }
  }

  lemma {:induction false} ItemsFindingsArePlaced(items: seq<Item>, location: string, f: Finding)
    requires f in ItemsFindings(items, location)
    ensures location <= f.location
    decreases items, 1
  {
    if f in ItemFindings(items[0], location) {
      ItemFindingsArePlaced(items[0], location, f);
    } else {
      ItemsFindingsArePlaced(items[1..], location, f);
    }
  }
}
