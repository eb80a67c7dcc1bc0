/**
 The recorded closure of a reusable workflow (scripts/ci/check_reusable_workflow_contracts.py):
 every node must carry a content hash, pin all its uses, and record each reusable workflow it uses.
 */
module WorkflowInventory {
  import opened Wrappers

  /** One node of the record; an item that is not a mapping is `Stray`. */
  datatype Node = Node(uses: string, sourceHash: string, transitiveUses: Option<seq<string>>, workflows: Workflows)

  datatype Workflows = NotAList | Items(items: seq<Item>)

  datatype Item = Stray | Record(node: Node)

  datatype Code =
    | InvalidSourceHash
    | MissingUses
    | MutableActionRef
    | MissingWorkflows
    | InvalidWorkflowEntry
    | ClosureMismatch
    | MutableWorkflowRef

  /** What a finding is about: a hash or reference, the position of an item, or the two counters. */
  datatype Subject =
    | Nothing
    | Text(text: string)
    | Position(index: nat)
    | Counters(required: multiset<string>, recorded: multiset<string>)

  datatype Finding = Finding(code: Code, location: string, subject: Subject)

  // ----- references -----

  predicate IsHex(s: string) { forall c <- s :: '0' <= c <= '9' || 'a' <= c <= 'f' }

  /** The position of the last `@`, or the length. */
  function LastAt(value: string): (k: nat)
    ensures k <= |value|
    ensures k < |value| ==> value[k] == '@' && '@' !in value[k + 1..]
    ensures k == |value| ==> '@' !in value
  {
    if value == "" then 0
    else
      var k := LastAt(value[1..]);
      if k < |value| - 1 then k + 1 else if value[0] == '@' then 0 else |value|
  }

  function Revision(value: string): string {
    var k := LastAt(value);
    if k < |value| then value[k + 1..] else ""
  }

  predicate IsPinned(value: string) { |Revision(value)| == 40 && IsHex(Revision(value)) }

  const WORKFLOW_DIR := "/.github/workflows/"

  predicate Contains(s: string, piece: string) {
    piece <= s || (s != "" && Contains(s[1..], piece))
  }

  predicate IsReusable(value: string) { Contains(value[..LastAt(value)], WORKFLOW_DIR) }

  predicate IsHashed(node: Node) { |node.sourceHash| == 64 && IsHex(node.sourceHash) }

  // ----- what a node declares and what it records -----

  function UsesOf(node: Node): seq<string> {
    if node.transitiveUses.None? then [] else node.transitiveUses.value
  }

  function ReusableUses(uses: seq<string>): multiset<string> {
    if uses == [] then multiset{}
    else
      var last := uses[|uses| - 1];
      ReusableUses(uses[..|uses| - 1]) + (if IsReusable(last) then multiset{last} else multiset{})
  }

  function ItemsOf(node: Node): seq<Item> {
    if node.workflows.NotAList? then [] else node.workflows.items
  }

  function RecordedUses(items: seq<Item>): multiset<string> {
    if items == [] then multiset{}
    else
      var last := items[|items| - 1];
      RecordedUses(items[..|items| - 1]) + (if last.Record? then multiset{last.node.uses} else multiset{})
  }

  predicate HasMutable(uses: seq<string>) { exists u <- uses :: !IsPinned(u) }

  /** The node itself breaks the rule of the code. */
  predicate Breaks(node: Node, code: Code) {
    match code
    case InvalidSourceHash => !IsHashed(node)
    case MissingUses => node.transitiveUses.None?
    case MutableActionRef => HasMutable(UsesOf(node))
    case MissingWorkflows => node.workflows.NotAList?
    case InvalidWorkflowEntry => Stray in ItemsOf(node)
    case ClosureMismatch => RecordedUses(ItemsOf(node)) != ReusableUses(UsesOf(node))
    case MutableWorkflowRef => exists item <- ItemsOf(node) :: item.Record? && !IsPinned(item.node.uses)
  }

  /** `m` is the node or recorded somewhere below it. */
  ghost predicate IsWithin(m: Node, node: Node)
    decreases node
  {
    m == node
    || (node.workflows.Items? && exists item <- node.workflows.items :: item.Record? && IsWithin(m, item.node))
  }

  /** The record is closed: no node of it, at any depth, breaks any rule. */
  ghost predicate IsClosed(node: Node) {
    forall m, code :: IsWithin(m, node) ==> !Breaks(m, code)
  }

  function Codes(findings: seq<Finding>): set<Code> { set f | f in findings :: f.code }

  ghost predicate BreaksWithin(node: Node, code: Code) {
    exists m :: IsWithin(m, node) && Breaks(m, code)
  }

  /** A break below the node is its own or one of a recorded child's. */
  lemma BreaksWithinIff(node: Node, code: Code)
    ensures BreaksWithin(node, code) <==>
            Breaks(node, code) || exists item <- ItemsOf(node) :: item.Record? && BreaksWithin(item.node, code)
  {
    if BreaksWithin(node, code) {
      var m :| IsWithin(m, node) && Breaks(m, code);
      if m != node {
        var item :| item in ItemsOf(node) && item.Record? && IsWithin(m, item.node);
        assert BreaksWithin(item.node, code);
      }
    }
    if Breaks(node, code) { assert IsWithin(node, node); }
    if exists item <- ItemsOf(node) :: item.Record? && BreaksWithin(item.node, code) {
      var item :| item in ItemsOf(node) && item.Record? && BreaksWithin(item.node, code);
      var m :| IsWithin(m, item.node) && Breaks(m, code);
      assert IsWithin(m, node);
    }
  }

  lemma ClosedIff(node: Node)
    ensures IsClosed(node) <==> forall code :: !BreaksWithin(node, code)
  {
    if forall code :: !BreaksWithin(node, code) {
      forall m, code | IsWithin(m, node) ensures !Breaks(m, code) { assert !BreaksWithin(node, code); }
    }
  }

  // ----- the findings -----

  function OneIf(broken: bool, code: Code, location: string, subject: Subject): seq<Finding> {
    if broken then [Finding(code, location, subject)] else []
  }

  /** One finding for each use that is not pinned. */
  function UseFindings(uses: seq<string>, location: string): seq<Finding> {
    if uses == [] then []
    else
      var last := uses[|uses| - 1];
      UseFindings(uses[..|uses| - 1], location) + OneIf(!IsPinned(last), MutableActionRef, location, Text(last))
  }

  /** One finding for each item that is not a mapping. */
  function StrayFindings(items: seq<Item>, location: string): seq<Finding> {
    if items == [] then []
    else
      StrayFindings(items[..|items| - 1], location)
      + OneIf(items[|items| - 1].Stray?, InvalidWorkflowEntry, location, Position(|items| - 1))
  }

  function CountersOf(node: Node): Subject { Counters(ReusableUses(UsesOf(node)), RecordedUses(ItemsOf(node))) }

  /** The findings about the node itself. */
  function OwnFindings(node: Node, location: string): seq<Finding> {
    OneIf(!IsHashed(node), InvalidSourceHash, location, Text(node.sourceHash))
    + OneIf(node.transitiveUses.None?, MissingUses, location, Nothing)
    + UseFindings(UsesOf(node), location)
    + OneIf(node.workflows.NotAList?, MissingWorkflows, location, Nothing)
    + StrayFindings(ItemsOf(node), location)
    + OneIf(RecordedUses(ItemsOf(node)) != ReusableUses(UsesOf(node)), ClosureMismatch, location, CountersOf(node))
  }

  function Below(location: string, child: Node): string {
    location + " -> " + (if child.uses == "" then "<missing uses>" else child.uses)
  }

  /** The findings about an item's reference, and all those below it. */
  function ItemFindings(item: Item, location: string): seq<Finding>
    decreases item, 0
  {
    if item.Stray? then []
    else
      OneIf(!IsPinned(item.node.uses), MutableWorkflowRef, location, Text(item.node.uses))
      + FindingsOf(item.node, Below(location, item.node))
  }

  function ItemsFindings(items: seq<Item>, location: string): seq<Finding>
    decreases items, 1
  {
    if items == [] then [] else ItemFindings(items[0], location) + ItemsFindings(items[1..], location)
  }

  function FindingsOf(node: Node, location: string): seq<Finding>
    decreases node, 2
  {
    OwnFindings(node, location)
    + (if node.workflows.Items? then ItemsFindings(node.workflows.items, location) else [])
  }

  // ----- which codes they carry -----

  lemma CodesOfBoth(findings: seq<Finding>, more: seq<Finding>, code: Code)
    ensures code in Codes(findings + more) <==> code in Codes(findings) || code in Codes(more)
  {
    if code in Codes(findings) || code in Codes(more) {
      var f :| (f in findings || f in more) && f.code == code;
      assert f in findings + more;
    }
  }

  lemma CodesOfOne(broken: bool, code: Code, location: string, subject: Subject, c: Code)
    ensures c in Codes(OneIf(broken, code, location, subject)) <==> broken && c == code
  {
    if broken { assert OneIf(broken, code, location, subject)[0] in OneIf(broken, code, location, subject); }
  }

  lemma {:induction false} CodesOfUses(uses: seq<string>, location: string, code: Code)
    ensures code in Codes(UseFindings(uses, location)) <==> code == MutableActionRef && HasMutable(uses)
  {
    if uses != [] {
      var front, last := uses[..|uses| - 1], uses[|uses| - 1];
      assert uses == front + [last];
      CodesOfUses(front, location, code);
      CodesOfOne(!IsPinned(last), MutableActionRef, location, Text(last), code);
      CodesOfBoth(UseFindings(front, location), OneIf(!IsPinned(last), MutableActionRef, location, Text(last)), code);
    }
  }

  lemma {:induction false} CodesOfStrays(items: seq<Item>, location: string, code: Code)
    ensures code in Codes(StrayFindings(items, location)) <==> code == InvalidWorkflowEntry && Stray in items
  {
    if items != [] {
      var front, last := items[..|items| - 1], items[|items| - 1];
      assert items == front + [last];
      CodesOfStrays(front, location, code);
      CodesOfOne(last.Stray?, InvalidWorkflowEntry, location, Position(|items| - 1), code);
      CodesOfBoth(StrayFindings(front, location),
                  OneIf(last.Stray?, InvalidWorkflowEntry, location, Position(|items| - 1)), code);
    }
  }

  /** The node's own findings carry the codes of the rules that it breaks, but for its items' references. */
  lemma OwnCodesIff(node: Node, location: string, code: Code)
    ensures code in Codes(OwnFindings(node, location)) <==> code != MutableWorkflowRef && Breaks(node, code)
  {
    var hash := OneIf(!IsHashed(node), InvalidSourceHash, location, Text(node.sourceHash));
    var missing := OneIf(node.transitiveUses.None?, MissingUses, location, Nothing);
    var uses := UseFindings(UsesOf(node), location);
    var nolist := OneIf(node.workflows.NotAList?, MissingWorkflows, location, Nothing);
    var strays := StrayFindings(ItemsOf(node), location);
    var mismatch := RecordedUses(ItemsOf(node)) != ReusableUses(UsesOf(node));
    CodesOfOne(!IsHashed(node), InvalidSourceHash, location, Text(node.sourceHash), code);
    CodesOfOne(node.transitiveUses.None?, MissingUses, location, Nothing, code);
    CodesOfUses(UsesOf(node), location, code);
    CodesOfOne(node.workflows.NotAList?, MissingWorkflows, location, Nothing, code);
    CodesOfStrays(ItemsOf(node), location, code);
    CodesOfOne(mismatch, ClosureMismatch, location, CountersOf(node), code);
    CodesOfBoth(hash, missing, code);
    CodesOfBoth(hash + missing, uses, code);
    CodesOfBoth(hash + missing + uses, nolist, code);
    CodesOfBoth(hash + missing + uses + nolist, strays, code);
    CodesOfBoth(hash + missing + uses + nolist + strays,
                OneIf(mismatch, ClosureMismatch, location, CountersOf(node)), code);
  }

  /** The codes that one item adds. */
  ghost predicate ItemBreaks(item: Item, code: Code) {
    item.Record? && ((code == MutableWorkflowRef && !IsPinned(item.node.uses)) || BreaksWithin(item.node, code))
  }

  lemma {:induction false} ItemCodesIff(item: Item, location: string, code: Code)
    ensures code in Codes(ItemFindings(item, location)) <==> ItemBreaks(item, code)
    decreases item, 0
  {
    if item.Record? {
      var ref := OneIf(!IsPinned(item.node.uses), MutableWorkflowRef, location, Text(item.node.uses));
      CodesOfOne(!IsPinned(item.node.uses), MutableWorkflowRef, location, Text(item.node.uses), code);
      CodesOfBoth(ref, FindingsOf(item.node, Below(location, item.node)), code);
      ReportedIff(item.node, Below(location, item.node), code);
    }
  }

  lemma {:induction false} ItemsCodesIff(items: seq<Item>, location: string, code: Code)
    ensures code in Codes(ItemsFindings(items, location)) <==> exists item <- items :: ItemBreaks(item, code)
    decreases items, 1
  {
    if items != [] {
      ItemCodesIff(items[0], location, code);
      ItemsCodesIff(items[1..], location, code);
      CodesOfBoth(ItemFindings(items[0], location), ItemsFindings(items[1..], location), code);
      assert items == [items[0]] + items[1..];
    }
  }

  /** A code is reported exactly when a node at some depth breaks its rule. */
  lemma {:induction false} ReportedIff(node: Node, location: string, code: Code)
    ensures code in Codes(FindingsOf(node, location)) <==> BreaksWithin(node, code)
    decreases node, 2
  {
    OwnCodesIff(node, location, code);
    BreaksWithinIff(node, code);
    if node.workflows.Items? {
      ItemsCodesIff(node.workflows.items, location, code);
      CodesOfBoth(OwnFindings(node, location), ItemsFindings(node.workflows.items, location), code);
    } else {
      assert OwnFindings(node, location) + [] == OwnFindings(node, location);
    }
  }

  /** So there are no findings exactly when the whole record is closed. */
  lemma NoFindingsIffClosed(node: Node, location: string)
    ensures FindingsOf(node, location) == [] <==> IsClosed(node)
  {
    var findings := FindingsOf(node, location);
    ClosedIff(node);
    forall code ensures code in Codes(findings) <==> BreaksWithin(node, code) { ReportedIff(node, location, code); }
    assert findings != [] ==> findings[0].code in Codes(findings);
  }

  // ----- the check as the program performs it -----

  method CheckUses(uses: seq<string>, location: string) returns (findings: seq<Finding>)
    ensures findings == UseFindings(uses, location)
  {
    findings := [];
    for i := 0 to |uses|
      invariant findings == UseFindings(uses[..i], location)
    {
      assert uses[..i + 1][..i] == uses[..i];
      if !IsPinned(uses[i]) { findings := findings + [Finding(MutableActionRef, location, Text(uses[i]))]; }
    }
    assert uses[..|uses|] == uses;
  }

  method CheckItemShapes(items: seq<Item>, location: string) returns (findings: seq<Finding>)
    ensures findings == StrayFindings(items, location)
  {
    findings := [];
    for i := 0 to |items|
      invariant findings == StrayFindings(items[..i], location)
    {
      assert items[..i + 1][..i] == items[..i];
      if items[i].Stray? { findings := findings + [Finding(InvalidWorkflowEntry, location, Position(i))]; }
    }
    assert items[..|items|] == items;
  }

  /** The multiset of the uses that name reusable workflows. */
  method CountReusable(uses: seq<string>) returns (counter: multiset<string>)
    ensures counter == ReusableUses(uses)
  {
    counter := multiset{};
    for i := 0 to |uses|
      invariant counter == ReusableUses(uses[..i])
    {
      assert uses[..i + 1][..i] == uses[..i];
      if IsReusable(uses[i]) { counter := counter + multiset{uses[i]}; }
    }
    assert uses[..|uses|] == uses;
  }

  method CountRecorded(items: seq<Item>) returns (counter: multiset<string>)
    ensures counter == RecordedUses(items)
  {
    counter := multiset{};
    for i := 0 to |items|
      invariant counter == RecordedUses(items[..i])
    {
      assert items[..i + 1][..i] == items[..i];
      if items[i].Record? { counter := counter + multiset{items[i].node.uses}; }
    }
    assert items[..|items|] == items;
  }

  method ReportIf(findings: seq<Finding>, broken: bool, code: Code, location: string, subject: Subject)
      returns (after: seq<Finding>)
    ensures after == findings + OneIf(broken, code, location, subject)
  {
    after := if broken then findings + [Finding(code, location, subject)] else findings;
  }

  method CheckNode(node: Node, location: string) returns (findings: seq<Finding>)
    ensures findings == OwnFindings(node, location)
  {
    findings := ReportIf([], !IsHashed(node), InvalidSourceHash, location, Text(node.sourceHash));
    assert findings == OneIf(!IsHashed(node), InvalidSourceHash, location, Text(node.sourceHash));
    findings := ReportIf(findings, node.transitiveUses.None?, MissingUses, location, Nothing);
    var mutable := CheckUses(UsesOf(node), location);
    findings := ReportIf(findings + mutable, node.workflows.NotAList?, MissingWorkflows, location, Nothing);
    var strays := CheckItemShapes(ItemsOf(node), location);
    var required := CountReusable(UsesOf(node));
    var recorded := CountRecorded(ItemsOf(node));
    findings := ReportIf(findings + strays, recorded != required, ClosureMismatch, location,
                         Counters(required, recorded));
  }

  method CheckItem(item: Item, location: string) returns (findings: seq<Finding>)
    ensures findings == ItemFindings(item, location)
    decreases item, 0
  {
    findings := [];
    if item.Record? {
      if !IsPinned(item.node.uses) { findings := [Finding(MutableWorkflowRef, location, Text(item.node.uses))]; }
      var below := InventoryFindings(item.node, Below(location, item.node));
      findings := findings + below;
    }
  }

  lemma ItemsStep(findings: seq<Finding>, items: seq<Item>, i: nat, location: string)
    requires i < |items|
    ensures findings + ItemsFindings(items[i..], location)
         == (findings + ItemFindings(items[i], location)) + ItemsFindings(items[i + 1..], location)
  {
    assert items[i..][0] == items[i] && items[i..][1..] == items[i + 1..];
  }

  method InventoryFindings(node: Node, location: string) returns (findings: seq<Finding>)
    ensures findings == FindingsOf(node, location)
    ensures findings == [] <==> IsClosed(node)
    decreases node, 1
  {
    NoFindingsIffClosed(node, location);
    findings := CheckNode(node, location);
    var items := ItemsOf(node);
    for i := 0 to |items|
      invariant findings + ItemsFindings(items[i..], location) == FindingsOf(node, location)
    {
      ItemsStep(findings, items, i, location);
      var more := CheckItem(items[i], location);
      findings := findings + more;
    }
    assert findings + [] == findings;
  }

  // ----- what a closed record gives -----

  lemma {:induction false} WithinIsTransitive(a: Node, b: Node, c: Node)
    requires IsWithin(a, b) && IsWithin(b, c)
    ensures IsWithin(a, c)
    decreases c
  {
    if b != c {
      var item :| item in c.workflows.items && item.Record? && IsWithin(b, item.node);
      WithinIsTransitive(a, b, item.node);
    }
  }

  lemma {:induction false} ReusableIsCounted(uses: seq<string>, u: string)
    ensures u in ReusableUses(uses) <==> u in uses && IsReusable(u)
  {
    if uses != [] { ReusableIsCounted(uses[..|uses| - 1], u); }
  }

  lemma {:induction false} RecordedIsCounted(items: seq<Item>, u: string)
    ensures u in RecordedUses(items) <==> exists item <- items :: item.Record? && item.node.uses == u
  {
    if items != [] { RecordedIsCounted(items[..|items| - 1], u); }
  }

  /** In a closed record, every reusable workflow that any recorded node uses has a hashed record below it. */
  lemma UsedWorkflowIsRecorded(root: Node, m: Node, u: string) returns (c: Node)
    requires IsClosed(root) && IsWithin(m, root) && u in UsesOf(m) && IsReusable(u)
    ensures IsWithin(c, root) && c.uses == u && IsHashed(c) && IsPinned(u)
    ensures Record(c) in ItemsOf(m)
  {
    assert !Breaks(m, ClosureMismatch) && !Breaks(m, MutableWorkflowRef);
    ReusableIsCounted(UsesOf(m), u);
    RecordedIsCounted(ItemsOf(m), u);
    var item :| item in ItemsOf(m) && item.Record? && item.node.uses == u;
    c := item.node;
    assert IsWithin(c, c) && IsWithin(c, m);
    WithinIsTransitive(c, m, root);
    assert !Breaks(c, InvalidSourceHash);
  }

  /**
   A chain of uses: each names a reusable workflow that the record of the one before it uses.  Where
   several records bear the name, the chain goes on through one of them.
   */
  ghost predicate IsUseChain(node: Node, chain: seq<string>)
    decreases |chain|
  {
    chain == []
    || (chain[0] in UsesOf(node) && IsReusable(chain[0])
        && (|chain| == 1 || exists item <- ItemsOf(node) ::
              item.Record? && item.node.uses == chain[0] && IsUseChain(item.node, chain[1..])))
  }

  /** However long the chain, the workflow at its end has a hashed record. */
  lemma {:induction false} ChainIsRecorded(root: Node, m: Node, chain: seq<string>) returns (c: Node)
    requires IsClosed(root) && IsWithin(m, root) && IsUseChain(m, chain) && chain != []
    ensures IsWithin(c, root) && c.uses == chain[|chain| - 1] && IsHashed(c) && IsPinned(c.uses)
    decreases |chain|
  {
    if |chain| == 1 {
      c := UsedWorkflowIsRecorded(root, m, chain[0]);
    } else {
      var item :| item in ItemsOf(m) && item.Record? && item.node.uses == chain[0]
                  && IsUseChain(item.node, chain[1..]);
      assert IsWithin(item.node, item.node) && IsWithin(item.node, m);
      WithinIsTransitive(item.node, m, root);
      c := ChainIsRecorded(root, item.node, chain[1..]);
    }
  }
}
