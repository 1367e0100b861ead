/** The mutable tree of `proof_tree.py`: node objects that refer to node objects, and the merge that inserts
    into and appends to their item lists in place. `Shape` names the tree that the heap holds at a node, and
    the objects at its sites; two shapes whose objects are apart cannot disturb each other. */
module ProofTree {
  import opened Wire
  import opened Tree
  import opened Merge
  import opened Idempotence

  class Node {
    var items: seq<Slot>

    constructor (items: seq<Slot>)
      ensures this.items == items
    {
      this.items := items;
    }
  }

  datatype Slot =
    | Note(tag: Bytes, payload: Bytes)
    | Link(operation: Bytes, child: Node)

  type Shape = Tree<Node>

  function SlotOf(item: Item<Node>): Slot {
    match item
    case Attestation(tag, payload) => Note(tag, payload)
    case Branch(operation, child) => Link(operation, child.site)
  }

  /** The node objects of a shape. */
  ghost function Objects(g: Shape): set<Node>
    decreases g, 0
  {
    {g.site} + set i, n | 0 <= i < |g.items| && n in ItemObjects(g.items[i]) :: n
  }

  ghost function ItemObjects(item: Item<Node>): set<Node>
    decreases item, 1
  {
    match item
    case Attestation(_, _) => {}
    case Branch(_, child) => Objects(child)
  }

  /** No node object occurs below two items. */
  ghost predicate Apart(items: seq<Item<Node>>) {
    forall i, j :: 0 <= i < j < |items| ==> ItemObjects(items[i]) !! ItemObjects(items[j])
  }

  /** The heap holds exactly this tree at `g.site`, and no node object occurs twice in it. */
  ghost predicate Holds(g: Shape)
    reads Objects(g)
    decreases g, 0
  {
    && |g.site.items| == |g.items|
    && (forall i :: 0 <= i < |g.items| ==> g.site.items[i] == SlotOf(g.items[i]))
    && (forall i :: 0 <= i < |g.items| ==> g.site !in ItemObjects(g.items[i]))
    && Apart(g.items)
    && (forall i :: 0 <= i < |g.items| ==> HoldsItem(g.items[i]))
  }

  ghost predicate HoldsItem(item: Item<Node>)
    reads ItemObjects(item)
    decreases item, 1
  {
    match item
    case Attestation(_, _) => true
    case Branch(_, child) => Holds(child)
  }

  // ----- in-place merge -----

  function Notes(items: seq<Slot>): set<Claim> {
    set i | 0 <= i < |items| && items[i].Note? :: Claim(items[i].tag, items[i].payload)
  }

  function CountNotes(items: seq<Slot>): (n: nat)
    ensures n <= |items|
  {
    if items == [] then 0
    else CountNotes(items[..|items| - 1]) + if items[|items| - 1].Note? then 1 else 0
  }

  /** The two lookup tables of `merge_node` describe this item list. */
  ghost predicate Indexed(existing: set<Claim>, branches: map<Bytes, Node>, items: seq<Item<Node>>) {
    && (forall c :: c in existing <==> HasAttestation(items, c))
    && (forall op :: op in branches <==> LastChild(items, op).Some?)
    && (forall op :: op in branches ==> branches[op] == LastChild(items, op).value.site)
  }

  lemma NotesMatch(slots: seq<Slot>, items: seq<Item<Node>>)
    requires |slots| == |items| && forall i :: 0 <= i < |items| ==> slots[i] == SlotOf(items[i])
    ensures CountNotes(slots) == CountAttestations(items)
    ensures forall c :: c in Notes(slots) <==> HasAttestation(items, c)
  {
    forall c | HasAttestation(items, c) ensures c in Notes(slots) {
      var i :| 0 <= i < |items| && items[i].Attestation? && Claim(items[i].tag, items[i].payload) == c;
      assert slots[i].Note? && Claim(slots[i].tag, slots[i].payload) == c;
    }
    forall c | c in Notes(slots) ensures HasAttestation(items, c) {
      var i :| 0 <= i < |slots| && slots[i].Note? && Claim(slots[i].tag, slots[i].payload) == c;
      assert items[i].Attestation?;
    }
    if items != [] {
      NotesMatch(slots[..|slots| - 1], items[..|items| - 1]);
    }
  }

  /** The dictionary comprehension over a node's branches: a later branch replaces an earlier one. */
  function LinksByOperation(slots: seq<Slot>): map<Bytes, Node> {
    if slots == [] then map[]
    else
      var table := LinksByOperation(slots[..|slots| - 1]);
      var last := slots[|slots| - 1];
      if last.Link? then table[last.operation := last.child] else table
  }

  lemma {:induction false} LinksMatch(slots: seq<Slot>, items: seq<Item<Node>>)
    requires |slots| == |items| && forall i :: 0 <= i < |items| ==> slots[i] == SlotOf(items[i])
    ensures forall op :: op in LinksByOperation(slots) <==> LastChild(items, op).Some?
    ensures forall op :: op in LinksByOperation(slots)
              ==> LinksByOperation(slots)[op] == LastChild(items, op).value.site
  {
    if items != [] {
      LinksMatch(slots[..|slots| - 1], items[..|items| - 1]);
    }
  }

  /** One merged item keeps the tables in step with the node. */
  lemma IndexedAfterNote(existing: set<Claim>, branches: map<Bytes, Node>, cur: Shape, item: Item<Node>)
    requires Indexed(existing, branches, cur.items) && item.Attestation?
    ensures Indexed(existing + {Claim(item.tag, item.payload)}, branches, MergeItem(cur, item).items)
  {
    forall c { MergeItemKeepsAttestation(cur, item, c); }
    forall op { MergeItemLookup(cur, item, op); }
  }

  lemma IndexedAfterLink(existing: set<Claim>, branches: map<Bytes, Node>, after: map<Bytes, Node>,
                         cur: Shape, item: Item<Node>)
    requires Indexed(existing, branches, cur.items) && item.Branch?
    requires after == if item.operation in branches then branches else branches[item.operation := item.child.site]
    ensures Indexed(existing, after, MergeItem(cur, item).items)
  {
    forall c { MergeItemKeepsAttestation(cur, item, c); }
    forall op ensures op in after <==> LastChild(MergeItem(cur, item).items, op).Some?
              ensures op in after ==> after[op] == LastChild(MergeItem(cur, item).items, op).value.site
    {
      MergeItemLookup(cur, item, op);
    }
  }

  function Spliced<T>(s: seq<T>, n: nat, x: T): seq<T>
    requires n <= |s|
  {
    s[..n] + [x] + s[n..]
  }

  /** `target.items.insert(n, item)`. */
  method Insert(target: Node, n: nat, slot: Slot, ghost cur: Shape, ghost item: Item<Node>)
    requires cur.site == target && Holds(cur) && n <= |cur.items|
    requires slot == SlotOf(item) && HoldsItem(item) && ItemObjects(item) !! Objects(cur)
    modifies target
    ensures target.items == Spliced(old(target.items), n, slot)
    ensures Holds(cur.(items := Spliced(cur.items, n, item)))
    ensures Objects(cur.(items := Spliced(cur.items, n, item))) == Objects(cur) + ItemObjects(item)
  {
    hide Apart;
    target.items := target.items[..n] + [slot] + target.items[n..];
    ghost var items := Spliced(cur.items, n, item);
    forall i | 0 <= i < |items| ensures HoldsItem(items[i]) && target !in ItemObjects(items[i]) {
      assert items[i] == if i < n then cur.items[i] else if i == n then item else cur.items[i - 1];
    }
    SplicedApart(cur, n, item);
    SplicedObjects(cur, n, item);
  }

  lemma ItemInside(g: Shape, i: nat)
    requires i < |g.items|
    ensures ItemObjects(g.items[i]) <= Objects(g)
  {
  }

  lemma SplicedApart(cur: Shape, n: nat, item: Item<Node>)
    requires n <= |cur.items| && Apart(cur.items) && ItemObjects(item) !! Objects(cur)
    ensures Apart(Spliced(cur.items, n, item))
  {
    hide Objects, ItemObjects;
    var items := Spliced(cur.items, n, item);
    forall i, j | 0 <= i < j < |items| ensures ItemObjects(items[i]) !! ItemObjects(items[j]) {
      if i == n {
        ItemInside(cur, j - 1);
        assert items[j] == cur.items[j - 1];
      } else if j == n {
        ItemInside(cur, i);
        assert items[i] == cur.items[i];
      } else {
        var i', j' := if i < n then i else i - 1, if j < n then j else j - 1;
        assert items[i] == cur.items[i'] && items[j] == cur.items[j'];
        assert ItemObjects(cur.items[i']) !! ItemObjects(cur.items[j']);
      }
    }
  }

  lemma SplicedObjects(cur: Shape, n: nat, item: Item<Node>)
    requires n <= |cur.items|
    ensures Objects(cur.(items := Spliced(cur.items, n, item))) == Objects(cur) + ItemObjects(item)
  {
    var items := Spliced(cur.items, n, item);
    assert forall i :: 0 <= i < |cur.items| ==> items[if i < n then i else i + 1] == cur.items[i];
    assert items[n] == item;
    forall o | o in Objects(cur) ensures o in Objects(cur.(items := items)) {
      if o != cur.site {
        var i :| 0 <= i < |cur.items| && o in ItemObjects(cur.items[i]);
        assert o in ItemObjects(items[if i < n then i else i + 1]);
      }
    }
    forall o | o in Objects(cur.(items := items)) ensures o in Objects(cur) + ItemObjects(item) {
      if o != cur.site {
        var i :| 0 <= i < |items| && o in ItemObjects(items[i]);
        assert items[i] == if i < n then cur.items[i] else if i == n then item else cur.items[i - 1];
      }
    }
  }

  ghost function Replaced(cur: Shape, k: nat, child: Shape): Shape
    requires k < |cur.items| && cur.items[k].Branch?
  {
    cur.(items := cur.items[k := Branch(cur.items[k].operation, child)])
  }

  lemma ReplacedObjects(cur: Shape, k: nat, child: Shape, extra: set<Node>)
    requires k < |cur.items| && cur.items[k].Branch? && Apart(cur.items) && extra !! Objects(cur)
    requires Objects(child) <= Objects(cur.items[k].child) + extra
    requires forall i :: 0 <= i < |cur.items| ==> cur.site !in ItemObjects(cur.items[i])
    ensures Apart(Replaced(cur, k, child).items) && Objects(Replaced(cur, k, child)) <= Objects(cur) + extra
    ensures forall i :: 0 <= i < |cur.items| ==> cur.site !in ItemObjects(Replaced(cur, k, child).items[i])
  {
    var after := Replaced(cur, k, child);
    assert forall i :: 0 <= i < |cur.items| ==> ItemObjects(cur.items[i]) <= Objects(cur);
    assert forall i :: 0 <= i < |cur.items| ==>
      ItemObjects(after.items[i]) <= ItemObjects(cur.items[i]) + if i == k then extra else {};
    forall i, j | 0 <= i < j < |after.items| ensures ItemObjects(after.items[i]) !! ItemObjects(after.items[j]) {
      assert ItemObjects(cur.items[i]) !! ItemObjects(cur.items[j]);
    }
  }

  /** Branch `k` of a held shape can be edited without touching anything else of it. */
  lemma BranchIsSeparate(cur: Shape, k: nat, extra: set<Node>)
    requires k < |cur.items| && cur.items[k].Branch? && Holds(cur) && extra !! Objects(cur)
    ensures Holds(cur.items[k].child) && Objects(cur.items[k].child) <= Objects(cur)
    ensures cur.site !in Objects(cur.items[k].child) + extra
    ensures forall i :: 0 <= i < |cur.items| && i != k
              ==> ItemObjects(cur.items[i]) !! Objects(cur.items[k].child) + extra
  {
    assert HoldsItem(cur.items[k]) && ItemObjects(cur.items[k]) == Objects(cur.items[k].child);
    assert forall i :: 0 <= i < |cur.items| ==> ItemObjects(cur.items[i]) <= Objects(cur);
    forall i | 0 <= i < |cur.items| && i != k
      ensures ItemObjects(cur.items[i]) !! Objects(cur.items[k].child) + extra
    {
      assert i < k ==> ItemObjects(cur.items[i]) !! ItemObjects(cur.items[k]);
      assert k < i ==> ItemObjects(cur.items[k]) !! ItemObjects(cur.items[i]);
    }
  }

  /** What is left to merge: later items of the source, untouched and apart from the target. */
  ghost predicate Remaining(items: seq<Item<Node>>, from: nat, cur: Shape)
    reads set i, o | 0 <= i < |items| && o in ItemObjects(items[i]) :: o
  {
    && Apart(items)
    && forall j :: from <= j < |items| ==> HoldsItem(items[j]) && ItemObjects(items[j]) !! Objects(cur)
  }

  lemma SourceIsRemaining(g: Shape, s: Shape)
    requires Holds(s) && Objects(g) !! Objects(s)
    ensures Remaining(s.items, 0, g)
    ensures forall j :: 0 <= j < |s.items| ==> ItemObjects(s.items[j]) <= Objects(s) - {s.site}
  {
    forall j | 0 <= j < |s.items| ensures ItemObjects(s.items[j]) <= Objects(s) {
      ItemInside(s, j);
    }
  }

  /** `merge_node`: afterwards the target object holds the merged tree, built from the target's own
      nodes and, for the branches it lacked, the source's. */
  method MergeNode(target: Node, source: Node, ghost g: Shape, ghost s: Shape) returns (added: nat)
    requires g.site == target && s.site == source
    requires Holds(g) && Holds(s) && Objects(g) !! Objects(s)
    modifies Objects(g) + Objects(s) - {source}
    ensures Holds(MergeTrees(g, s))
    ensures Objects(MergeTrees(g, s)) <= Objects(g) + Objects(s) - {source}
    ensures added == MergeCount(g, s)
    decreases s, 1
  {
    added := 0;
    var existing := Notes(target.items);
    NotesMatch(target.items, g.items);
    var branches := LinksByOperation(target.items);
    LinksMatch(target.items, g.items);
    SourceIsRemaining(g, s);
    ghost var cur := g;
    hide MergeItem, CountItem, CountAttestations, CountNotes, HasAttestation, LastBranch;
    hide Holds, HoldsItem, Objects, ItemObjects, Indexed, Remaining;
    for i := 0 to |source.items|
      invariant cur == MergeItems(g, s.items[..i]) && added == CountItems(g, s.items[..i])
      invariant Holds(cur) && cur.site == target && Indexed(existing, branches, cur.items)
      invariant Objects(cur) <= Objects(g) + Objects(s) - {source}
      invariant |source.items| == |s.items| && forall j :: 0 <= j < |s.items| ==> source.items[j] == SlotOf(s.items[j])
      invariant Remaining(s.items, i, cur)
    {
      assert s.items[..i + 1][..i] == s.items[..i];
      var more;
      existing, branches, more := MergeNext(target, source.items[i], existing, branches, cur, s.items, i);
      added := added + more;
      cur := MergeItem(cur, s.items[i]);
    }
    assert s.items[..|source.items|] == s.items;
  }

  /** One turn of the loop of `merge_node`; the items still to come are not disturbed. */
  method MergeNext(target: Node, slot: Slot, existing: set<Claim>, branches: map<Bytes, Node>,
                   ghost cur: Shape, ghost items: seq<Item<Node>>, ghost i: nat)
    returns (existing': set<Claim>, branches': map<Bytes, Node>, added: nat)
    requires i < |items| && cur.site == target && slot == SlotOf(items[i])
    requires Holds(cur) && Remaining(items, i, cur) && Indexed(existing, branches, cur.items)
    modifies Objects(cur) + ItemObjects(items[i])
    ensures Holds(MergeItem(cur, items[i])) && Remaining(items, i + 1, MergeItem(cur, items[i]))
    ensures Objects(MergeItem(cur, items[i])) <= Objects(cur) + ItemObjects(items[i])
    ensures Indexed(existing', branches', MergeItem(cur, items[i]).items)
    ensures added == CountItem(cur, items[i])
    decreases items[i], 2
  {
    hide MergeItem, CountItem, Holds, HoldsItem, Objects, ItemObjects, Indexed;
    existing', branches', added := MergeSlot(target, slot, existing, branches, cur, items[i]);
    forall j | i < j < |items| ensures HoldsItem(items[j]) {
      assert old(allocated(ItemObjects(items[j])));
      assert ItemObjects(items[i]) !! ItemObjects(items[j]);
    }
  }

  /** An attestation is inserted if it is new; a branch is appended or merged into its namesake. */
  method MergeSlot(target: Node, slot: Slot, existing: set<Claim>, branches: map<Bytes, Node>,
                   ghost cur: Shape, ghost item: Item<Node>)
    returns (existing': set<Claim>, branches': map<Bytes, Node>, added: nat)
    requires cur.site == target && slot == SlotOf(item)
    requires Holds(cur) && HoldsItem(item) && ItemObjects(item) !! Objects(cur)
    requires Indexed(existing, branches, cur.items)
    modifies Objects(cur) + ItemObjects(item)
    ensures Holds(MergeItem(cur, item))
    ensures Objects(MergeItem(cur, item)) <= Objects(cur) + ItemObjects(item)
    ensures Indexed(existing', branches', MergeItem(cur, item).items)
    ensures added == CountItem(cur, item)
    decreases item, 1
  {
    existing', branches', added := existing, branches, 0;
    match slot
    case Note(tag, payload) =>
      IndexedAfterNote(existing, branches, cur, item);
      if Claim(tag, payload) !in existing {
        existing' := existing + {Claim(tag, payload)};
        NotesMatch(target.items, cur.items);
        Insert(target, CountNotes(target.items), slot, cur, item);
        added := 1;
      } else {
        assert existing + {Claim(tag, payload)} == existing;
      }
    case Link(operation, child) =>
      if operation !in branches {
        branches' := branches[operation := child];
        IndexedAfterLink(existing, branches, branches', cur, item);
        Insert(target, |target.items|, slot, cur, item);
        assert Spliced(cur.items, |cur.items|, item) == cur.items + [item];
        added := 1;
      } else {
        IndexedAfterLink(existing, branches, branches, cur, item);
        added := Descend(branches[operation], child, cur, LastBranch(cur.items, operation).value, item);
      }
  }

  /** Merging into the child below branch `k` leaves the rest of the tree as it was. */
  method Descend(into: Node, child: Node, ghost cur: Shape, ghost k: nat, ghost item: Item<Node>)
    returns (added: nat)
    requires k < |cur.items| && cur.items[k].Branch? && cur.items[k].child.site == into
    requires item.Branch? && item.child.site == child
    requires Holds(cur) && HoldsItem(item) && ItemObjects(item) !! Objects(cur)
    modifies Objects(cur.items[k].child) + Objects(item.child)
    ensures Holds(Replaced(cur, k, MergeTrees(cur.items[k].child, item.child)))
    ensures Objects(Replaced(cur, k, MergeTrees(cur.items[k].child, item.child))) <= Objects(cur) + ItemObjects(item)
    ensures added == MergeCount(cur.items[k].child, item.child)
    decreases item, 0
  {
    ghost var sub := cur.items[k].child;
    BranchIsSeparate(cur, k, Objects(item.child));
    added := MergeNode(into, child, sub, item.child);
    ghost var merged := MergeTrees(sub, item.child);
    ReplacedObjects(cur, k, merged, Objects(item.child));
    forall i | 0 <= i < |cur.items| ensures HoldsItem(Replaced(cur, k, merged).items[i]) {
      if i == k {
        assert HoldsItem(Branch(cur.items[k].operation, merged));
      } else {
        assert old(allocated(ItemObjects(cur.items[i])));
        assert HoldsItem(cur.items[i]);
      }
    }
  }
}
