/** The parser, the printer and the attestation listing of `proof_tree.py`, on node objects: what they build, print
    and list is what the functions on trees say, with the same errors at the same offsets. */
module Builder {
  import opened Wire
  import opened Tree
  import opened Grammar
  import opened MergeLaws
  import opened ProofTree

  // ----- parsing into node objects -----

  /** Freshly built slots holding these items. */
  ghost predicate HeldSlots(slots: seq<Slot>, items: seq<Item<Node>>)
    reads set i, o | 0 <= i < |items| && o in ItemObjects(items[i]) :: o
  {
    && |slots| == |items|
    && (forall i :: 0 <= i < |items| ==> slots[i] == SlotOf(items[i]) && HoldsItem(items[i]))
    && Apart(items)
  }

  /** The outcome of building matches the outcome of parsing. */
  ghost predicate BuiltNode(r: Parsed<Node>, g: Option<Shape>, spec: Parsed<Timestamp>)
    reads if g.Some? then Objects(g.value) else {}
  {
    match spec
    case Fail(e) => r == Fail(e)
    case Ok(t, next) =>
      && g.Some? && r == Ok(g.value.site, next)
      && Holds(g.value) && Erase(g.value) == t
  }

  ghost predicate BuiltSlot(r: Parsed<Slot>, g: Option<Item<Node>>, spec: Parsed<Item<()>>)
    reads if g.Some? then ItemObjects(g.value) else {}
  {
    match spec
    case Fail(e) => r == Fail(e)
    case Ok(item, next) =>
      && g.Some? && r == Ok(SlotOf(g.value), next)
      && HoldsItem(g.value) && EraseItem(g.value) == item
  }

  /** `parse_timestamp`: builds the tree out of new node objects. */
  method ParseTimestamp(data: Bytes, start: nat, depth: nat) returns (r: Parsed<Node>, ghost g: Option<Shape>)
    ensures BuiltNode(r, g, ParseNode(data, start, depth))
    ensures g.Some? ==> fresh(Objects(g.value))
    decreases |data| - start, 2
  {
    if depth > MAX_DEPTH {
      return Fail(ParseError), None;
    }
    hide Holds, HoldsItem, Objects, ItemObjects, ParseItem, HeldSlots, MadeOf, EraseItems, ParseItems, Continues;
    var slots: seq<Slot>, offset := [], start;
    ghost var items: seq<Item<Node>>, made: set<Node> := [], {};
    ContinueStart(data, start, depth);
    while offset < |data| && data[offset] == FORK
      invariant start <= offset && fresh(made)
      invariant HeldSlots(slots, items) && MadeOf(items, made)
      invariant Continues(data, start, depth, EraseItems(items), offset)
      decreases |data| - offset
    {
      ContinuePastFork(data, start, depth, EraseItems(items), offset);
      var more;
      more, items, made := ParseAppend(data, offset + 1, depth, slots, items, made);
      if more.Fail? {
        return Fail(more.error), None;
      }
      slots, offset := more.value, more.next;
    }
    ContinueToLast(data, start, depth, EraseItems(items), offset);
    if offset >= |data| {
      return Fail(Truncated), None;
    }
    var last;
    last, items, made := ParseAppend(data, offset, depth, slots, items, made);
    if last.Fail? {
      return Fail(last.error), None;
    }
    var node;
    node, g := MakeNode(last.value, items, made);
    r := Ok(node, last.next);
  }

  /** These items are built from these node objects only. */
  ghost predicate MadeOf(items: seq<Item<Node>>, made: set<Node>) {
    forall i :: 0 <= i < |items| ==> ItemObjects(items[i]) <= made
  }

  /** `item, offset = _parse_item(...)` and `items.append(item)`. */
  method ParseAppend(data: Bytes, offset: nat, depth: nat, slots: seq<Slot>,
                     ghost items: seq<Item<Node>>, ghost made: set<Node>)
    returns (r: Parsed<seq<Slot>>, ghost items': seq<Item<Node>>, ghost made': set<Node>)
    requires HeldSlots(slots, items) && MadeOf(items, made)
    ensures match ParseItem(data, offset, depth)
            case Fail(e) => r == Fail(e)
            case Ok(item, next) =>
              && r.Ok? && r.next == next && HeldSlots(r.value, items') && MadeOf(items', made')
              && EraseItems(items') == EraseItems(items) + [item]
    ensures fresh(made' - made)
    decreases |data| - offset, 1
  {
    items', made' := items, made;
    var s, gs := ParseSlot(data, offset, depth);
    if s.Fail? {
      return Fail(s.error), items, made;
    }
    forall i | 0 <= i < |items|
      ensures HoldsItem(items[i]) && ItemObjects(items[i]) !! ItemObjects(gs.value)
    {
      assert old(allocated(ItemObjects(items[i])));
    }
    AppendSlot(slots, items, s.value, gs.value);
    items', made' := items + [gs.value], made + ItemObjects(gs.value);
    r := Ok(slots + [s.value], s.next);
  }

  /** `Node(items=items)`. */
  method MakeNode(slots: seq<Slot>, ghost items: seq<Item<Node>>, ghost made: set<Node>)
    returns (node: Node, ghost g: Option<Shape>)
    requires HeldSlots(slots, items) && MadeOf(items, made)
    ensures g == Some(Tree(node, items)) && Holds(g.value) && fresh(node)
    ensures Objects(g.value) <= made + {node}
  {
    node := new Node(slots);
    forall i | 0 <= i < |items| ensures HoldsItem(items[i]) && node !in ItemObjects(items[i]) {
      assert old(allocated(ItemObjects(items[i])));
    }
    g := Some(Tree(node, items));
  }

  method ParseSlot(data: Bytes, offset: nat, depth: nat) returns (r: Parsed<Slot>, ghost g: Option<Item<Node>>)
    ensures BuiltSlot(r, g, ParseItem(data, offset, depth))
    ensures g.Some? ==> fresh(ItemObjects(g.value))
    decreases |data| - offset, 0
  {
    if offset >= |data| {
      return Fail(ForkAtEnd), None;
    }
    if data[offset] == 0 {
      match ReadAttestation(data, offset + 1) {
        case Fail(e) => return Fail(e), None;
        case Ok(item, next) =>
          return Ok(Note(item.tag, item.payload), next), Some(Attestation(item.tag, item.payload));
      }
    }
    match ReadOperation(data, offset) {
      case Fail(e) => return Fail(e), None;
      case Ok(operation, next) =>
        var child, gc := ParseTimestamp(data, next, depth + 1);
        if child.Fail? {
          return Fail(child.error), None;
        }
        return Ok(Link(operation, child.value), child.next), Some(Branch(operation, gc.value));
    }
  }

  lemma AppendSlot(slots: seq<Slot>, items: seq<Item<Node>>, slot: Slot, item: Item<Node>)
    requires HeldSlots(slots, items) && slot == SlotOf(item) && HoldsItem(item)
    requires forall i :: 0 <= i < |items| ==> ItemObjects(items[i]) !! ItemObjects(item)
    ensures HeldSlots(slots + [slot], items + [item])
    ensures EraseItems(items + [item]) == EraseItems(items) + [EraseItem(item)]
  {
  }

  // ----- printing from node objects -----

  /** No node of the tree is empty, which is what `serialize` insists on. */
  predicate Populated<A>(items: seq<Item<A>>) {
    items != [] && forall i :: 0 <= i < |items| && items[i].Branch? ==> Populated(items[i].child.items)
  }

  /** The printed form of items that are all followed by another. */
  ghost function PrintForked<A>(items: seq<Item<A>>): Bytes {
    if items == [] then []
    else PrintForked(items[..|items| - 1]) + [FORK] + PrintItem(items[|items| - 1])
  }

  lemma {:induction false} PrintForkedThenLast<A>(items: seq<Item<A>>)
    requires items != []
    ensures PrintItems(items) == PrintForked(items[..|items| - 1]) + PrintItem(items[|items| - 1])
    decreases |items|
  {
    if |items| > 1 {
      var last := |items| - 1;
      PrintForkedThenLast(items[1..]);
      ForkedCons(items[..last]);
      assert items[1..][..|items[1..]| - 1] == items[..last][1..];
    }
  }

  lemma {:induction false} ForkedCons<A>(items: seq<Item<A>>)
    requires items != []
    ensures PrintForked(items) == [FORK] + PrintItem(items[0]) + PrintForked(items[1..])
    decreases |items|
  {
    var last := |items| - 1;
    if last > 0 {
      ForkedCons(items[..last]);
      assert items[..last][1..] == items[1..][..last - 1];
    }
  }

  /** `Node.serialize`; `None` is the error it raises on an empty node. */
  method Serialize(node: Node, ghost g: Shape) returns (out: Option<Bytes>)
    requires g.site == node && Holds(g)
    ensures out == if Populated(g.items) then Some(Print(g)) else None
    decreases g, 1
  {
    if node.items == [] {
      return None;
    }
    assert old(allocated(Objects(g)));
    var printed: Bytes, last := [], |node.items| - 1;
    for i := 0 to last
      invariant Holds(g)
      invariant printed == PrintForked(g.items[..i])
      invariant forall j :: 0 <= j < i && g.items[j].Branch? ==> Populated(g.items[j].child.items)
    {
      assert HoldsItem(g.items[i]);
      var item := SerializeSlot(node.items[i], g.items[i]);
      if item.None? {
        return None;
      }
      assert g.items[..i + 1][..i] == g.items[..i];
      printed := printed + [FORK] + item.value;
    }
    assert HoldsItem(g.items[last]);
    var item := SerializeSlot(node.items[last], g.items[last]);
    if item.None? {
      return None;
    }
    PrintForkedThenLast(g.items);
    return Some(printed + item.value);
  }

  method SerializeSlot(slot: Slot, ghost item: Item<Node>) returns (out: Option<Bytes>)
    requires slot == SlotOf(item) && HoldsItem(item)
    ensures out == if item.Branch? && !Populated(item.child.items) then None else Some(PrintItem(item))
    decreases item, 0
  {
    match slot
    case Note(tag, payload) =>
      var length := EncodeVaruintLoop(|payload|);
      return Some([0] + tag + length + payload);
    case Link(operation, child) =>
      var below := Serialize(child, item.child);
      return if below.None? then None else Some(operation + below.value);
  }

  /** `all_attestations`. */
  method ListAttestations(node: Node, ghost g: Shape) returns (found: seq<Claim>)
    requires g.site == node && Holds(g)
    ensures found == AllAttestations(g.items)
    decreases g
  {
    found := [];
    assert old(allocated(Objects(g)));
    for i := 0 to |node.items|
      invariant Holds(g)
      invariant found == AllAttestations(g.items[..i])
    {
      assert g.items[..i + 1][..i] == g.items[..i];
      assert HoldsItem(g.items[i]);
      match node.items[i]
      case Note(tag, payload) => found := found + [Claim(tag, payload)];
      case Link(_, child) =>
        var below := ListAttestations(child, g.items[i].child);
        found := found + below;
    }
    assert g.items[..|node.items|] == g.items;
  }
}
