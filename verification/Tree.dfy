/** Timestamp trees as values. Each node carries a `site`: nothing (`()`) for a tree that is only a value, the
    heap object that holds it otherwise. */
module Tree {
  import opened Wire

  datatype Tree<A> = Tree(site: A, items: seq<Item<A>>)

  datatype Item<A> =
    | Attestation(tag: Bytes, payload: Bytes)
    | Branch(operation: Bytes, child: Tree<A>)

  type Timestamp = Tree<()>

  const FORK: byte := 0xff
  const UNARY_OPS: set<byte> := {0x02, 0x03, 0x08, 0x67, 0xf2, 0xf3}
  const BINARY_OPS: set<byte> := {0xf0, 0xf1}

  // ----- printing -----

  function Print<A>(t: Tree<A>): Bytes {
    PrintItems(t.items)
  }

  /** Every item but the last is announced by a fork marker. */
  function PrintItems<A>(items: seq<Item<A>>): Bytes
    decreases items, 0
  {
    if items == [] then []
    else if |items| == 1 then PrintItem(items[0])
    else [FORK] + PrintItem(items[0]) + PrintItems(items[1..])
  }

  function PrintItem<A>(item: Item<A>): Bytes
    decreases item, 1
  {
    match item
    case Attestation(tag, payload) => [0] + tag + EncodeVaruint(|payload|) + payload
    case Branch(operation, child) => operation + PrintItems(child.items)
  }

  // ----- what the grammar can produce -----

  /** The verbatim bytes of one operation: a unary tag alone, or a binary tag, a length (minimal or
      not) and exactly that many argument bytes. */
  predicate WellFormedOperation(op: Bytes) {
    && op != []
    && if op[0] in UNARY_OPS then |op| == 1
       else op[0] in BINARY_OPS && var r := ReadVaruint(op, 1); r.Ok? && r.next + r.value == |op|
  }

  predicate WellFormed<A>(t: Tree<A>) {
    WellFormedItems(t.items)
  }

  predicate WellFormedItems<A>(items: seq<Item<A>>)
    decreases items, 0
  {
    items != [] && forall i :: 0 <= i < |items| ==> WellFormedItem(items[i])
  }

  predicate WellFormedItem<A>(item: Item<A>)
    decreases item, 1
  {
    match item
    case Attestation(tag, _) => |tag| == 8
    case Branch(operation, child) => WellFormedOperation(operation) && WellFormedItems(child.items)
  }

  /** Nesting depth: a node with attestations only has height 0. */
  function Height<A>(t: Tree<A>): nat {
    HeightOfItems(t.items)
  }

  function HeightOfItems<A>(items: seq<Item<A>>): (h: nat)
    ensures forall i :: 0 <= i < |items| ==> HeightOfItem(items[i]) <= h
    decreases items, 0
  {
    if items == [] then 0
    else
      var rest := HeightOfItems(items[1..]);
      assert forall i :: 0 < i < |items| ==> items[i] == items[1..][i - 1];
      if HeightOfItem(items[0]) > rest then HeightOfItem(items[0]) else rest
  }

  function HeightOfItem<A>(item: Item<A>): nat
    decreases item, 1
  {
    match item
    case Attestation(_, _) => 0
    case Branch(_, child) => 1 + HeightOfItems(child.items)
  }

  // ----- forgetting where the nodes live -----

  function Erase<A>(t: Tree<A>): Timestamp {
    Tree((), EraseItems(t.items))
  }

  function EraseItems<A>(items: seq<Item<A>>): (r: seq<Item<()>>)
    ensures |r| == |items| && forall i :: 0 <= i < |items| ==> r[i] == EraseItem(items[i])
    decreases items, 0
  {
    if items == [] then []
    else
      var r := [EraseItem(items[0])] + EraseItems(items[1..]);
      assert forall i :: 0 < i < |items| ==> items[i] == items[1..][i - 1];
      r
  }

  function EraseItem<A>(item: Item<A>): Item<()>
    decreases item, 1
  {
    match item
    case Attestation(tag, payload) => Attestation(tag, payload)
    case Branch(operation, child) => Branch(operation, Tree((), EraseItems(child.items)))
  }

  // ----- what a tree attests -----

  datatype Claim = Claim(tag: Bytes, payload: Bytes)

  /** Following exactly these operations from the root reaches this attestation. */
  ghost predicate Attests<A>(t: Tree<A>, path: seq<Bytes>, c: Claim)
    decreases path, 1
  {
    exists i :: 0 <= i < |t.items| && ItemAttests(t.items[i], path, c)
  }

  ghost predicate ItemAttests<A>(item: Item<A>, path: seq<Bytes>, c: Claim)
    decreases path, 0
  {
    match item
    case Attestation(tag, payload) => path == [] && c == Claim(tag, payload)
    case Branch(operation, child) => path != [] && path[0] == operation && Attests(child, path[1..], c)
  }
}
