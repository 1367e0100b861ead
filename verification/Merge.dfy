/** What `merge_node` computes, on tree values, and what merging guarantees. */
module Merge {
  import opened Wire
  import opened Tree

  /** `target` after merging every item of `source` into it, in order. */
  function MergeTrees<A>(target: Tree<A>, source: Tree<A>): (r: Tree<A>)
    ensures r.site == target.site
    decreases source, 1
  {
    MergeItems(target, source.items)
  }

  function MergeItems<A>(target: Tree<A>, source: seq<Item<A>>): (r: Tree<A>)
    ensures r.site == target.site
    decreases source, 0
  {
    if source == [] then target
    else MergeItem(MergeItems(target, source[..|source| - 1]), source[|source| - 1])
  }

  /** An attestation goes after as many items as the node has attestations; a branch goes into the
      last branch with its operation, or else to the end. */
  function MergeItem<A>(target: Tree<A>, item: Item<A>): (r: Tree<A>)
    ensures r.site == target.site
    decreases item, 2
  {
    match item
    case Attestation(tag, payload) =>
      if HasAttestation(target.items, Claim(tag, payload)) then target
      else target.(items := InsertAttestation(target.items, item))
    case Branch(operation, child) =>
      match LastBranch(target.items, operation)
      case None => target.(items := target.items + [item])
      case Some(k) => target.(items := target.items[k := Branch(operation, MergeTrees(target.items[k].child, child))])
  }

  predicate HasAttestation<A>(items: seq<Item<A>>, c: Claim) {
    exists i :: 0 <= i < |items| && items[i].Attestation? && Claim(items[i].tag, items[i].payload) == c
  }

  function CountAttestations<A>(items: seq<Item<A>>): (n: nat)
    ensures n <= |items|
  {
    if items == [] then 0
    else CountAttestations(items[..|items| - 1]) + if items[|items| - 1].Attestation? then 1 else 0
  }

  function InsertAttestation<A>(items: seq<Item<A>>, item: Item<A>): seq<Item<A>> {
    var n := CountAttestations(items);
    items[..n] + [item] + items[n..]
  }

  /** The position of the last branch carrying `operation`. */
  function LastBranch<A>(items: seq<Item<A>>, operation: Bytes): (k: Option<nat>)
    ensures k.None? ==> forall i :: 0 <= i < |items| ==> !(items[i].Branch? && items[i].operation == operation)
    ensures k.Some? ==> k.value < |items| && items[k.value].Branch? && items[k.value].operation == operation
    ensures k.Some? ==> forall i :: k.value < i < |items| ==> !(items[i].Branch? && items[i].operation == operation)
  {
    if items == [] then None
    else
      var last := |items| - 1;
      if items[last].Branch? && items[last].operation == operation then Some(last)
      else LastBranch(items[..last], operation)
  }

  /** What a lookup by operation finds. */
  function LastChild<A>(items: seq<Item<A>>, operation: Bytes): Option<Tree<A>> {
    match LastBranch(items, operation)
    case None => None
    case Some(k) => Some(items[k].child)
  }

  // ----- the number of items added -----

  function MergeCount<A>(target: Tree<A>, source: Tree<A>): nat
    decreases source, 1
  {
    CountItems(target, source.items)
  }

  function CountItems<A>(target: Tree<A>, source: seq<Item<A>>): nat
    decreases source, 0
  {
    if source == [] then 0
    else
      CountItems(target, source[..|source| - 1])
      + CountItem(MergeItems(target, source[..|source| - 1]), source[|source| - 1])
  }

  function CountItem<A>(target: Tree<A>, item: Item<A>): nat
    decreases item, 2
  {
    match item
    case Attestation(tag, payload) => if HasAttestation(target.items, Claim(tag, payload)) then 0 else 1
    case Branch(operation, child) =>
      match LastBranch(target.items, operation)
      case None => 1
      case Some(k) => MergeCount(target.items[k].child, child)
  }
}
