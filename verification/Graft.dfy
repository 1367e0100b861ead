/** Merging into a node held by reference somewhere inside a tree. The tree as a value changes at that node alone,
    and the heap afterwards holds exactly the tree so changed. */
module Graft {
  import opened Wire
  import opened Tree
  import opened Merge
  import opened MergeLaws
  import opened Idempotence
  import opened ProofTree

  /** `t` after merging `s` into the node at `site`. */
  function MergeAt<A(==)>(t: Tree<A>, site: A, s: Tree<A>): (r: Tree<A>)
    ensures r.site == t.site
    decreases t, 0
  {
    if t.site == site then MergeTrees(t, s)
    else Tree(t.site, seq(|t.items|, i requires 0 <= i < |t.items| => MergeAtItem(t.items[i], site, s)))
  }

  function MergeAtItem<A(==)>(item: Item<A>, site: A, s: Tree<A>): Item<A>
    decreases item, 1
  {
    match item
    case Attestation(_, _) => item
    case Branch(operation, child) => Branch(operation, MergeAt(child, site, s))
  }

  /** The sites of a tree. */
  ghost function Sites<A>(t: Tree<A>): set<A>
    decreases t, 0
  {
    {t.site} + set i, n | 0 <= i < |t.items| && n in ItemSites(t.items[i]) :: n
  }

  ghost function ItemSites<A>(item: Item<A>): set<A>
    decreases item, 1
  {
    match item
    case Attestation(_, _) => {}
    case Branch(_, child) => Sites(child)
  }

  lemma {:induction false} ElsewhereIsUntouched<A>(t: Tree<A>, site: A, s: Tree<A>)
    requires site !in Sites(t)
    ensures MergeAt(t, site, s) == t
    decreases t
  {
    forall i | 0 <= i < |t.items| ensures MergeAtItem(t.items[i], site, s) == t.items[i] {
      if t.items[i].Branch? {
        assert forall n :: n in ItemSites(t.items[i]) ==> n in Sites(t);
        ElsewhereIsUntouched(t.items[i].child, site, s);
      }
    }
  }

  lemma {:induction false} ObjectsAreSites(g: Shape)
    ensures Objects(g) == Sites(g)
    decreases g
  {
    forall i | 0 <= i < |g.items| ensures ItemObjects(g.items[i]) == ItemSites(g.items[i]) {
      if g.items[i].Branch? {
        ObjectsAreSites(g.items[i].child);
      }
    }
  }

  // ----- what the heap holds afterwards -----

  /** The branch below which a node object lies. */
  ghost function BranchOf(g: Shape, n: Node): (k: nat)
    requires n in Objects(g) && n != g.site
    ensures k < |g.items| && g.items[k].Branch? && n in Objects(g.items[k].child)
  {
    var k :| 0 <= k < |g.items| && n in ItemObjects(g.items[k]);
    k
  }

  /** The part of a shape whose root is this node object. */
  ghost function Sub(g: Shape, n: Node): (r: Shape)
    requires n in Objects(g)
    ensures r.site == n
    decreases g
  {
    if g.site == n then g else Sub(g.items[BranchOf(g, n)].child, n)
  }

  lemma {:induction false} SubInside(g: Shape, n: Node)
    requires n in Objects(g)
    ensures Objects(Sub(g, n)) <= Objects(g)
    ensures Holds(g) ==> Holds(Sub(g, n))
    decreases g
  {
    if g.site != n {
      var k := BranchOf(g, n);
      SubInside(g.items[k].child, n);
      ItemInside(g, k);
      assert Holds(g) ==> HoldsItem(g.items[k]);
    }
  }

  lemma OneBranchChanges(g: Shape, n: Node, s: Shape)
    requires n in Objects(g) && n != g.site && Apart(g.items)
    ensures var k := BranchOf(g, n);
            MergeAt(g, n, s) == Replaced(g, k, MergeAt(g.items[k].child, n, s))
  {
    var k := BranchOf(g, n);
    forall i | 0 <= i < |g.items| && i != k ensures MergeAtItem(g.items[i], n, s) == g.items[i] {
      assert i < k ==> ItemObjects(g.items[i]) !! ItemObjects(g.items[k]);
      assert k < i ==> ItemObjects(g.items[k]) !! ItemObjects(g.items[i]);
      if g.items[i].Branch? {
        ObjectsAreSites(g.items[i].child);
        ElsewhereIsUntouched(g.items[i].child, n, s);
      }
    }
    assert MergeAt(g, n, s).items == Replaced(g, k, MergeAt(g.items[k].child, n, s)).items;
  }

  twostate predicate Untouched(nodes: set<Node>)
    reads nodes
  {
    old(allocated(nodes)) && unchanged(nodes)
  }

  /** One level up: the branch holding the node has been dealt with and its siblings are unchanged. */
  twostate lemma GraftStep(g: Shape, new n: Node, new s: Shape)
    requires old(Holds(g)) && old(allocated(Objects(g))) && n in Objects(g) && n != g.site
    requires Objects(s) !! Objects(g)
    requires Holds(MergeAt(g.items[BranchOf(g, n)].child, n, s))
    requires Objects(MergeAt(g.items[BranchOf(g, n)].child, n, s)) <= Objects(g.items[BranchOf(g, n)].child) + Objects(s)
    requires Untouched(Objects(g) - Objects(g.items[BranchOf(g, n)].child))
    ensures Holds(MergeAt(g, n, s))
    ensures Objects(MergeAt(g, n, s)) <= Objects(g) + Objects(s)
  {
    var k := BranchOf(g, n);
    var child := g.items[k].child;
    var merged := MergeAt(child, n, s);
    assert old(HoldsItem(g.items[k]));
    OneBranchChanges(g, n, s);
    ReplacedObjects(g, k, merged, Objects(s));
    forall i | 0 <= i < |g.items| ensures HoldsItem(Replaced(g, k, merged).items[i]) {
      if i != k {
        assert old(HoldsItem(g.items[i]));
        assert ItemObjects(g.items[i]) !! Objects(child);
        ItemInside(g, i);
        assert HoldsItem(g.items[i]);
      } else {
        assert HoldsItem(Branch(g.items[k].operation, merged));
      }
    }
  }

  /** When the node's own subtree has been merged into and nothing else has changed, the whole tree
      is the grafted tree. */
  twostate lemma {:induction false} GraftHolds(g: Shape, new n: Node, new s: Shape)
    requires old(Holds(g)) && old(allocated(Objects(g))) && n in Objects(g) && Objects(s) !! Objects(g)
    requires Holds(MergeTrees(Sub(g, n), s))
    requires Objects(MergeTrees(Sub(g, n), s)) <= Objects(Sub(g, n)) + Objects(s)
    requires Untouched(Objects(g) - Objects(Sub(g, n)))
    ensures Holds(MergeAt(g, n, s))
    ensures Objects(MergeAt(g, n, s)) <= Objects(g) + Objects(s)
    decreases g
  {
    if g.site != n {
      var k := BranchOf(g, n);
      var child := g.items[k].child;
      assert old(HoldsItem(g.items[k]));
      ItemInside(g, k);
      SubInside(child, n);
      GraftHolds(child, n, s);
      GraftStep(g, n, s);
    }
  }
}
