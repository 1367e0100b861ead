/** When a merge has nothing to add, and when merging the same source twice is the same as once. */
module Idempotence {
  import opened Wire
  import opened Tree
  import opened Merge
  import opened MergeLaws

  /** Everything in `s` is found in `t` where `merge_node` looks for it. */
  ghost predicate Covers<A>(t: Tree<A>, s: Tree<A>)
    decreases s, 1
  {
    forall i :: 0 <= i < |s.items| ==> CoversItem(t, s.items[i])
  }

  ghost predicate CoversItem<A>(t: Tree<A>, item: Item<A>)
    decreases item, 2
  {
    match item
    case Attestation(tag, payload) => HasAttestation(t.items, Claim(tag, payload))
    case Branch(operation, child) =>
      match LastBranch(t.items, operation)
      case None => false
      case Some(k) => Covers(t.items[k].child, child)
  }

  // ----- a merge adds nothing exactly when the source is covered -----

  lemma {:induction false} CountItemZero<A>(t: Tree<A>, item: Item<A>)
    ensures CountItem(t, item) == 0 <==> CoversItem(t, item)
    ensures CountItem(t, item) == 0 ==> MergeItem(t, item) == t
    decreases item, 2
  {
    if item.Branch? {
      match LastBranch(t.items, item.operation)
      case None =>
      case Some(k) => CountZero(t.items[k].child, item.child);
    }
  }

  lemma {:induction false} CountItemsZero<A>(t: Tree<A>, source: seq<Item<A>>)
    ensures CountItems(t, source) == 0 ==> MergeItems(t, source) == t
    ensures CountItems(t, source) == 0 <==> forall i :: 0 <= i < |source| ==> CoversItem(t, source[i])
    decreases source, 0
  {
    if source != [] {
      var init, last := source[..|source| - 1], source[|source| - 1];
      CountItemsZero(t, init);
      CountItemZero(MergeItems(t, init), last);
      assert forall i :: 0 <= i < |source| ==> source[i] == if i < |init| then init[i] else last;
    }
  }

  /** `merge_node` returns 0 exactly when it finds everything already there, and then it changes
      nothing. */
  lemma {:induction false} CountZero<A>(t: Tree<A>, s: Tree<A>)
    ensures MergeCount(t, s) == 0 <==> Covers(t, s)
    ensures MergeCount(t, s) == 0 ==> MergeTrees(t, s) == t
    decreases s, 1
  {
    CountItemsZero(t, s.items);
  }

  // ----- a merge that adds anything changes its target -----

  /** How many items there are, at whatever depth. */
  function Weight<A>(items: seq<Item<A>>): nat
    decreases items, 0
  {
    if items == [] then 0 else Weight(items[..|items| - 1]) + WeightOf(items[|items| - 1])
  }

  function WeightOf<A>(item: Item<A>): (n: nat)
    ensures n > 0
    decreases item, 1
  {
    match item
    case Attestation(_, _) => 1
    case Branch(_, child) => 1 + Weight(child.items)
  }

  lemma {:induction false} WeightConcat<A>(a: seq<Item<A>>, b: seq<Item<A>>)
    ensures Weight(a + b) == Weight(a) + Weight(b)
    decreases |b|
  {
    if b == [] {
      assert a + b == a;
    } else {
      WeightConcat(a, b[..|b| - 1]);
      assert (a + b)[..|a + b| - 1] == a + b[..|b| - 1];
    }
  }

  lemma WeightInserted<A>(items: seq<Item<A>>, item: Item<A>, n: nat)
    requires n <= |items|
    ensures Weight(items[..n] + [item] + items[n..]) == Weight(items) + WeightOf(item)
  {
    WeightConcat(items[..n], items[n..]);
    WeightConcat(items[..n] + [item], items[n..]);
    WeightConcat(items[..n], [item]);
    assert items[..n] + items[n..] == items && [item][..0] == [];
  }

  lemma WeightUpdated<A>(items: seq<Item<A>>, item: Item<A>, k: nat)
    requires k < |items|
    ensures Weight(items[k := item]) + WeightOf(items[k]) == Weight(items) + WeightOf(item)
  {
    hide Weight, WeightOf;
    var rest := items[..k] + items[k + 1..];
    WeightInserted(rest, item, k);
    WeightInserted(rest, items[k], k);
    assert rest[..k] == items[..k] && rest[k..] == items[k + 1..];
    assert items[..k] + [items[k]] + items[k + 1..] == items;
    assert items[..k] + [item] + items[k + 1..] == items[k := item];
  }

  lemma {:induction false} MergeItemGrows<A>(t: Tree<A>, item: Item<A>)
    ensures Weight(MergeItem(t, item).items) >= Weight(t.items) + CountItem(t, item)
    decreases item, 2
  {
    match item
    case Attestation(tag, payload) =>
      WeightInserted(t.items, item, CountAttestations(t.items));
    case Branch(operation, child) =>
      match LastBranch(t.items, operation)
      case None =>
        WeightInserted(t.items, item, |t.items|);
        assert t.items[..|t.items|] + [item] + t.items[|t.items|..] == t.items + [item];
      case Some(k) =>
        MergeGrows(t.items[k].child, child);
        WeightUpdated(t.items, Branch(operation, MergeTrees(t.items[k].child, child)), k);
  }

  lemma {:induction false} MergeItemsGrow<A>(t: Tree<A>, source: seq<Item<A>>)
    ensures Weight(MergeItems(t, source).items) >= Weight(t.items) + CountItems(t, source)
    decreases source, 0
  {
    if source != [] {
      MergeItemsGrow(t, source[..|source| - 1]);
      MergeItemGrows(MergeItems(t, source[..|source| - 1]), source[|source| - 1]);
    }
  }

  lemma {:induction false} MergeGrows<A>(t: Tree<A>, s: Tree<A>)
    ensures Weight(MergeTrees(t, s).items) >= Weight(t.items) + MergeCount(t, s)
    decreases s, 1
  {
    MergeItemsGrow(t, s.items);
  }

  /** The count says exactly whether the merge changed anything. */
  lemma CountMeansChanged<A>(t: Tree<A>, s: Tree<A>)
    ensures MergeCount(t, s) == 0 <==> MergeTrees(t, s) == t
  {
    CountZero(t, s);
    MergeGrows(t, s);
  }

  // ----- coverage survives later merges -----

  lemma {:induction false} InsertKeepsLastChild<A>(items: seq<Item<A>>, item: Item<A>, n: nat, operation: Bytes)
    requires n <= |items| && item.Attestation?
    ensures LastChild(items[..n] + [item] + items[n..], operation) == LastChild(items, operation)
    decreases |items| - n
  {
    var inserted := items[..n] + [item] + items[n..];
    if n == |items| {
      assert inserted[..n] == items;
    } else {
      var last := |items| - 1;
      assert inserted[|items|] == items[last];
      assert inserted[..|items|] == items[..last][..n] + [item] + items[..last][n..];
      InsertKeepsLastChild(items[..last], item, n, operation);
    }
  }

  lemma UpdateLastChild<A>(items: seq<Item<A>>, k: nat, child: Tree<A>, operation: Bytes)
    requires k < |items| && items[k].Branch? && LastBranch(items, items[k].operation) == Some(k)
    ensures LastChild(items[k := Branch(items[k].operation, child)], operation)
         == if operation == items[k].operation then Some(child) else LastChild(items, operation)
  {
    var updated := items[k := Branch(items[k].operation, child)];
    var found, before := LastBranch(updated, operation), LastBranch(items, operation);
    assert forall i :: 0 <= i < |items| && i != k ==> updated[i] == items[i];
    if found.Some? {
      assert items[found.value].Branch? && items[found.value].operation == operation;
    }
    if before.Some? {
      assert updated[before.value].Branch? && updated[before.value].operation == operation;
    }
  }

  /** After merging one item, a lookup finds what it found before, possibly with more merged in. */
  lemma MergeItemLookup<A>(t: Tree<A>, item: Item<A>, operation: Bytes)
    ensures var before, after := LastChild(t.items, operation), LastChild(MergeItem(t, item).items, operation);
            if item.Branch? && item.operation == operation
            then after == Some(if before.None? then item.child else MergeTrees(before.value, item.child))
            else after == before
  {
    match item
    case Attestation(tag, payload) =>
      if !HasAttestation(t.items, Claim(tag, payload)) {
        InsertKeepsLastChild(t.items, item, CountAttestations(t.items), operation);
      }
    case Branch(op, child) =>
      match LastBranch(t.items, op)
      case None =>
        assert (t.items + [item])[..|t.items|] == t.items;
      case Some(k) =>
        UpdateLastChild(t.items, k, MergeTrees(t.items[k].child, child), operation);
  }

  lemma MergeItemKeepsAttestation<A>(t: Tree<A>, item: Item<A>, c: Claim)
    ensures HasAttestation(MergeItem(t, item).items, c)
       <==> HasAttestation(t.items, c) || (item.Attestation? && Claim(item.tag, item.payload) == c)
  {
    MergeItemIsUnion(t, item, [], c);
    AttestsHere(t, c);
    AttestsHere(MergeItem(t, item), c);
  }

  lemma AttestsHere<A>(t: Tree<A>, c: Claim)
    ensures Attests(t, [], c) <==> HasAttestation(t.items, c)
  {
    if HasAttestation(t.items, c) {
      var i :| 0 <= i < |t.items| && t.items[i].Attestation? && Claim(t.items[i].tag, t.items[i].payload) == c;
      assert ItemAttests(t.items[i], [], c);
    }
  }

  lemma {:induction false} MergeItemKeepsCover<A>(t: Tree<A>, added: Item<A>, item: Item<A>)
    requires CoversItem(t, item)
    ensures CoversItem(MergeItem(t, added), item)
    decreases item, added, 2
  {
    match item
    case Attestation(tag, payload) =>
      MergeItemKeepsAttestation(t, added, Claim(tag, payload));
    case Branch(operation, child) =>
      MergeItemLookup(t, added, operation);
      if added.Branch? && added.operation == operation {
        MergeKeepsCover(LastChild(t.items, operation).value, added.child.items, child);
      }
  }

  lemma {:induction false} MergeKeepsCover<A>(t: Tree<A>, added: seq<Item<A>>, s: Tree<A>)
    requires Covers(t, s)
    ensures Covers(MergeItems(t, added), s)
    decreases s, added, 0
  {
    if added != [] {
      MergeKeepsCover(t, added[..|added| - 1], s);
      var mid := MergeItems(t, added[..|added| - 1]);
      forall i | 0 <= i < |s.items| ensures CoversItem(MergeItem(mid, added[|added| - 1]), s.items[i]) {
        MergeItemKeepsCover(mid, added[|added| - 1], s.items[i]);
      }
    }
  }

  // ----- idempotence -----

  predicate DistinctOperations<A>(items: seq<Item<A>>) {
    forall i, j :: 0 <= i < j < |items| && items[i].Branch? && items[j].Branch?
      ==> items[i].operation != items[j].operation
  }

  /** No node anywhere has two branches with equal operation bytes. */
  predicate DeepDistinct<A>(t: Tree<A>) {
    && DistinctOperations(t.items)
    && forall i :: 0 <= i < |t.items| && t.items[i].Branch? ==> DeepDistinct(t.items[i].child)
  }

  /** The condition `merge_node` needs on a source: below its root, no repeated operations. */
  predicate DistinctBelow<A>(s: Tree<A>) {
    forall i :: 0 <= i < |s.items| && s.items[i].Branch? ==> DeepDistinct(s.items[i].child)
  }

  lemma {:induction false} DistinctCoversItself<A>(t: Tree<A>)
    requires DeepDistinct(t)
    ensures Covers(t, t)
    decreases t
  {
    forall i | 0 <= i < |t.items| ensures CoversItem(t, t.items[i]) {
      if t.items[i].Branch? {
        DistinctCoversItself(t.items[i].child);
        var k := LastBranch(t.items, t.items[i].operation).value;
        assert k == i;
      }
    }
  }

  /** What a source covers, a merge of it covers. */
  lemma {:induction false} MergePassesCover<A>(t: Tree<A>, s: Tree<A>, x: Tree<A>)
    requires Covers(s, x)
    ensures Covers(MergeTrees(t, s), x)
    decreases x, 0
  {
    forall i | 0 <= i < |x.items| ensures CoversItem(MergeTrees(t, s), x.items[i]) {
      assert CoversItem(s, x.items[i]);
      match x.items[i]
      case Attestation(tag, payload) =>
        MergeKeepsAttestations(t, s.items, Claim(tag, payload));
      case Branch(operation, child) =>
        MergePassesBranch(t, s.items, LastBranch(s.items, operation).value, child);
    }
  }

  lemma {:induction false} MergePassesBranch<A>(t: Tree<A>, source: seq<Item<A>>, k: nat, x: Tree<A>)
    requires k < |source| && source[k].Branch? && Covers(source[k].child, x)
    requires forall i :: k < i < |source| && source[i].Branch? ==> source[i].operation != source[k].operation
    ensures var found := LastChild(MergeItems(t, source).items, source[k].operation);
            found.Some? && Covers(found.value, x)
    decreases x, 1 + |source|
  {
    var init, last := source[..|source| - 1], source[|source| - 1];
    var mid := MergeItems(t, init);
    MergeItemLookup(mid, last, source[k].operation);
    if k < |init| {
      MergePassesBranch(t, init, k, x);
    } else {
      var before := LastChild(mid.items, source[k].operation);
      if before.Some? {
        MergePassesCover(before.value, source[k].child, x);
      }
    }
  }

  lemma {:induction false} MergeKeepsAttestations<A>(t: Tree<A>, source: seq<Item<A>>, c: Claim)
    ensures HasAttestation(MergeItems(t, source).items, c) <==> HasAttestation(t.items, c) || HasAttestation(source, c)
    decreases |source|
  {
    if source != [] {
      var init, last := source[..|source| - 1], source[|source| - 1];
      MergeKeepsAttestations(t, init, c);
      MergeItemKeepsAttestation(MergeItems(t, init), last, c);
      assert source == init + [last];
      assert HasAttestation(source, c) <==> HasAttestation(init, c) || HasAttestation([last], c) by {
        if HasAttestation(init, c) {
          var i :| 0 <= i < |init| && init[i].Attestation? && Claim(init[i].tag, init[i].payload) == c;
          assert source[i] == init[i];
        }
        if HasAttestation([last], c) {
          assert [last][0] == source[|init|];
        }
      }
      assert HasAttestation([last], c) <==> last.Attestation? && Claim(last.tag, last.payload) == c by {
        assert [last][0] == last;
      }
    }
  }

  /** The condition `merge_node` needs on a source: the subtree of each branch at its root has, under the
      last branch for an operation, whatever it has under any branch for it. */
  ghost predicate SelfCovering<A>(s: Tree<A>) {
    forall i :: 0 <= i < |s.items| && s.items[i].Branch? ==> Covers(s.items[i].child, s.items[i].child)
  }

  lemma MergedItemIsCovered<A>(t: Tree<A>, item: Item<A>)
    requires item.Branch? ==> Covers(item.child, item.child)
    ensures CoversItem(MergeItem(t, item), item)
  {
    match item
    case Attestation(tag, payload) =>
      MergeItemKeepsAttestation(t, item, Claim(tag, payload));
    case Branch(operation, child) =>
      MergeItemLookup(t, item, operation);
      match LastChild(t.items, operation)
      case None =>
      case Some(existing) => MergePassesCover(existing, child, child);
  }

  lemma {:induction false} MergedIsCovered<A>(t: Tree<A>, source: seq<Item<A>>)
    requires forall i :: 0 <= i < |source| && source[i].Branch? ==> Covers(source[i].child, source[i].child)
    ensures forall i :: 0 <= i < |source| ==> CoversItem(MergeItems(t, source), source[i])
    decreases source, 0
  {
    if source != [] {
      var init, last := source[..|source| - 1], source[|source| - 1];
      var mid := MergeItems(t, init);
      MergedIsCovered(t, init);
      MergedItemIsCovered(mid, last);
      forall i | 0 <= i < |init| ensures CoversItem(MergeItem(mid, last), init[i]) {
        MergeItemKeepsCover(mid, last, init[i]);
      }
      assert forall i :: 0 <= i < |source| ==> source[i] == if i < |init| then init[i] else last;
    }
  }

  /** Merging twice is merging once, into any target, when the source covers itself below its root; the
      second merge returns 0. */
  lemma MergeTwice<A>(t: Tree<A>, s: Tree<A>)
    requires SelfCovering(s)
    ensures MergeCount(MergeTrees(t, s), s) == 0
    ensures MergeTrees(MergeTrees(t, s), s) == MergeTrees(t, s)
  {
    MergedIsCovered(t, s.items);
    CountZero(MergeTrees(t, s), s);
  }

  /** So it is when no node below the root repeats an operation. */
  lemma DistinctIsSelfCovering<A>(s: Tree<A>)
    requires DistinctBelow(s)
    ensures SelfCovering(s)
  {
    forall i | 0 <= i < |s.items| && s.items[i].Branch? ensures Covers(s.items[i].child, s.items[i].child) {
      DistinctCoversItself(s.items[i].child);
    }
  }

  // ----- exactly when -----

  /** Whatever `b` covers, `a` covers. */
  ghost predicate Dominates<A(!new)>(a: Tree<A>, b: Tree<A>) {
    forall y: Item<A> :: CoversItem(b, y) ==> CoversItem(a, y)
  }

  /** Domination goes down to what a lookup finds. */
  lemma DominatesBelow<A(!new)>(a: Tree<A>, b: Tree<A>, operation: Bytes)
    requires Dominates(a, b) && LastChild(b.items, operation).Some?
    ensures LastChild(a.items, operation).Some?
    ensures Dominates(LastChild(a.items, operation).value, LastChild(b.items, operation).value)
  {
    var u := LastChild(b.items, operation).value;
    assert CoversItem(b, Branch(operation, Tree(u.site, [])));
    assert CoversItem(a, Branch(operation, Tree(u.site, [])));
    var v := LastChild(a.items, operation).value;
    forall y: Item<A> | CoversItem(u, y) ensures CoversItem(v, y) {
      var only := Tree(u.site, [y]);
      assert Covers(u, only);
      var wanted := Branch(operation, only);
      assert CoversItem(b, wanted);
      assert CoversItem(a, wanted);
      assert Covers(v, only) && only.items[0] == y;
    }
  }

  lemma {:induction false} MergeItemIsMonotone<A(!new)>(a: Tree<A>, b: Tree<A>, item: Item<A>)
    requires Dominates(a, b)
    ensures Dominates(MergeItem(a, item), MergeItem(b, item))
    decreases item, 2
  {
    forall y: Item<A> | CoversItem(MergeItem(b, item), y) ensures CoversItem(MergeItem(a, item), y) {
      match y
      case Attestation(tag, payload) =>
        MergeItemKeepsAttestation(a, item, Claim(tag, payload));
        MergeItemKeepsAttestation(b, item, Claim(tag, payload));
        assert CoversItem(b, y) ==> CoversItem(a, y);
      case Branch(operation, x) =>
        MergeBranchIsMonotone(a, b, item, operation, x);
    }
  }

  lemma {:induction false} MergeBranchIsMonotone<A(!new)>(a: Tree<A>, b: Tree<A>, item: Item<A>, operation: Bytes, x: Tree<A>)
    requires Dominates(a, b) && CoversItem(MergeItem(b, item), Branch(operation, x))
    ensures CoversItem(MergeItem(a, item), Branch(operation, x))
    decreases item, 1
  {
    MergeItemLookup(a, item, operation);
    MergeItemLookup(b, item, operation);
    var u, v := LastChild(b.items, operation), LastChild(a.items, operation);
    if item.Branch? && item.operation == operation {
      if u.Some? {
        DominatesBelow(a, b, operation);
        MergeIsMonotone(v.value, u.value, item.child.items);
        var above, below := MergeTrees(v.value, item.child), MergeTrees(u.value, item.child);
        assert forall i :: 0 <= i < |x.items| ==> CoversItem(below, x.items[i]) && CoversItem(above, x.items[i]);
      } else if v.Some? {
        MergePassesCover(v.value, item.child, x);
      }
    } else {
      assert CoversItem(b, Branch(operation, x));
    }
  }

  lemma {:induction false} MergeIsMonotone<A(!new)>(a: Tree<A>, b: Tree<A>, source: seq<Item<A>>)
    requires Dominates(a, b)
    ensures Dominates(MergeItems(a, source), MergeItems(b, source))
    decreases source, 0
  {
    if source != [] {
      MergeIsMonotone(a, b, source[..|source| - 1]);
      MergeItemIsMonotone(MergeItems(a, source[..|source| - 1]), MergeItems(b, source[..|source| - 1]), source[|source| - 1]);
    }
  }

  /** Merging a source twice is merging it once, into every target, if and only if it is so into an empty node:
      the one merge has to build all that the other looks for. */
  lemma MergesTwiceEverywhere<A(!new)>(s: Tree<A>)
    ensures var once := MergeTrees(Tree(s.site, []), s);
            && ((forall t: Tree<A> :: MergeCount(MergeTrees(t, s), s) == 0) <==> MergeCount(once, s) == 0)
            && (MergeCount(once, s) == 0 <==> Covers(once, s))
            && (MergeCount(once, s) == 0
                ==> forall t: Tree<A> :: MergeTrees(MergeTrees(t, s), s) == MergeTrees(t, s))
  {
    var empty: Tree<A> := Tree(s.site, []);
    var once := MergeTrees(empty, s);
    CountZero(once, s);
    if Covers(once, s) {
      forall t: Tree<A>
        ensures MergeCount(MergeTrees(t, s), s) == 0 && MergeTrees(MergeTrees(t, s), s) == MergeTrees(t, s)
      {
        assert Dominates(t, empty);
        MergeIsMonotone(t, empty, s.items);
        assert forall i :: 0 <= i < |s.items| ==> CoversItem(once, s.items[i]);
        CountZero(MergeTrees(t, s), s);
      }
    }
  }

  /** For a source that repeats no operation at its root, that is if and only if it covers itself below it. */
  lemma DistinctRootsMergeTwice<A(!new)>(s: Tree<A>)
    requires DistinctOperations(s.items)
    ensures (forall t: Tree<A> :: MergeCount(MergeTrees(t, s), s) == 0) <==> SelfCovering(s)
  {
    MergesTwiceEverywhere(s);
    AppendedTwice(Tree(s.site, []), s);
  }

  /** Into a node none of whose branches a source shares, merging that source adds nothing the second
      time exactly when every subtree it appends covers itself. */
  lemma AppendedTwice<A>(t: Tree<A>, s: Tree<A>)
    requires DistinctOperations(s.items)
    requires forall i :: 0 <= i < |s.items| && s.items[i].Branch? ==> LastChild(t.items, s.items[i].operation).None?
    ensures MergeCount(MergeTrees(t, s), s) == 0
       <==> forall i :: 0 <= i < |s.items| && s.items[i].Branch? ==> Covers(s.items[i].child, s.items[i].child)
  {
    var merged := MergeTrees(t, s);
    CountZero(merged, s);
    AppendedWholesale(t, s.items);
    forall i | 0 <= i < |s.items|
      ensures CoversItem(merged, s.items[i])
         <==> (s.items[i].Branch? ==> Covers(s.items[i].child, s.items[i].child))
    {
      if s.items[i].Branch? {
        assert LastChild(merged.items, s.items[i].operation) == Some(s.items[i].child);
      }
    }
  }

  lemma {:induction false} AppendedWholesale<A>(t: Tree<A>, source: seq<Item<A>>)
    requires DistinctOperations(source)
    requires forall i :: 0 <= i < |source| && source[i].Branch? ==> LastChild(t.items, source[i].operation).None?
    ensures forall i :: 0 <= i < |source| && source[i].Branch?
              ==> LastChild(MergeItems(t, source).items, source[i].operation) == Some(source[i].child)
    ensures forall i :: 0 <= i < |source| && source[i].Attestation?
              ==> HasAttestation(MergeItems(t, source).items, Claim(source[i].tag, source[i].payload))
    ensures forall op :: (forall i :: 0 <= i < |source| && source[i].Branch? ==> source[i].operation != op)
              ==> LastChild(MergeItems(t, source).items, op) == LastChild(t.items, op)
    decreases source
  {
    if source != [] {
      var init, last := source[..|source| - 1], source[|source| - 1];
      var mid := MergeItems(t, init);
      assert forall i :: 0 <= i < |init| ==> init[i] == source[i];
      AppendedWholesale(t, init);
      forall op { MergeItemLookup(mid, last, op); }
      forall c { MergeItemKeepsAttestation(mid, last, c); }
    }
  }

  const PAD: Bytes := [0, 0, 0, 0, 0, 0, 0, 0]

  /** One operation, below it two branches for the same operation with different contents. */
  function RepeatedOperation(): Timestamp {
    var twice := Tree((), [
      Branch([0x08], Tree((), [Attestation(PAD, [1])])),
      Branch([0x08], Tree((), [Attestation(PAD, [2])]))]);
    Tree((), [Branch([0xf2], twice)])
  }

  /** "Merging twice is idempotent" fails for this source, which a calendar can send: merged into a
      node that has none of it, the second merge adds again. */
  lemma MergeTwiceCanAdd()
    ensures WellFormed(RepeatedOperation())
    ensures forall site: Item<()> :: site.Attestation? ==>
              MergeCount(MergeTrees(Tree((), [site]), RepeatedOperation()), RepeatedOperation()) > 0
  {
    var s := RepeatedOperation();
    var twice := s.items[0].child;
    assert WellFormedItem(twice.items[0]) && WellFormedItem(twice.items[1]);
    assert WellFormedItem(s.items[0]);
    assert !Covers(twice, twice) by {
      assert LastBranch(twice.items, [0x08]) == Some(1);
      assert !HasAttestation(twice.items[1].child.items, Claim(PAD, [1]));
      assert !CoversItem(twice.items[1].child, twice.items[0].child.items[0]);
      assert !CoversItem(twice, twice.items[0]);
    }
    forall site: Item<()> | site.Attestation?
      ensures MergeCount(MergeTrees(Tree((), [site]), s), s) > 0
    {
      AppendedTwice(Tree((), [site]), s);
    }
  }

  // ----- coverage is containment of attestation paths -----

  /** A well-formed timestamp attests something. */
  lemma {:induction false} SomethingAttested<A>(t: Tree<A>) returns (path: seq<Bytes>, c: Claim)
    requires WellFormed(t)
    ensures Attests(t, path, c)
    decreases t
  {
    assert WellFormedItem(t.items[0]);
    match t.items[0]
    case Attestation(tag, payload) =>
      path, c := [], Claim(tag, payload);
    case Branch(operation, child) =>
      var below;
      below, c := SomethingAttested(child);
      path := [operation] + below;
      assert path[1..] == below;
      assert ItemAttests(t.items[0], path, c);
  }

  ghost predicate Contains<A>(t: Tree<A>, s: Tree<A>) {
    forall path, c :: Attests(s, path, c) ==> Attests(t, path, c)
  }

  lemma {:induction false} CoversContains<A>(t: Tree<A>, s: Tree<A>)
    requires Covers(t, s)
    ensures Contains(t, s)
  {
    CountZero(t, s);
    forall path, c | Attests(s, path, c) ensures Attests(t, path, c) {
      MergeIsUnion(t, s, path, c);
    }
  }

  lemma {:induction false} ContainsCovers<A>(t: Tree<A>, s: Tree<A>)
    requires DeepDistinct(t) && WellFormed(s) && Contains(t, s)
    ensures Covers(t, s)
    decreases s
  {
    forall i | 0 <= i < |s.items| ensures CoversItem(t, s.items[i]) {
      assert WellFormedItem(s.items[i]);
      match s.items[i]
      case Attestation(tag, payload) =>
        assert ItemAttests(s.items[i], [], Claim(tag, payload));
        assert Attests(s, [], Claim(tag, payload));
        AttestsHere(t, Claim(tag, payload));
      case Branch(operation, child) =>
        var below, c := SomethingAttested(child);
        BelowBranch(t, s, i, below, c);
        var k := LastBranch(t.items, operation).value;
        forall path, c | Attests(child, path, c) ensures Attests(t.items[k].child, path, c) {
          BelowBranch(t, s, i, path, c);
        }
        ContainsCovers(t.items[k].child, child);
    }
  }

  lemma BelowBranch<A>(t: Tree<A>, s: Tree<A>, i: nat, below: seq<Bytes>, c: Claim)
    requires i < |s.items| && s.items[i].Branch? && Attests(s.items[i].child, below, c)
    requires DistinctOperations(t.items) && Contains(t, s)
    ensures LastBranch(t.items, s.items[i].operation).Some?
    ensures Attests(t.items[LastBranch(t.items, s.items[i].operation).value].child, below, c)
  {
    var operation := s.items[i].operation;
    var path := [operation] + below;
    assert path[1..] == below;
    assert ItemAttests(s.items[i], path, c);
    assert Attests(s, path, c);
    var j :| 0 <= j < |t.items| && ItemAttests(t.items[j], path, c);
    assert t.items[j].Branch? && t.items[j].operation == operation;
  }

  /** The count is exact: into a target that repeats no operation, `merge_node` returns 0 if and only
      if every attestation path of the response is in the target already. */
  lemma CountZeroMeansContained<A>(t: Tree<A>, s: Tree<A>)
    requires DeepDistinct(t) && WellFormed(s)
    ensures MergeCount(t, s) == 0 <==> Contains(t, s)
  {
    CountZero(t, s);
    if Contains(t, s) {
      ContainsCovers(t, s);
    }
    if Covers(t, s) {
      CoversContains(t, s);
    }
  }

  // ----- what merging preserves -----

  lemma {:induction false} MergeItemKeepsDistinct<A>(t: Tree<A>, item: Item<A>)
    requires DeepDistinct(t) && (item.Branch? ==> DeepDistinct(item.child))
    ensures DeepDistinct(MergeItem(t, item))
    decreases item, 2
  {
    if item.Branch? && LastBranch(t.items, item.operation).Some? {
      var k := LastBranch(t.items, item.operation).value;
      MergeItemsKeepDistinct(t.items[k].child, item.child.items);
    }
  }

  lemma {:induction false} MergeItemsKeepDistinct<A>(t: Tree<A>, source: seq<Item<A>>)
    requires DeepDistinct(t)
    requires forall i :: 0 <= i < |source| && source[i].Branch? ==> DeepDistinct(source[i].child)
    ensures DeepDistinct(MergeItems(t, source))
    decreases source, 0
  {
    if source != [] {
      MergeItemsKeepDistinct(t, source[..|source| - 1]);
      MergeItemKeepsDistinct(MergeItems(t, source[..|source| - 1]), source[|source| - 1]);
    }
  }

  /** "Attestations precede operations at a node", at every node. */
  predicate AttestationsFirst<A>(t: Tree<A>) {
    && (forall i, j :: 0 <= i < j < |t.items| && t.items[j].Attestation? ==> t.items[i].Attestation?)
    && forall i :: 0 <= i < |t.items| && t.items[i].Branch? ==> AttestationsFirst(t.items[i].child)
  }

  lemma {:induction false} CountOfPrefix<A>(items: seq<Item<A>>)
    requires forall i, j :: 0 <= i < j < |items| && items[j].Attestation? ==> items[i].Attestation?
    ensures forall i :: 0 <= i < |items| ==> (items[i].Attestation? <==> i < CountAttestations(items))
  {
    if items != [] {
      CountOfPrefix(items[..|items| - 1]);
    }
  }

  lemma {:induction false} MergeItemKeepsOrder<A>(t: Tree<A>, item: Item<A>)
    requires AttestationsFirst(t) && (item.Branch? ==> AttestationsFirst(item.child))
    ensures AttestationsFirst(MergeItem(t, item))
    decreases item, 2
  {
    CountOfPrefix(t.items);
    if item.Branch? && LastBranch(t.items, item.operation).Some? {
      var k := LastBranch(t.items, item.operation).value;
      MergeItemsKeepOrder(t.items[k].child, item.child.items);
    }
  }

  lemma {:induction false} MergeItemsKeepOrder<A>(t: Tree<A>, source: seq<Item<A>>)
    requires AttestationsFirst(t)
    requires forall i :: 0 <= i < |source| && source[i].Branch? ==> AttestationsFirst(source[i].child)
    ensures AttestationsFirst(MergeItems(t, source))
    decreases source, 0
  {
    if source != [] {
      MergeItemsKeepOrder(t, source[..|source| - 1]);
      MergeItemKeepsOrder(MergeItems(t, source[..|source| - 1]), source[|source| - 1]);
    }
  }

  /** Merging keeps both shape properties the rest of the code relies on. */
  lemma MergeKeepsShape<A>(t: Tree<A>, s: Tree<A>)
    ensures DeepDistinct(t) && DistinctBelow(s) ==> DeepDistinct(MergeTrees(t, s))
    ensures AttestationsFirst(t) && AttestationsFirst(s) ==> AttestationsFirst(MergeTrees(t, s))
  {
    if DeepDistinct(t) && DistinctBelow(s) {
      MergeItemsKeepDistinct(t, s.items);
    }
    if AttestationsFirst(t) && AttestationsFirst(s) {
      MergeItemsKeepOrder(t, s.items);
    }
  }
}
