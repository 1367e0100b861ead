/** What merging guarantees: a union of paths, nothing lost, depth and shape. */
module MergeLaws {
  import opened Wire
  import opened Tree
  import opened Merge

  // ----- union -----

  lemma {:induction false} MergeItemIsUnion<A>(t: Tree<A>, item: Item<A>, path: seq<Bytes>, c: Claim)
    ensures Attests(MergeItem(t, item), path, c) <==> Attests(t, path, c) || ItemAttests(item, path, c)
    decreases item, 2
  {
    match item
    case Attestation(tag, payload) =>
      if !HasAttestation(t.items, Claim(tag, payload)) {
        InsertIsUnion(t.items, item, CountAttestations(t.items), path, c);
      }
    case Branch(operation, child) =>
      match LastBranch(t.items, operation)
      case None =>
        InsertIsUnion(t.items, item, |t.items|, path, c);
        assert t.items[..|t.items|] + [item] + t.items[|t.items|..] == t.items + [item];
      case Some(k) =>
        if path != [] {
          MergeIsUnion(t.items[k].child, child, path[1..], c);
        }
        UpdateIsUnion(t, k, MergeTrees(t.items[k].child, child), path, c);
  }

  ghost predicate SomeItemAttests<A>(items: seq<Item<A>>, path: seq<Bytes>, c: Claim) {
    exists i :: 0 <= i < |items| && ItemAttests(items[i], path, c)
  }

  lemma AttestsConcat<A>(a: seq<Item<A>>, b: seq<Item<A>>, path: seq<Bytes>, c: Claim)
    ensures SomeItemAttests(a + b, path, c) <==> SomeItemAttests(a, path, c) || SomeItemAttests(b, path, c)
  {
    if SomeItemAttests(a, path, c) {
      var i :| 0 <= i < |a| && ItemAttests(a[i], path, c);
      assert (a + b)[i] == a[i];
    }
    if SomeItemAttests(b, path, c) {
      var i :| 0 <= i < |b| && ItemAttests(b[i], path, c);
      assert (a + b)[|a| + i] == b[i];
    }
  }

  /** Splicing one item into a list adds what that item attests. */
  lemma InsertIsUnion<A>(items: seq<Item<A>>, item: Item<A>, n: nat, path: seq<Bytes>, c: Claim)
    requires n <= |items|
    ensures SomeItemAttests(items[..n] + [item] + items[n..], path, c)
       <==> SomeItemAttests(items, path, c) || ItemAttests(item, path, c)
  {
    var a, b := items[..n], items[n..];
    assert a + b == items;
    AttestsConcat(a, b, path, c);
    AttestsConcat(a + [item], b, path, c);
    AttestsConcat(a, [item], path, c);
    assert [item][0] == item;
  }

  lemma UpdateIsUnion<A>(t: Tree<A>, k: nat, merged: Tree<A>, path: seq<Bytes>, c: Claim)
    requires k < |t.items| && t.items[k].Branch?
    requires path != [] && Attests(t.items[k].child, path[1..], c) ==> Attests(merged, path[1..], c)
    ensures Attests(t.(items := t.items[k := Branch(t.items[k].operation, merged)]), path, c)
       <==> Attests(t, path, c)
            || (path != [] && path[0] == t.items[k].operation && Attests(merged, path[1..], c))
  {
    var op := t.items[k].operation;
    var items := t.items[k := Branch(op, merged)];
    if Attests(t, path, c) {
      var i :| 0 <= i < |t.items| && ItemAttests(t.items[i], path, c);
      assert ItemAttests(items[i], path, c);
    }
    if path != [] && path[0] == op && Attests(merged, path[1..], c) {
      assert ItemAttests(items[k], path, c);
    }
    if Attests(t.(items := items), path, c) {
      var i :| 0 <= i < |items| && ItemAttests(items[i], path, c);
      assert i != k ==> ItemAttests(t.items[i], path, c);
    }
  }

  lemma {:induction false} MergeItemsIsUnion<A>(t: Tree<A>, source: seq<Item<A>>, path: seq<Bytes>, c: Claim)
    ensures Attests(MergeItems(t, source), path, c)
       <==> Attests(t, path, c) || SomeItemAttests(source, path, c)
    decreases source, 0
  {
    if source != [] {
      var init, last := source[..|source| - 1], source[|source| - 1];
      MergeItemsIsUnion(t, init, path, c);
      MergeItemIsUnion(MergeItems(t, init), last, path, c);
      assert forall i :: 0 <= i < |init| ==> init[i] == source[i];
      assert SomeItemAttests(source, path, c)
        <==> SomeItemAttests(init, path, c) || ItemAttests(last, path, c);
    }
  }

  /** Merging is the union of the two sets of (operation path, tag, payload). */
  lemma {:induction false} MergeIsUnion<A>(t: Tree<A>, s: Tree<A>, path: seq<Bytes>, c: Claim)
    ensures Attests(MergeTrees(t, s), path, c) <==> Attests(t, path, c) || Attests(s, path, c)
    decreases s, 1
  {
    MergeItemsIsUnion(t, s.items, path, c);
  }

  // ----- conservation -----

  /** `all_attestations`: every attestation below a node, in depth-first order. */
  function AllAttestations<A>(items: seq<Item<A>>): seq<Claim>
    decreases items, 0
  {
    if items == [] then []
    else AllAttestations(items[..|items| - 1]) + AttestationsOf(items[|items| - 1])
  }

  function AttestationsOf<A>(item: Item<A>): seq<Claim>
    decreases item, 1
  {
    match item
    case Attestation(tag, payload) => [Claim(tag, payload)]
    case Branch(_, child) => AllAttestations(child.items)
  }

  lemma AllOfSnoc<A>(a: seq<Item<A>>, item: Item<A>)
    ensures AllAttestations(a + [item]) == AllAttestations(a) + AttestationsOf(item)
  {
    assert (a + [item])[..|a|] == a;
  }

  lemma ConcatIsAssociative<X>(a: seq<X>, b: seq<X>, c: seq<X>)
    ensures a + b + c == a + (b + c)
  {
  }

  lemma AllOfLonger<A>(a: seq<Item<A>>, b: seq<Item<A>>, last: Item<A>)
    requires AllAttestations(a + b) == AllAttestations(a) + AllAttestations(b)
    ensures AllAttestations(a + (b + [last])) == AllAttestations(a) + AllAttestations(b + [last])
  {
    hide *;
    ConcatIsAssociative(a, b, [last]);
    AllOfSnoc(a + b, last);
    AllOfSnoc(b, last);
    ConcatIsAssociative(AllAttestations(a), AllAttestations(b), AttestationsOf(last));
  }

  lemma {:induction false} AllOfConcat<A>(a: seq<Item<A>>, b: seq<Item<A>>)
    ensures AllAttestations(a + b) == AllAttestations(a) + AllAttestations(b)
    decreases |b|
  {
    if b == [] {
      assert a + b == a && AllAttestations(a) + AllAttestations(b) == AllAttestations(a);
    } else {
      AllOfConcat(a, b[..|b| - 1]);
      AllOfLonger(a, b[..|b| - 1], b[|b| - 1]);
      assert b[..|b| - 1] + [b[|b| - 1]] == b;
    }
  }

  lemma AllOfAround<A>(a: seq<Item<A>>, item: Item<A>, b: seq<Item<A>>)
    ensures AllAttestations(a + [item] + b) == AllAttestations(a) + AttestationsOf(item) + AllAttestations(b)
  {
    AllOfSnoc(a, item);
    AllOfConcat(a + [item], b);
  }

  ghost predicate Within(before: seq<Claim>, after: seq<Claim>, extra: seq<Claim>) {
    multiset(before) <= multiset(after) <= multiset(before) + multiset(extra)
  }

  lemma WithinInsert(p: seq<Claim>, mid: seq<Claim>, q: seq<Claim>)
    ensures Within(p + q, p + mid + q, mid)
  {
    assert multiset(p + mid + q) == multiset(p) + multiset(mid) + multiset(q);
    assert multiset(p + q) == multiset(p) + multiset(q);
  }

  lemma WithinReplace(p: seq<Claim>, x: seq<Claim>, y: seq<Claim>, q: seq<Claim>, extra: seq<Claim>)
    requires Within(x, y, extra)
    ensures Within(p + x + q, p + y + q, extra)
  {
    assert multiset(p + x + q) == multiset(p) + multiset(x) + multiset(q);
    assert multiset(p + y + q) == multiset(p) + multiset(y) + multiset(q);
  }

  lemma InsertConserves<A>(items: seq<Item<A>>, item: Item<A>, n: nat)
    requires n <= |items|
    ensures Within(AllAttestations(items), AllAttestations(items[..n] + [item] + items[n..]), AttestationsOf(item))
  {
    hide *;
    var a, b := items[..n], items[n..];
    AllOfAround(a, item, b);
    AllOfConcat(a, b);
    assert a + b == items;
    WithinInsert(AllAttestations(a), AttestationsOf(item), AllAttestations(b));
  }

  lemma UpdateConserves<A>(items: seq<Item<A>>, item: Item<A>, k: nat, extra: seq<Claim>)
    requires k < |items| && Within(AttestationsOf(items[k]), AttestationsOf(item), extra)
    ensures Within(AllAttestations(items), AllAttestations(items[k := item]), extra)
  {
    hide *;
    var a, b := items[..k], items[k + 1..];
    AllOfAround(a, items[k], b);
    AllOfAround(a, item, b);
    assert a + [items[k]] + b == items;
    assert a + [item] + b == items[k := item];
    WithinReplace(AllAttestations(a), AttestationsOf(items[k]), AttestationsOf(item), AllAttestations(b), extra);
  }

  lemma {:induction false} MergeItemConserves<A>(t: Tree<A>, item: Item<A>)
    ensures Within(AllAttestations(t.items), AllAttestations(MergeItem(t, item).items), AttestationsOf(item))
    decreases item, 2
  {
    hide AllAttestations, CountAttestations;
    match item
    case Attestation(tag, payload) =>
      InsertConserves(t.items, item, CountAttestations(t.items));
    case Branch(operation, child) =>
      match LastBranch(t.items, operation)
      case None =>
        InsertConserves(t.items, item, |t.items|);
        assert t.items[..|t.items|] + [item] + t.items[|t.items|..] == t.items + [item];
      case Some(k) =>
        MergeConserves(t.items[k].child, child);
        UpdateConserves(t.items, Branch(operation, MergeTrees(t.items[k].child, child)), k, AttestationsOf(item));
  }

  lemma {:induction false} MergeItemsConserve<A>(t: Tree<A>, source: seq<Item<A>>)
    ensures Within(AllAttestations(t.items), AllAttestations(MergeItems(t, source).items), AllAttestations(source))
    decreases source, 0
  {
    if source != [] {
      MergeItemsConserve(t, source[..|source| - 1]);
      MergeItemConserves(MergeItems(t, source[..|source| - 1]), source[|source| - 1]);
    }
  }

  /** The multiset of attestations only grows, and only by attestations the source carries. */
  lemma {:induction false} MergeConserves<A>(t: Tree<A>, s: Tree<A>)
    ensures Within(AllAttestations(t.items), AllAttestations(MergeTrees(t, s).items), AllAttestations(s.items))
    decreases s, 1
  {
    MergeItemsConserve(t, s.items);
  }

  // ----- depth and shape -----

  lemma HeightBound<A>(items: seq<Item<A>>, bound: nat)
    requires forall i :: 0 <= i < |items| ==> HeightOfItem(items[i]) <= bound
    ensures HeightOfItems(items) <= bound
  {
    if items != [] {
      HeightBound(items[1..], bound);
    }
  }

  function Max(a: nat, b: nat): nat {
    if a < b then b else a
  }

  /** The same items, and one more somewhere. */
  lemma HeightOfInserted<A>(items: seq<Item<A>>, item: Item<A>, n: nat)
    requires n <= |items|
    ensures HeightOfItems(items[..n] + [item] + items[n..]) == Max(HeightOfItems(items), HeightOfItem(item))
  {
    var longer := items[..n] + [item] + items[n..];
    assert longer[n] == item;
    forall i | 0 <= i < |items| ensures HeightOfItem(items[i]) <= HeightOfItems(longer) {
      assert items[i] == longer[if i < n then i else i + 1];
    }
    HeightBound(items, HeightOfItems(longer));
    HeightBound(longer, Max(HeightOfItems(items), HeightOfItem(item)));
  }

  lemma HeightOfUpdated<A>(items: seq<Item<A>>, item: Item<A>, k: nat)
    requires k < |items| && HeightOfItem(items[k]) <= HeightOfItem(item)
    ensures HeightOfItems(items[k := item]) == Max(HeightOfItems(items), HeightOfItem(item))
  {
    var updated := items[k := item];
    assert updated[k] == item;
    forall i | 0 <= i < |items| ensures HeightOfItem(items[i]) <= HeightOfItems(updated) {
      assert i != k ==> items[i] == updated[i];
    }
    HeightBound(items, HeightOfItems(updated));
    HeightBound(updated, Max(HeightOfItems(items), HeightOfItem(item)));
  }

  lemma {:induction false} MergeItemHeight<A>(t: Tree<A>, item: Item<A>)
    ensures Height(MergeItem(t, item)) == Max(Height(t), HeightOfItem(item))
    decreases item, 2
  {
    match item
    case Attestation(tag, payload) =>
      HeightOfInserted(t.items, item, CountAttestations(t.items));
    case Branch(operation, child) =>
      match LastBranch(t.items, operation)
      case None =>
        HeightOfInserted(t.items, item, |t.items|);
        assert t.items[..|t.items|] + [item] + t.items[|t.items|..] == t.items + [item];
      case Some(k) =>
        MergeHeight(t.items[k].child, child);
        HeightOfUpdated(t.items, Branch(operation, MergeTrees(t.items[k].child, child)), k);
        assert HeightOfItem(t.items[k]) <= Height(t);
  }

  lemma {:induction false} MergeItemsHeight<A>(t: Tree<A>, source: seq<Item<A>>)
    ensures Height(MergeItems(t, source)) == Max(Height(t), HeightOfItems(source))
    decreases source, 0
  {
    if source != [] {
      var init, last := source[..|source| - 1], source[|source| - 1];
      MergeItemsHeight(t, init);
      MergeItemHeight(MergeItems(t, init), last);
      HeightOfInserted(init, last, |init|);
      assert init[..|init|] + [last] + init[|init|..] == source;
    }
  }

  /** A merge is exactly as deep as the deeper of the two. */
  lemma {:induction false} MergeHeight<A>(t: Tree<A>, s: Tree<A>)
    ensures Height(MergeTrees(t, s)) == Max(Height(t), Height(s))
    decreases s, 1
  {
    MergeItemsHeight(t, s.items);
  }

  lemma {:induction false} MergeItemShape<A>(t: Tree<A>, item: Item<A>)
    requires WellFormedItem(item) && (t.items == [] || WellFormed(t))
    ensures WellFormed(MergeItem(t, item))
    decreases item, 2
  {
    var merged := MergeItem(t, item);
    if item.Branch? && LastBranch(t.items, item.operation).Some? {
      var k := LastBranch(t.items, item.operation).value;
      assert WellFormedItem(t.items[k]);
      MergeItemsShape(t.items[k].child, item.child.items);
    }
  }

  lemma {:induction false} MergeItemsShape<A>(t: Tree<A>, source: seq<Item<A>>)
    requires WellFormed(t) && forall i :: 0 <= i < |source| ==> WellFormedItem(source[i])
    ensures WellFormed(MergeItems(t, source))
    decreases source, 0
  {
    if source != [] {
      MergeItemsShape(t, source[..|source| - 1]);
      MergeItemShape(MergeItems(t, source[..|source| - 1]), source[|source| - 1]);
    }
  }

  /** A merge of well-formed timestamps is well formed, and exactly as deep as the deeper of the two. */
  lemma MergeShape<A>(t: Tree<A>, s: Tree<A>)
    requires WellFormed(t) && WellFormed(s)
    ensures WellFormed(MergeTrees(t, s))
    ensures Height(MergeTrees(t, s)) == Max(Height(t), Height(s))
  {
    MergeItemsShape(t, s.items);
    MergeHeight(t, s);
  }

  // ----- forgetting sites commutes with merging -----

  lemma EraseAttestation<A>(items: seq<Item<A>>, c: Claim)
    ensures HasAttestation(EraseItems(items), c) <==> HasAttestation(items, c)
  {
    var erased := EraseItems(items);
    if HasAttestation(items, c) {
      var i :| 0 <= i < |items| && items[i].Attestation? && Claim(items[i].tag, items[i].payload) == c;
      assert erased[i] == EraseItem(items[i]);
    }
    if HasAttestation(erased, c) {
      var i :| 0 <= i < |items| && erased[i].Attestation? && Claim(erased[i].tag, erased[i].payload) == c;
      assert erased[i] == EraseItem(items[i]);
    }
  }

  lemma EraseConcat<A>(a: seq<Item<A>>, b: seq<Item<A>>)
    ensures EraseItems(a + b) == EraseItems(a) + EraseItems(b)
    ensures a != [] ==> EraseItems(a[..|a| - 1]) == EraseItems(a)[..|a| - 1]
  {
    hide *;
  }

  lemma {:induction false} EraseLookups<A>(items: seq<Item<A>>, operation: Bytes)
    ensures CountAttestations(EraseItems(items)) == CountAttestations(items)
    ensures LastBranch(EraseItems(items), operation) == LastBranch(items, operation)
  {
    if items != [] {
      EraseConcat(items, []);
      EraseLookups(items[..|items| - 1], operation);
      assert EraseItems(items)[|items| - 1] == EraseItem(items[|items| - 1]);
    }
  }

  lemma EraseInsert<A>(items: seq<Item<A>>, n: nat, item: Item<A>)
    requires n <= |items|
    ensures EraseItems(items[..n] + [item] + items[n..])
         == EraseItems(items)[..n] + [EraseItem(item)] + EraseItems(items)[n..]
  {
    var a, b := items[..n], items[n..];
    EraseConcat(a, b);
    assert a + b == items;
    EraseConcat(a + [item], b);
    EraseConcat(a, [item]);
    assert EraseItems([item]) == [EraseItem(item)];
  }

  lemma EraseUpdate<A>(items: seq<Item<A>>, k: nat, item: Item<A>)
    requires k < |items|
    ensures EraseItems(items[k := item]) == EraseItems(items)[k := EraseItem(item)]
  {
    hide *;
  }

  lemma {:induction false} EraseMergeItem<A>(t: Tree<A>, item: Item<A>)
    ensures Erase(MergeItem(t, item)) == MergeItem(Erase(t), EraseItem(item))
    decreases item, 2
  {
    match item
    case Attestation(tag, payload) =>
      EraseAttestation(t.items, Claim(tag, payload));
      EraseLookups(t.items, []);
      EraseInsert(t.items, CountAttestations(t.items), item);
    case Branch(operation, child) =>
      EraseLookups(t.items, operation);
      match LastBranch(t.items, operation)
      case None =>
        EraseConcat(t.items, [item]);
        assert EraseItems([item]) == [EraseItem(item)];
      case Some(k) =>
        EraseMerge(t.items[k].child, child);
        assert EraseItem(t.items[k]).child == Erase(t.items[k].child) && EraseItem(item).child == Erase(child);
        var merged := Branch(operation, MergeTrees(t.items[k].child, child));
        EraseUpdate(t.items, k, merged);
  }

  lemma {:induction false} EraseMergeItems<A>(t: Tree<A>, source: seq<Item<A>>)
    ensures Erase(MergeItems(t, source)) == MergeItems(Erase(t), EraseItems(source))
    decreases source, 0
  {
    if source != [] {
      var init, last := source[..|source| - 1], source[|source| - 1];
      EraseMergeItems(t, init);
      EraseMergeItem(MergeItems(t, init), last);
      assert EraseItems(source)[..|source| - 1] == EraseItems(init);
    }
  }

  lemma {:induction false} EraseMerge<A>(t: Tree<A>, s: Tree<A>)
    ensures Erase(MergeTrees(t, s)) == MergeTrees(Erase(t), Erase(s))
    decreases s, 1
  {
    EraseMergeItems(t, s.items);
  }
}
