/** What grafting responses into a tree attests: the union, under the path of the grafted node. */
module GraftLaws {
  import opened Wire
  import opened Tree
  import opened Merge
  import opened MergeLaws
  import opened Idempotence
  import opened Graft

  /** These operations lead from the root to the node at `site`. */
  ghost predicate Leads<A>(t: Tree<A>, path: seq<Bytes>, site: A)
    decreases path, 1
  {
    if t.site == site then path == [] else exists i :: 0 <= i < |t.items| && ItemLeads(t.items[i], path, site)
  }

  ghost predicate ItemLeads<A>(item: Item<A>, path: seq<Bytes>, site: A)
    decreases path, 0
  {
    item.Branch? && path != [] && path[0] == item.operation && Leads(item.child, path[1..], site)
  }

  /** Some prefix of the path leads to the site and `s` attests the rest. */
  ghost predicate AttestsBelow<A>(t: Tree<A>, site: A, s: Tree<A>, path: seq<Bytes>, c: Claim) {
    exists k :: 0 <= k <= |path| && Leads(t, path[..k], site) && Attests(s, path[k..], c)
  }

  ghost predicate ItemAttestsBelow<A>(item: Item<A>, site: A, s: Tree<A>, path: seq<Bytes>, c: Claim) {
    exists k :: 0 <= k <= |path| && ItemLeads(item, path[..k], site) && Attests(s, path[k..], c)
  }

  lemma {:induction false} GraftItemIsUnion<A>(item: Item<A>, site: A, s: Tree<A>, path: seq<Bytes>, c: Claim)
    ensures ItemAttests(MergeAtItem(item, site, s), path, c)
       <==> ItemAttests(item, path, c) || ItemAttestsBelow(item, site, s, path, c)
    decreases item, 1
  {
    if item.Branch? && path != [] && path[0] == item.operation {
      var child, rest := item.child, path[1..];
      GraftIsUnion(child, site, s, rest, c);
      if AttestsBelow(child, site, s, rest, c) {
        var k :| 0 <= k <= |rest| && Leads(child, rest[..k], site) && Attests(s, rest[k..], c);
        assert path[..k + 1][1..] == rest[..k] && path[k + 1..] == rest[k..];
        assert ItemLeads(item, path[..k + 1], site);
      }
      if ItemAttestsBelow(item, site, s, path, c) {
        var k :| 0 <= k <= |path| && ItemLeads(item, path[..k], site) && Attests(s, path[k..], c);
        assert path[..k][1..] == rest[..k - 1] && path[k..] == rest[k - 1..];
        assert Leads(child, rest[..k - 1], site);
      }
    }
  }

  /** Grafting is a union: what the tree attested, and what the grafted timestamp attests below the
      path of the node it was merged into. */
  lemma {:induction false} GraftIsUnion<A>(t: Tree<A>, site: A, s: Tree<A>, path: seq<Bytes>, c: Claim)
    ensures Attests(MergeAt(t, site, s), path, c) <==> Attests(t, path, c) || AttestsBelow(t, site, s, path, c)
    decreases t, 2
  {
    if t.site == site {
      MergeIsUnion(t, s, path, c);
      assert path[..0] == [] && path[0..] == path;
    } else {
      var grafted := MergeAt(t, site, s);
      forall i | 0 <= i < |t.items|
        ensures ItemAttests(grafted.items[i], path, c)
           <==> ItemAttests(t.items[i], path, c) || ItemAttestsBelow(t.items[i], site, s, path, c)
      {
        GraftItemIsUnion(t.items[i], site, s, path, c);
      }
      if AttestsBelow(t, site, s, path, c) {
        var k :| 0 <= k <= |path| && Leads(t, path[..k], site) && Attests(s, path[k..], c);
        var i :| 0 <= i < |t.items| && ItemLeads(t.items[i], path[..k], site);
        assert ItemAttestsBelow(t.items[i], site, s, path, c);
        assert ItemAttests(grafted.items[i], path, c);
      }
      if Attests(t, path, c) {
        var i :| 0 <= i < |t.items| && ItemAttests(t.items[i], path, c);
        assert ItemAttests(grafted.items[i], path, c);
      }
      if Attests(grafted, path, c) {
        var i :| 0 <= i < |t.items| && ItemAttests(grafted.items[i], path, c);
        if ItemAttestsBelow(t.items[i], site, s, path, c) {
          var k :| 0 <= k <= |path| && ItemLeads(t.items[i], path[..k], site) && Attests(s, path[k..], c);
          assert Leads(t, path[..k], site);
        }
      }
    }
  }

  // ----- the node's path is not changed by grafting -----

  lemma {:induction false} LeadsInside<A>(t: Tree<A>, path: seq<Bytes>, site: A)
    requires Leads(t, path, site)
    ensures site in Sites(t)
    decreases path
  {
    if t.site != site {
      var i :| 0 <= i < |t.items| && ItemLeads(t.items[i], path, site);
      LeadsInside(t.items[i].child, path[1..], site);
      assert site in ItemSites(t.items[i]);
    }
  }

  lemma MergeItemSites<A>(item: Item<A>, path: seq<Bytes>, site: A)
    requires site !in ItemSites(item)
    ensures !ItemLeads(item, path, site)
  {
    if ItemLeads(item, path, site) {
      LeadsInside(item.child, path[1..], site);
    }
  }

  lemma {:induction false} MergeItemLeads<A>(t: Tree<A>, item: Item<A>, path: seq<Bytes>, site: A)
    requires site !in ItemSites(item)
    ensures Leads(MergeItem(t, item), path, site) <==> Leads(t, path, site)
    decreases item, 2
  {
    var merged := MergeItem(t, item);
    MergeItemSites(item, path, site);
    if t.site != site {
      match item
      case Attestation(tag, payload) =>
        if merged != t {
          InsertLeads(t.items, item, CountAttestations(t.items), path, site);
        }
      case Branch(operation, child) =>
        match LastBranch(t.items, operation)
        case None =>
          InsertLeads(t.items, item, |t.items|, path, site);
          assert t.items[..|t.items|] + [item] + t.items[|t.items|..] == t.items + [item];
        case Some(k) =>
          if path != [] {
            MergeLeads(t.items[k].child, child, path[1..], site);
          }
          assert ItemLeads(merged.items[k], path, site) <==> ItemLeads(t.items[k], path, site);
          assert forall i :: 0 <= i < |t.items| && i != k ==> merged.items[i] == t.items[i];
    }
  }

  ghost predicate SomeItemLeads<A>(items: seq<Item<A>>, path: seq<Bytes>, site: A) {
    exists i :: 0 <= i < |items| && ItemLeads(items[i], path, site)
  }

  lemma InsertLeads<A>(items: seq<Item<A>>, item: Item<A>, n: nat, path: seq<Bytes>, site: A)
    requires n <= |items| && !ItemLeads(item, path, site)
    ensures SomeItemLeads(items[..n] + [item] + items[n..], path, site) <==> SomeItemLeads(items, path, site)
  {
    var inserted := items[..n] + [item] + items[n..];
    if SomeItemLeads(items, path, site) {
      var i :| 0 <= i < |items| && ItemLeads(items[i], path, site);
      assert inserted[if i < n then i else i + 1] == items[i];
    }
    if SomeItemLeads(inserted, path, site) {
      var i :| 0 <= i < |inserted| && ItemLeads(inserted[i], path, site);
      assert i != n ==> inserted[i] == items[if i < n then i else i - 1];
    }
  }

  lemma {:induction false} MergeItemsLeads<A>(t: Tree<A>, source: seq<Item<A>>, path: seq<Bytes>, site: A)
    requires forall i :: 0 <= i < |source| ==> site !in ItemSites(source[i])
    ensures Leads(MergeItems(t, source), path, site) <==> Leads(t, path, site)
    decreases source, 0
  {
    if source != [] {
      MergeItemsLeads(t, source[..|source| - 1], path, site);
      MergeItemLeads(MergeItems(t, source[..|source| - 1]), source[|source| - 1], path, site);
    }
  }

  lemma {:induction false} MergeLeads<A>(t: Tree<A>, s: Tree<A>, path: seq<Bytes>, site: A)
    requires site !in Sites(s)
    ensures Leads(MergeTrees(t, s), path, site) <==> Leads(t, path, site)
    decreases s, 1
  {
    MergeItemsLeads(t, s.items, path, site);
  }

  /** The path of a node is the same before and after responses are grafted anywhere. */
  lemma {:induction false} GraftLeads<A>(t: Tree<A>, at: A, s: Tree<A>, path: seq<Bytes>, site: A)
    requires site !in Sites(s)
    ensures Leads(MergeAt(t, at, s), path, site) <==> Leads(t, path, site)
    decreases t
  {
    if t.site == at {
      MergeLeads(t, s, path, site);
    } else {
      var grafted := MergeAt(t, at, s);
      forall i | 0 <= i < |t.items|
        ensures ItemLeads(grafted.items[i], path, site) <==> ItemLeads(t.items[i], path, site)
      {
        assert grafted.items[i] == MergeAtItem(t.items[i], at, s);
        if t.items[i].Branch? && path != [] {
          GraftLeads(t.items[i].child, at, s, path[1..], site);
        }
      }
    }
  }

  lemma {:induction false} MergeItemsKeepSites<A>(t: Tree<A>, source: seq<Item<A>>)
    ensures Sites(t) <= Sites(MergeItems(t, source))
    decreases source, 0
  {
    if source != [] {
      MergeItemsKeepSites(t, source[..|source| - 1]);
      MergeItemKeepsSites(MergeItems(t, source[..|source| - 1]), source[|source| - 1]);
    }
  }

  lemma {:induction false} MergeItemKeepsSites<A>(t: Tree<A>, item: Item<A>)
    ensures Sites(t) <= Sites(MergeItem(t, item))
    decreases item, 2
  {
    var merged := MergeItem(t, item);
    var k := if item.Branch? then LastBranch(t.items, item.operation) else None;
    if k.Some? {
      MergeItemsKeepSites(t.items[k.value].child, item.child.items);
    }
    var n := if item.Branch? then |t.items| else CountAttestations(t.items);
    forall i | 0 <= i < |t.items| ensures ItemSites(t.items[i]) <= Sites(merged) {
      var j := if merged == t || k.Some? || i < n then i else i + 1;
      assert ItemSites(t.items[i]) <= ItemSites(merged.items[j]);
    }
  }

  /** Grafting drops no node. */
  lemma {:induction false} GraftKeepsSites<A>(t: Tree<A>, at: A, s: Tree<A>)
    ensures Sites(t) <= Sites(MergeAt(t, at, s))
    decreases t
  {
    if t.site == at {
      MergeItemsKeepSites(t, s.items);
    } else {
      var grafted := MergeAt(t, at, s);
      forall i | 0 <= i < |t.items| ensures ItemSites(t.items[i]) <= ItemSites(grafted.items[i]) {
        assert grafted.items[i] == MergeAtItem(t.items[i], at, s);
        if t.items[i].Branch? {
          GraftKeepsSites(t.items[i].child, at, s);
        }
      }
    }
  }

  // ----- shape -----

  lemma {:induction false} GraftWellFormed<A>(t: Tree<A>, site: A, s: Tree<A>)
    requires WellFormed(t) && WellFormed(s)
    ensures WellFormed(MergeAt(t, site, s))
    decreases t
  {
    if t.site == site {
      MergeShape(t, s);
    } else {
      var grafted := MergeAt(t, site, s);
      forall i | 0 <= i < |t.items| ensures WellFormedItem(grafted.items[i]) {
        assert WellFormedItem(t.items[i]) && grafted.items[i] == MergeAtItem(t.items[i], site, s);
        if t.items[i].Branch? {
          GraftWellFormed(t.items[i].child, site, s);
        }
      }
    }
  }

  // ----- a whole round of responses -----

  /** `t` after the first `n` answers have been merged, each into the node it was asked for. */
  function Grafted<A(==)>(t: Tree<A>, sites: seq<A>, answers: seq<Option<Tree<A>>>, n: nat): Tree<A>
    requires n <= |sites| && n <= |answers|
  {
    if n == 0 then t
    else
      var before := Grafted(t, sites, answers, n - 1);
      if answers[n - 1].None? then before else MergeAt(before, sites[n - 1], answers[n - 1].value)
  }

  /** One of the first `n` answers attests this below the node it was asked for. */
  ghost predicate AnswerAttests<A>(t: Tree<A>, sites: seq<A>, answers: seq<Option<Tree<A>>>, n: nat,
                                   path: seq<Bytes>, c: Claim)
    requires n <= |sites| && n <= |answers|
  {
    exists i :: 0 <= i < n && answers[i].Some? && AttestsBelow(t, sites[i], answers[i].value, path, c)
  }

  /** The answers' own nodes are none of the nodes asked for. */
  ghost predicate Foreign<A>(sites: seq<A>, answers: seq<Option<Tree<A>>>) {
    forall i, j :: 0 <= i < |sites| && 0 <= j < |answers| && answers[j].Some? ==> sites[i] !in Sites(answers[j].value)
  }

  lemma {:induction false} GraftedLeads<A>(t: Tree<A>, sites: seq<A>, answers: seq<Option<Tree<A>>>, n: nat,
                                           path: seq<Bytes>, i: nat)
    requires n <= |sites| && n <= |answers| && i < |sites| && Foreign(sites, answers)
    ensures Leads(Grafted(t, sites, answers, n), path, sites[i]) <==> Leads(t, path, sites[i])
    decreases n
  {
    if n > 0 {
      GraftedLeads(t, sites, answers, n - 1, path, i);
      if answers[n - 1].Some? {
        GraftLeads(Grafted(t, sites, answers, n - 1), sites[n - 1], answers[n - 1].value, path, sites[i]);
      }
    }
  }

  /** A round of collecting attests exactly what the proof attested before and what each answer
      attests, prefixed by the path of the node it was merged into. */
  lemma {:induction false} GraftedIsUnion<A>(t: Tree<A>, sites: seq<A>, answers: seq<Option<Tree<A>>>, n: nat,
                                             path: seq<Bytes>, c: Claim)
    requires n <= |sites| && n <= |answers| && Foreign(sites, answers)
    ensures Attests(Grafted(t, sites, answers, n), path, c)
       <==> Attests(t, path, c) || AnswerAttests(t, sites, answers, n, path, c)
    decreases n
  {
    if n > 0 {
      GraftedIsUnion(t, sites, answers, n - 1, path, c);
      if answers[n - 1].Some? {
        var before, s := Grafted(t, sites, answers, n - 1), answers[n - 1].value;
        GraftIsUnion(before, sites[n - 1], s, path, c);
        forall k | 0 <= k <= |path|
          ensures Leads(before, path[..k], sites[n - 1]) <==> Leads(t, path[..k], sites[n - 1])
        {
          GraftedLeads(t, sites, answers, n - 1, path[..k], n - 1);
        }
        assert AttestsBelow(before, sites[n - 1], s, path, c) <==> AttestsBelow(t, sites[n - 1], s, path, c);
      }
    }
  }

  lemma {:induction false} GraftedWellFormed<A>(t: Tree<A>, sites: seq<A>, answers: seq<Option<Tree<A>>>, n: nat)
    requires n <= |sites| && n <= |answers| && WellFormed(t)
    requires forall i :: 0 <= i < n && answers[i].Some? ==> WellFormed(answers[i].value)
    ensures WellFormed(Grafted(t, sites, answers, n))
    decreases n
  {
    if n > 0 {
      GraftedWellFormed(t, sites, answers, n - 1);
      if answers[n - 1].Some? {
        GraftWellFormed(Grafted(t, sites, answers, n - 1), sites[n - 1], answers[n - 1].value);
      }
    }
  }

  // ----- depth -----

  /** The node at this site, wherever it is, leaves room for a subtree of this height. */
  ghost predicate Room<A>(t: Tree<A>, site: A, height: nat, bound: nat) {
    forall path: seq<Bytes> :: Leads(t, path, site) ==> |path| + height <= bound
  }

  lemma RoomBelow<A>(t: Tree<A>, site: A, height: nat, bound: nat)
    requires t.site != site && bound > 0
    ensures Room(t, site, height, bound)
       <==> forall i :: 0 <= i < |t.items| && t.items[i].Branch? ==> Room(t.items[i].child, site, height, bound - 1)
  {
    if Room(t, site, height, bound) {
      forall i, path: seq<Bytes> | 0 <= i < |t.items| && t.items[i].Branch? && Leads(t.items[i].child, path, site)
        ensures |path| + height <= bound - 1
      {
        var longer := [t.items[i].operation] + path;
        assert longer[1..] == path;
        assert ItemLeads(t.items[i], longer, site);
        assert Leads(t, longer, site);
      }
    }
    if forall i :: 0 <= i < |t.items| && t.items[i].Branch? ==> Room(t.items[i].child, site, height, bound - 1) {
      forall path: seq<Bytes> | Leads(t, path, site) ensures |path| + height <= bound {
        var i :| 0 <= i < |t.items| && ItemLeads(t.items[i], path, site);
        assert Room(t.items[i].child, site, height, bound - 1) && Leads(t.items[i].child, path[1..], site);
      }
    }
  }

  lemma HeightWithin<A>(items: seq<Item<A>>, bound: nat)
    ensures HeightOfItems(items) <= bound <==> forall i :: 0 <= i < |items| ==> HeightOfItem(items[i]) <= bound
  {
    if forall i :: 0 <= i < |items| ==> HeightOfItem(items[i]) <= bound {
      HeightBound(items, bound);
    }
  }

  lemma LeafHasRoom<A>(t: Tree<A>, site: A, height: nat)
    requires t.site != site && Height(t) == 0
    ensures Room(t, site, height, 0)
  {
    assert forall i :: 0 <= i < |t.items| ==> HeightOfItem(t.items[i]) <= 0;
    assert forall i :: 0 <= i < |t.items| ==> t.items[i].Attestation?;
  }

  /** Grafting stays within a bound exactly when the tree did and the node leaves room for what is grafted. */
  lemma {:induction false} GraftHeight<A>(t: Tree<A>, site: A, s: Tree<A>, bound: nat)
    ensures Height(MergeAt(t, site, s)) <= bound <==> Height(t) <= bound && Room(t, site, Height(s), bound)
    decreases t
  {
    if t.site == site {
      MergeHeight(t, s);
      assert Leads(t, [], site);
    } else {
      var grafted := MergeAt(t, site, s);
      assert forall i :: 0 <= i < |t.items| ==> grafted.items[i] == MergeAtItem(t.items[i], site, s);
      forall i | 0 <= i < |t.items| && t.items[i].Branch? && bound > 0
        ensures Height(MergeAt(t.items[i].child, site, s)) <= bound - 1
           <==> Height(t.items[i].child) <= bound - 1 && Room(t.items[i].child, site, Height(s), bound - 1)
      {
        GraftHeight(t.items[i].child, site, s, bound - 1);
      }
      GraftedItemsHeight(t, site, s, bound);
    }
  }

  lemma GraftedItemsHeight<A>(t: Tree<A>, site: A, s: Tree<A>, bound: nat)
    requires t.site != site
    requires forall i :: 0 <= i < |t.items| && t.items[i].Branch? && bound > 0 ==>
               (Height(MergeAt(t.items[i].child, site, s)) <= bound - 1
                <==> Height(t.items[i].child) <= bound - 1 && Room(t.items[i].child, site, Height(s), bound - 1))
    ensures Height(MergeAt(t, site, s)) <= bound <==> Height(t) <= bound && Room(t, site, Height(s), bound)
  {
    var grafted := MergeAt(t, site, s);
    assert forall i :: 0 <= i < |t.items| ==> grafted.items[i] == MergeAtItem(t.items[i], site, s);
    HeightWithin(t.items, bound);
    HeightWithin(grafted.items, bound);
    if bound > 0 {
      RoomBelow(t, site, Height(s), bound);
    } else if Height(t) == 0 {
      LeafHasRoom(t, site, Height(s));
    }
    hide Room, HeightOfItems, MergeAt;
  }

  // ----- conservation -----

  /** How many nodes are at this site. */
  function Places<A(==)>(t: Tree<A>, site: A): nat
    decreases t, 0
  {
    PlacesOf(t.items, site) + if t.site == site then 1 else 0
  }

  function PlacesOf<A(==)>(items: seq<Item<A>>, site: A): nat
    decreases items, 1
  {
    if items == [] then 0
    else PlacesOf(items[..|items| - 1], site) + PlacesIn(items[|items| - 1], site)
  }

  function PlacesIn<A(==)>(item: Item<A>, site: A): nat
    decreases item, 2
  {
    match item
    case Attestation(_, _) => 0
    case Branch(_, child) => Places(child, site)
  }

  function MergeAtItems<A(==)>(items: seq<Item<A>>, site: A, s: Tree<A>): seq<Item<A>> {
    seq(|items|, i requires 0 <= i < |items| => MergeAtItem(items[i], site, s))
  }

  lemma {:induction false} GraftItemsConserve<A>(items: seq<Item<A>>, site: A, s: Tree<A>)
    ensures var more := MergeAtItems(items, site, s);
            && multiset(AllAttestations(items)) <= multiset(AllAttestations(more))
            && (PlacesOf(items, site) == 0 ==> more == items)
            && (PlacesOf(items, site) <= 1 ==> Within(AllAttestations(items), AllAttestations(more), AllAttestations(s.items)))
    decreases items, 1
  {
    if items != [] {
      var init, last := items[..|items| - 1], items[|items| - 1];
      var more, again := MergeAtItems(init, site, s), MergeAtItem(last, site, s);
      assert MergeAtItems(items, site, s) == more + [again] && items == init + [last];
      hide AllAttestations, AttestationsOf, MergeAtItem, MergeAtItems, Within, PlacesIn;
      GraftItemsConserve(init, site, s);
      GraftItemConserves(last, site, s);
      AllOfSnoc(init, last);
      AllOfSnoc(more, again);
      WithinSnoc(AllAttestations(init), AllAttestations(more), AttestationsOf(last), AttestationsOf(again));
      WithinEither(AllAttestations(init), AllAttestations(more), AttestationsOf(last), AttestationsOf(again), AllAttestations(s.items));
    }
  }

  lemma WithinSnoc(a: seq<Claim>, a': seq<Claim>, b: seq<Claim>, b': seq<Claim>)
    requires multiset(a) <= multiset(a') && multiset(b) <= multiset(b')
    ensures multiset(a + b) <= multiset(a' + b')
  {
    assert multiset(a + b) == multiset(a) + multiset(b) && multiset(a' + b') == multiset(a') + multiset(b');
  }

  lemma WithinEither(a: seq<Claim>, a': seq<Claim>, b: seq<Claim>, b': seq<Claim>, extra: seq<Claim>)
    ensures a == a' && Within(b, b', extra) ==> Within(a + b, a' + b', extra)
    ensures b == b' && Within(a, a', extra) ==> Within(a + b, a' + b', extra)
  {
    assert multiset(a + b) == multiset(a) + multiset(b) && multiset(a' + b') == multiset(a') + multiset(b');
  }

  lemma {:induction false} GraftItemConserves<A>(item: Item<A>, site: A, s: Tree<A>)
    ensures var more := MergeAtItem(item, site, s);
            && multiset(AttestationsOf(item)) <= multiset(AttestationsOf(more))
            && (PlacesIn(item, site) == 0 ==> more == item)
            && (PlacesIn(item, site) <= 1 ==> Within(AttestationsOf(item), AttestationsOf(more), AllAttestations(s.items)))
    decreases item, 2
  {
    if item.Branch? {
      GraftConserves(item.child, site, s);
    }
  }

  /** Grafting loses no attestation; into a node that is in one place only, it adds at most what is grafted. */
  lemma {:induction false} GraftConserves<A>(t: Tree<A>, site: A, s: Tree<A>)
    ensures var more := MergeAt(t, site, s);
            && multiset(AllAttestations(t.items)) <= multiset(AllAttestations(more.items))
            && (Places(t, site) == 0 ==> more == t)
            && (Places(t, site) <= 1 ==> Within(AllAttestations(t.items), AllAttestations(more.items), AllAttestations(s.items)))
    decreases t, 0
  {
    if t.site == site {
      MergeConserves(t, s);
    } else {
      GraftItemsConserve(t.items, site, s);
      assert MergeAt(t, site, s).items == MergeAtItems(t.items, site, s);
    }
  }

  lemma {:induction false} NoPlaces<A>(t: Tree<A>, site: A)
    requires site !in Sites(t)
    ensures Places(t, site) == 0
    decreases t
  {
    forall i | 0 <= i < |t.items| ensures PlacesIn(t.items[i], site) == 0 {
      NoPlacesIn(t.items[i], site);
    }
    PlacesSum(t.items, site);
  }

  lemma {:induction false} NoPlacesIn<A>(item: Item<A>, site: A)
    requires site !in ItemSites(item)
    ensures PlacesIn(item, site) == 0
    decreases item
  {
    if item.Branch? {
      NoPlaces(item.child, site);
    }
  }

  lemma {:induction false} PlacesSum<A>(items: seq<Item<A>>, site: A)
    requires forall i :: 0 <= i < |items| ==> PlacesIn(items[i], site) == 0
    ensures PlacesOf(items, site) == 0
    decreases |items|
  {
    if items != [] {
      PlacesSum(items[..|items| - 1], site);
    }
  }

  lemma {:induction false} PlacesSame<A>(a: seq<Item<A>>, b: seq<Item<A>>, site: A)
    requires |a| == |b| && forall i :: 0 <= i < |a| ==> PlacesIn(a[i], site) == PlacesIn(b[i], site)
    ensures PlacesOf(a, site) == PlacesOf(b, site)
    decreases |a|
  {
    if a != [] {
      PlacesSame(a[..|a| - 1], b[..|b| - 1], site);
    }
  }

  lemma {:induction false} PlacesInserted<A>(items: seq<Item<A>>, item: Item<A>, n: nat, site: A)
    requires n <= |items| && PlacesIn(item, site) == 0
    ensures PlacesOf(items[..n] + [item] + items[n..], site) == PlacesOf(items, site)
    decreases |items| - n
  {
    var longer := items[..n] + [item] + items[n..];
    if n == |items| {
      assert longer[..n] == items && longer[n] == item;
    } else {
      var last := |items| - 1;
      assert longer[|items|] == items[last];
      assert longer[..|items|] == items[..last][..n] + [item] + items[..last][n..];
      PlacesInserted(items[..last], item, n, site);
    }
  }

  lemma {:induction false} MergeItemPlaces<A>(t: Tree<A>, item: Item<A>, site: A)
    requires site !in ItemSites(item)
    ensures Places(MergeItem(t, item), site) == Places(t, site)
    decreases item, 2
  {
    NoPlacesIn(item, site);
    match item
    case Attestation(tag, payload) =>
      PlacesInserted(t.items, item, CountAttestations(t.items), site);
    case Branch(operation, child) =>
      match LastBranch(t.items, operation)
      case None =>
        PlacesInserted(t.items, item, |t.items|, site);
        assert t.items[..|t.items|] + [item] + t.items[|t.items|..] == t.items + [item];
      case Some(k) =>
        MergePlaces(t.items[k].child, child, site);
        PlacesSame(t.items, MergeItem(t, item).items, site);
  }

  lemma {:induction false} MergeItemsPlaces<A>(t: Tree<A>, source: seq<Item<A>>, site: A)
    requires forall i :: 0 <= i < |source| ==> site !in ItemSites(source[i])
    ensures Places(MergeItems(t, source), site) == Places(t, site)
    decreases source, 0
  {
    if source != [] {
      MergeItemsPlaces(t, source[..|source| - 1], site);
      MergeItemPlaces(MergeItems(t, source[..|source| - 1]), source[|source| - 1], site);
    }
  }

  lemma {:induction false} MergePlaces<A>(t: Tree<A>, s: Tree<A>, site: A)
    requires site !in Sites(s)
    ensures Places(MergeTrees(t, s), site) == Places(t, site)
    decreases s, 1
  {
    assert forall i :: 0 <= i < |s.items| ==> ItemSites(s.items[i]) <= Sites(s);
    MergeItemsPlaces(t, s.items, site);
  }

  lemma {:induction false} GraftPlaces<A>(t: Tree<A>, at: A, s: Tree<A>, site: A)
    requires site !in Sites(s)
    ensures Places(MergeAt(t, at, s), site) == Places(t, site)
    decreases t
  {
    if t.site == at {
      MergePlaces(t, s, site);
    } else {
      var grafted := MergeAt(t, at, s);
      forall i | 0 <= i < |t.items| ensures PlacesIn(grafted.items[i], site) == PlacesIn(t.items[i], site) {
        assert grafted.items[i] == MergeAtItem(t.items[i], at, s);
        if t.items[i].Branch? {
          GraftPlaces(t.items[i].child, at, s, site);
        }
      }
      PlacesSame(grafted.items, t.items, site);
    }
  }

  // ----- depth and conservation over a whole round -----

  /** Every attestation that the first `n` answers carry. */
  ghost function AllAnswered<A>(answers: seq<Option<Tree<A>>>, n: nat): multiset<Claim>
    requires n <= |answers|
  {
    if n == 0 then multiset{}
    else AllAnswered(answers, n - 1)
         + if answers[n - 1].None? then multiset{} else Listing(answers[n - 1].value)
  }

  lemma {:induction false} GraftedPlaces<A>(t: Tree<A>, sites: seq<A>, answers: seq<Option<Tree<A>>>, n: nat, site: A)
    requires n <= |sites| && n <= |answers| && site in sites && Foreign(sites, answers)
    ensures Places(Grafted(t, sites, answers, n), site) == Places(t, site)
    decreases n
  {
    if n > 0 {
      GraftedPlaces(t, sites, answers, n - 1, site);
      if answers[n - 1].Some? {
        var j :| 0 <= j < |sites| && sites[j] == site;
        assert sites[j] !in Sites(answers[n - 1].value);
        GraftPlaces(Grafted(t, sites, answers, n - 1), sites[n - 1], answers[n - 1].value, site);
      }
    }
  }

  ghost function Listing<A>(t: Tree<A>): multiset<Claim> {
    multiset(AllAttestations(t.items))
  }

  lemma Growing(a: multiset<Claim>, b: multiset<Claim>, c: multiset<Claim>)
    requires a <= b <= c
    ensures a <= c
  {
  }

  lemma Bounded(a: multiset<Claim>, b: multiset<Claim>, c: multiset<Claim>, x: multiset<Claim>, y: multiset<Claim>)
    requires b <= a + x && c <= b + y
    ensures c <= a + (x + y)
  {
  }

  lemma GraftListing<A>(t: Tree<A>, site: A, s: Tree<A>)
    ensures Listing(t) <= Listing(MergeAt(t, site, s))
    ensures Places(t, site) <= 1 ==> Listing(MergeAt(t, site, s)) <= Listing(t) + Listing(s)
  {
    GraftConserves(t, site, s);
    hide AllAttestations, MergeAt, Places;
  }

  /** A round loses no attestation. */
  lemma {:induction false} GraftedKeepsAll<A>(t: Tree<A>, sites: seq<A>, answers: seq<Option<Tree<A>>>, n: nat)
    requires n <= |sites| && n <= |answers|
    ensures Listing(t) <= Listing(Grafted(t, sites, answers, n))
    decreases n
  {
    if n > 0 {
      hide Listing, MergeAt;
      GraftedKeepsAll(t, sites, answers, n - 1);
      if answers[n - 1].Some? {
        var before := Grafted(t, sites, answers, n - 1);
        GraftListing(before, sites[n - 1], answers[n - 1].value);
        Growing(Listing(t), Listing(before), Listing(Grafted(t, sites, answers, n)));
      }
    }
  }

  /** As long as each node asked for is in one place only, a round adds no attestation but those the answers carry,
      each as often as they carry it. */
  lemma {:induction false} GraftedAddsAnswers<A>(t: Tree<A>, sites: seq<A>, answers: seq<Option<Tree<A>>>, n: nat)
    requires n <= |sites| && n <= |answers| && Foreign(sites, answers)
    requires forall i :: 0 <= i < n ==> Places(t, sites[i]) <= 1
    ensures Listing(Grafted(t, sites, answers, n)) <= Listing(t) + AllAnswered(answers, n)
    decreases n
  {
    hide Listing, MergeAt, Places, Foreign;
    if n > 0 {
      GraftedAddsAnswers(t, sites, answers, n - 1);
      if answers[n - 1].Some? {
        var before, s := Grafted(t, sites, answers, n - 1), answers[n - 1].value;
        GraftedPlaces(t, sites, answers, n - 1, sites[n - 1]);
        GraftListing(before, sites[n - 1], s);
        Bounded(Listing(t), Listing(before), Listing(Grafted(t, sites, answers, n)), AllAnswered(answers, n - 1), Listing(s));
      }
    }
  }

  /** A round stays within a bound exactly when the tree did and every node asked for leaves room for its answer. */
  lemma {:induction false} GraftedHeight<A>(t: Tree<A>, sites: seq<A>, answers: seq<Option<Tree<A>>>, n: nat, bound: nat)
    requires n <= |sites| && n <= |answers| && Foreign(sites, answers)
    ensures Height(Grafted(t, sites, answers, n)) <= bound
       <==> Height(t) <= bound
            && forall i :: 0 <= i < n && answers[i].Some? ==> Room(t, sites[i], Height(answers[i].value), bound)
    decreases n
  {
    if n > 0 {
      GraftedHeight(t, sites, answers, n - 1, bound);
      if answers[n - 1].Some? {
        var before, s, site := Grafted(t, sites, answers, n - 1), answers[n - 1].value, sites[n - 1];
        GraftHeight(before, site, s, bound);
        forall path ensures Leads(before, path, site) <==> Leads(t, path, site) {
          GraftedLeads(t, sites, answers, n - 1, path, n - 1);
        }
        assert Room(before, site, Height(s), bound) <==> Room(t, site, Height(s), bound);
      }
    }
  }

  // ----- growth -----

  lemma {:induction false} GraftGrows<A>(t: Tree<A>, site: A, s: Tree<A>)
    ensures var more := MergeAt(t, site, s);
            Weight(more.items) >= Weight(t.items) && (Weight(more.items) == Weight(t.items) ==> more == t)
    decreases t, 0
  {
    if t.site == site {
      MergeGrows(t, s);
      CountMeansChanged(t, s);
    } else {
      GraftItemsGrow(t.items, site, s);
      assert MergeAt(t, site, s).items == MergeAtItems(t.items, site, s);
    }
  }

  lemma {:induction false} GraftItemsGrow<A>(items: seq<Item<A>>, site: A, s: Tree<A>)
    ensures var more := MergeAtItems(items, site, s);
            Weight(more) >= Weight(items) && (Weight(more) == Weight(items) ==> more == items)
    decreases items, 1
  {
    if items != [] {
      var init, last := items[..|items| - 1], items[|items| - 1];
      GraftItemsGrow(init, site, s);
      if last.Branch? {
        GraftGrows(last.child, site, s);
      }
      assert MergeAtItems(items, site, s) == MergeAtItems(init, site, s) + [MergeAtItem(last, site, s)];
      assert MergeAtItems(items, site, s)[..|init|] == MergeAtItems(init, site, s) && items == init + [last];
    }
  }

  // ----- listed attestations -----

  ghost predicate AttestsSomewhere<A>(t: Tree<A>, c: Claim) {
    exists path :: Attests(t, path, c)
  }

  lemma {:induction false} ListedItem<A>(item: Item<A>, path: seq<Bytes>, c: Claim)
    requires ItemAttests(item, path, c)
    ensures c in AttestationsOf(item)
    decreases item, 1
  {
    if item.Branch? {
      Listed(item.child, c);
      assert Attests(item.child, path[1..], c);
    }
  }

  lemma {:induction false} ListedBelow<A>(item: Item<A>, c: Claim) returns (path: seq<Bytes>)
    requires c in AttestationsOf(item)
    ensures ItemAttests(item, path, c)
    decreases item, 1
  {
    match item
    case Attestation(tag, payload) =>
      path := [];
    case Branch(operation, child) =>
      Listed(child, c);
      var below :| Attests(child, below, c);
      path := [operation] + below;
      assert path[1..] == below;
  }

  lemma {:induction false} ListedSomewhere<A>(items: seq<Item<A>>, c: Claim)
    ensures c in AllAttestations(items) <==> exists i :: 0 <= i < |items| && c in AttestationsOf(items[i])
    decreases |items|
  {
    if items != [] {
      ListedSomewhere(items[..|items| - 1], c);
    }
  }

  /** `all_attestations` lists exactly what some path attests. */
  lemma {:induction false} Listed<A>(t: Tree<A>, c: Claim)
    ensures c in AllAttestations(t.items) <==> AttestsSomewhere(t, c)
    decreases t, 2
  {
    ListedSomewhere(t.items, c);
    if c in AllAttestations(t.items) {
      var i :| 0 <= i < |t.items| && c in AttestationsOf(t.items[i]);
      var path := ListedBelow(t.items[i], c);
      assert Attests(t, path, c);
    }
    if AttestsSomewhere(t, c) {
      var path :| Attests(t, path, c);
      var i :| 0 <= i < |t.items| && ItemAttests(t.items[i], path, c);
      ListedItem(t.items[i], path, c);
    }
  }
}
