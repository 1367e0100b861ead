/** A promise once fulfilled is never collected again. */
module Fulfilment {
  import opened Wire
  import opened Tree
  import opened Merge
  import opened MergeLaws
  import opened Skip
  import opened Anchors
  import opened Graft
  import opened GraftLaws
  import opened Promises

  // Whatever later rounds bring, and wherever they put it.

  /** Bitcoin is below every node at this site. */
  ghost predicate Fulfilled<A>(t: Tree<A>, site: A)
    decreases t, 1
  {
    && (t.site == site ==> BITCOIN in Tags(t.items)) && AllFulfilledIn(t.items, site)
  }

  ghost predicate AllFulfilledIn<A>(items: seq<Item<A>>, site: A)
    decreases items, 1
  {
    forall i :: 0 <= i < |items| ==> FulfilledIn(items[i], site)
  }

  ghost predicate FulfilledIn<A>(item: Item<A>, site: A)
    decreases item, 0
  {
    item.Branch? ==> Fulfilled(item.child, site)
  }

  lemma {:induction false} FulfilledWhereAbsent<A>(t: Tree<A>, site: A)
    requires site !in Sites(t)
    ensures Fulfilled(t, site)
    decreases t
  {
    forall i | 0 <= i < |t.items| ensures FulfilledIn(t.items[i], site) {
      assert ItemSites(t.items[i]) <= Sites(t);
      if t.items[i].Branch? {
        FulfilledWhereAbsent(t.items[i].child, site);
      }
    }
  }

  // ----- no merge undoes it -----

  lemma {:induction false} MergeItemKeepsItems<A>(t: Tree<A>, item: Item<A>, site: A)
    requires AllFulfilledIn(t.items, site) && site !in ItemSites(item)
    ensures AllFulfilledIn(MergeItem(t, item).items, site)
    decreases item, 1
  {
    var merged := MergeItem(t, item);
    if item.Branch? {
      FulfilledWhereAbsent(item.child, site);
      var k := LastBranch(t.items, item.operation);
      if k.Some? {
        assert FulfilledIn(t.items[k.value], site);
        MergeKeepsFulfilled(t.items[k.value].child, item.child.items, site);
      }
    } else {
      var n := CountAttestations(t.items);
      assert merged == t || forall i :: 0 <= i < |merged.items| ==>
        merged.items[i] == if i < n then t.items[i] else if i == n then item else t.items[i - 1];
    }
  }

  lemma MergeItemKeepsBitcoin<A>(t: Tree<A>, item: Item<A>)
    requires BITCOIN in Tags(t.items)
    ensures BITCOIN in Tags(MergeItem(t, item).items)
  {
    var one := Tree(t.site, [item]);
    assert one.items[..0] == [] && MergeItems(t, one.items[..0]) == t;
    assert MergeTrees(t, one) == MergeItem(t, item);
    MergeKeepsBitcoin(t, one);
  }

  lemma {:induction false} MergeKeepsFulfilled<A>(t: Tree<A>, source: seq<Item<A>>, site: A)
    requires Fulfilled(t, site) && forall i :: 0 <= i < |source| ==> site !in ItemSites(source[i])
    ensures Fulfilled(MergeItems(t, source), site)
    decreases source, 0
  {
    if source != [] {
      var mid := MergeItems(t, source[..|source| - 1]);
      MergeKeepsFulfilled(t, source[..|source| - 1], site);
      MergeItemKeepsItems(mid, source[|source| - 1], site);
      if mid.site == site {
        MergeItemKeepsBitcoin(mid, source[|source| - 1]);
      }
    }
  }

  lemma GraftKeepsBitcoin<A>(t: Tree<A>, at: A, s: Tree<A>)
    requires BITCOIN in Tags(t.items)
    ensures BITCOIN in Tags(MergeAt(t, at, s).items)
  {
    TagMeansAttested(t, BITCOIN);
    var path, c :| Attests(t, path, c) && c.tag == BITCOIN;
    GraftIsUnion(t, at, s, path, c);
    TagMeansAttested(MergeAt(t, at, s), BITCOIN);
  }

  lemma {:induction false} GraftKeepsFulfilled<A>(t: Tree<A>, at: A, s: Tree<A>, site: A)
    requires Fulfilled(t, site) && site !in Sites(s)
    ensures Fulfilled(MergeAt(t, at, s), site)
    decreases t
  {
    if t.site == at {
      assert forall i :: 0 <= i < |s.items| ==> ItemSites(s.items[i]) <= Sites(s);
      MergeKeepsFulfilled(t, s.items, site);
    } else {
      var grafted := MergeAt(t, at, s);
      forall i | 0 <= i < |t.items| ensures FulfilledIn(grafted.items[i], site) {
        assert FulfilledIn(t.items[i], site) && grafted.items[i] == MergeAtItem(t.items[i], at, s);
        if t.items[i].Branch? {
          GraftKeepsFulfilled(t.items[i].child, at, s, site);
        }
      }
      if t.site == site {
        GraftKeepsBitcoin(t, at, s);
      }
    }
  }

  lemma {:induction false} GraftedKeepsFulfilled<A>(t: Tree<A>, sites: seq<A>, answers: seq<Option<Tree<A>>>, n: nat, site: A)
    requires n <= |sites| && n <= |answers| && Fulfilled(t, site)
    requires forall i :: 0 <= i < n && answers[i].Some? ==> site !in Sites(answers[i].value)
    ensures Fulfilled(Grafted(t, sites, answers, n), site)
    decreases n
  {
    if n > 0 {
      GraftedKeepsFulfilled(t, sites, answers, n - 1, site);
      if answers[n - 1].Some? {
        GraftKeepsFulfilled(Grafted(t, sites, answers, n - 1), sites[n - 1], answers[n - 1].value, site);
      }
    }
  }

  // ----- and what is fulfilled is not collected -----

  lemma {:induction false} FulfilledNode<A>(t: Tree<A>, path: seq<Bytes>, n: Tree<A>)
    requires NodeAt(t, path, n) && Fulfilled(t, n.site)
    ensures BITCOIN in Tags(n.items)
    decreases path
  {
    if path != [] {
      var i :| 0 <= i < |t.items| && t.items[i].Branch? && t.items[i].operation == path[0]
               && NodeAt(t.items[i].child, path[1..], n);
      assert FulfilledIn(t.items[i], n.site);
      FulfilledNode(t.items[i].child, path[1..], n);
    }
  }

  lemma FulfilledIsNotCollectible<A>(h: Host, t: Tree<A>, message: Bytes, x: Target<A>)
    requires Fulfilled(t, x.site)
    ensures x !in Collectible(h, t, Some(message))
  {
    if x in Collectible(h, t, Some(message)) {
      var path, n := CollectibleIsSound(h, t, message, x);
      FulfilledNode(t, path, n);
    }
  }

  // ----- over any number of rounds -----

  /** What some rounds of collecting merged: answers, each into the node it was asked for. */
  datatype Merges<A> = Merges(sites: seq<A>, answers: seq<Option<Tree<A>>>)

  function AfterRounds<A(==)>(t: Tree<A>, rounds: seq<Merges<A>>): Tree<A>
    requires forall i :: 0 <= i < |rounds| ==> |rounds[i].sites| == |rounds[i].answers|
    decreases |rounds|
  {
    if rounds == [] then t
    else
      var last := rounds[|rounds| - 1];
      Grafted(AfterRounds(t, rounds[..|rounds| - 1]), last.sites, last.answers, |last.sites|)
  }

  /** The answers of these rounds are other objects than the node at this site. */
  ghost predicate Elsewhere<A>(rounds: seq<Merges<A>>, site: A) {
    forall i, j :: 0 <= i < |rounds| && 0 <= j < |rounds[i].answers| && rounds[i].answers[j].Some?
      ==> site !in Sites(rounds[i].answers[j].value)
  }

  /** Once Bitcoin is below a node, no promise made there is ever collectible again: not after any number of rounds,
      whatever they merge and wherever, in its ancestors, below it or beside it. */
  lemma {:induction false} FulfilledForGood<A>(h: Host, t: Tree<A>, rounds: seq<Merges<A>>, message: Bytes, site: A)
    requires forall i :: 0 <= i < |rounds| ==> |rounds[i].sites| == |rounds[i].answers|
    requires Fulfilled(t, site) && Elsewhere(rounds, site)
    ensures Fulfilled(AfterRounds(t, rounds), site)
    ensures forall x: Target<A> :: x in Collectible(h, AfterRounds(t, rounds), Some(message)) ==> x.site != site
    decreases |rounds|
  {
    var after := AfterRounds(t, rounds);
    if rounds != [] {
      var last := rounds[|rounds| - 1];
      FulfilledForGood(h, t, rounds[..|rounds| - 1], message, site);
      GraftedKeepsFulfilled(AfterRounds(t, rounds[..|rounds| - 1]), last.sites, last.answers, |last.sites|, site);
    }
    forall x: Target<A> | x in Collectible(h, after, Some(message)) ensures x.site != site {
      if x.site == site {
        FulfilledIsNotCollectible(h, after, message, x);
      }
    }
  }

  // ----- how it comes about -----

  /** Merging an answer that reaches Bitcoin into the one node at a site fulfils it. */
  lemma {:induction false} AnswerFulfils<A>(t: Tree<A>, s: Tree<A>, site: A)
    requires BITCOIN in Tags(s.items) && site !in Sites(s) && NotBelowItself(t, site)
    ensures Fulfilled(MergeAt(t, site, s), site)
    decreases t
  {
    if t.site == site {
      MergeKeepsBitcoin(t, s);
      assert forall i :: 0 <= i < |s.items| ==> ItemSites(s.items[i]) <= Sites(s);
      forall i | 0 <= i < |t.items| ensures FulfilledIn(t.items[i], site) {
        if t.items[i].Branch? {
          FulfilledWhereAbsent(t.items[i].child, site);
        }
      }
      MergeItemsKeepItems(t, s.items, site);
    } else {
      var grafted := MergeAt(t, site, s);
      forall i | 0 <= i < |t.items| ensures FulfilledIn(grafted.items[i], site) {
        assert grafted.items[i] == MergeAtItem(t.items[i], site, s);
        if t.items[i].Branch? {
          AnswerFulfils(t.items[i].child, s, site);
        }
      }
    }
  }

  lemma {:induction false} MergeItemsKeepItems<A>(t: Tree<A>, source: seq<Item<A>>, site: A)
    requires AllFulfilledIn(t.items, site) && forall i :: 0 <= i < |source| ==> site !in ItemSites(source[i])
    ensures AllFulfilledIn(MergeItems(t, source).items, site)
    decreases source
  {
    if source != [] {
      MergeItemsKeepItems(t, source[..|source| - 1], site);
      MergeItemKeepsItems(MergeItems(t, source[..|source| - 1]), source[|source| - 1], site);
    }
  }

  /** No node at this site lies below another. */
  ghost predicate NotBelowItself<A>(t: Tree<A>, site: A) {
    if t.site == site then forall i :: 0 <= i < |t.items| ==> site !in ItemSites(t.items[i])
    else forall i :: 0 <= i < |t.items| && t.items[i].Branch? ==> NotBelowItself(t.items[i].child, site)
  }
}
