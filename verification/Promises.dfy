/** Which calendar promises in a proof are still unfulfilled (`collectible_calendars`). */
module Promises {
  import opened Wire
  import opened Tree
  import opened Grammar
  import opened Skip
  import opened Anchors
  import opened AnchorLaws
  import opened MergeLaws
  import opened Merge
  import opened ProofTree

  /** A calendar to ask, the message it was given, and the node its answer belongs in. */
  datatype Target<A> = Target(url: string, commitment: Bytes, site: A)

  /** The unfulfilled promises of a tree entered with this message, in depth-first order. */
  function Collectible<A>(h: Host, t: Tree<A>, message: Option<Bytes>): seq<Target<A>>
    decreases t, |t.items| + 1
  {
    if message.None? then [] else CollectPrefix(h, t, |t.items|, message.value)
  }

  function CollectPrefix<A>(h: Host, t: Tree<A>, n: nat, message: Bytes): seq<Target<A>>
    requires n <= |t.items|
    decreases t, n
  {
    if n == 0 then [] else CollectPrefix(h, t, n - 1, message) + CollectItem(h, t, n - 1, message)
  }

  function CollectItem<A>(h: Host, t: Tree<A>, i: nat, message: Bytes): seq<Target<A>>
    requires i < |t.items|
    decreases t, i
  {
    match t.items[i]
    case Attestation(tag, payload) =>
      if tag != PENDING || BITCOIN in Tags(t.items) then []
      else (match CalendarUri(h, payload)
            case None => []
            case Some(url) => [Target(url, message, t.site)])
    case Branch(operation, child) => Collectible(h, child, Execute(h, operation, message))
  }

  // ----- the list is exact -----

  /** Following these operations from `t` reaches exactly this node. */
  ghost predicate NodeAt<A>(t: Tree<A>, path: seq<Bytes>, n: Tree<A>)
    decreases path
  {
    if path == [] then n == t
    else exists i :: 0 <= i < |t.items| && t.items[i].Branch? && t.items[i].operation == path[0]
                     && NodeAt(t.items[i].child, path[1..], n)
  }

  /** The node promises this target and nothing below it reaches Bitcoin. */
  ghost predicate Promises<A>(h: Host, n: Tree<A>, url: string) {
    && BITCOIN !in Tags(n.items)
    && exists i :: 0 <= i < |n.items| && n.items[i].Attestation? && n.items[i].tag == PENDING
                   && CalendarUri(h, n.items[i].payload) == Some(url)
  }

  /** This target is what the promise at the end of this path calls for. */
  ghost predicate CalledFor<A>(h: Host, t: Tree<A>, message: Bytes, path: seq<Bytes>, n: Tree<A>, x: Target<A>) {
    && NodeAt(t, path, n) && Promises(h, n, x.url) && x.site == n.site
    && ExecutePath(h, path, message) == Some(x.commitment)
  }

  lemma {:induction false} PrefixIsSound<A>(h: Host, t: Tree<A>, k: nat, message: Bytes, x: Target<A>)
    returns (path: seq<Bytes>, n: Tree<A>)
    requires k <= |t.items| && x in CollectPrefix(h, t, k, message)
    ensures CalledFor(h, t, message, path, n, x)
    decreases t, k
  {
    if x in CollectPrefix(h, t, k - 1, message) {
      path, n := PrefixIsSound(h, t, k - 1, message, x);
    } else {
      match t.items[k - 1]
      case Attestation(tag, payload) =>
        path, n := [], t;
      case Branch(operation, child) =>
        assert x in Collectible(h, child, Execute(h, operation, message));
        var next := Execute(h, operation, message).value;
        var below;
        below, n := CollectibleIsSound(h, child, next, x);
        path := [operation] + below;
        assert path[1..] == below;
    }
  }

  /** Each entry's commitment is its path's operations executed on the digest, at a node that
      promises its calendar and has no Bitcoin attestation below. */
  lemma {:induction false} CollectibleIsSound<A>(h: Host, t: Tree<A>, message: Bytes, x: Target<A>)
    returns (path: seq<Bytes>, n: Tree<A>)
    requires x in Collectible(h, t, Some(message))
    ensures CalledFor(h, t, message, path, n, x)
    decreases t, |t.items| + 1
  {
    path, n := PrefixIsSound(h, t, |t.items|, message, x);
  }

  lemma {:induction false} ItemInPrefix<A>(h: Host, t: Tree<A>, i: nat, k: nat, message: Bytes, x: Target<A>)
    requires i < k <= |t.items| && x in CollectItem(h, t, i, message)
    ensures x in CollectPrefix(h, t, k, message)
    decreases k
  {
    if i < k - 1 {
      ItemInPrefix(h, t, i, k - 1, message, x);
    }
  }

  /** Every promise on an executable path with no Bitcoin attestation below it is listed. */
  lemma {:induction false} CollectibleIsComplete<A>(h: Host, t: Tree<A>, message: Bytes, path: seq<Bytes>,
                                                    n: Tree<A>, x: Target<A>)
    requires CalledFor(h, t, message, path, n, x)
    ensures x in Collectible(h, t, Some(message))
    decreases path
  {
    if path == [] {
      var i :| 0 <= i < |n.items| && n.items[i].Attestation? && n.items[i].tag == PENDING
               && CalendarUri(h, n.items[i].payload) == Some(x.url);
      ItemInPrefix(h, t, i, |t.items|, message, x);
    } else {
      var i :| 0 <= i < |t.items| && t.items[i].Branch? && t.items[i].operation == path[0]
               && NodeAt(t.items[i].child, path[1..], n);
      CollectibleIsComplete(h, t.items[i].child, Execute(h, path[0], message).value, path[1..], n, x);
      ItemInPrefix(h, t, i, |t.items|, message, x);
    }
  }

  /** Bitcoin stays below a node that is merged into, and comes to be below it with a response that has it. */
  lemma MergeKeepsBitcoin<A>(n: Tree<A>, s: Tree<A>)
    requires BITCOIN in Tags(n.items) || BITCOIN in Tags(s.items)
    ensures BITCOIN in Tags(MergeTrees(n, s).items)
  {
    TagMeansAttested(n, BITCOIN);
    TagMeansAttested(s, BITCOIN);
    var path, c :| (Attests(n, path, c) || Attests(s, path, c)) && c.tag == BITCOIN;
    MergeIsUnion(n, s, path, c);
    TagMeansAttested(MergeTrees(n, s), BITCOIN);
  }

  // ----- on node objects -----

  /** `_subtree_has_bitcoin_attestation`. */
  method SubtreeHasBitcoin(node: Node, ghost g: Shape) returns (found: bool)
    requires g.site == node && Holds(g)
    ensures found == (BITCOIN in Tags(g.items))
    decreases g
  {
    assert old(allocated(Objects(g)));
    for i := 0 to |node.items|
      invariant Holds(g) && BITCOIN !in Tags(g.items[..i])
    {
      TagOfSomeItem(g.items, BITCOIN);
      assert g.items[..i + 1][..i] == g.items[..i];
      assert HoldsItem(g.items[i]);
      match node.items[i]
      case Note(tag, _) =>
        if tag == BITCOIN {
          return true;
        }
      case Link(_, child) =>
        var below := SubtreeHasBitcoin(child, g.items[i].child);
        if below {
          return true;
        }
    }
    assert g.items[..|node.items|] == g.items;
    return false;
  }

  /** The recursive `walk` of `collectible_calendars`. On a well-formed tree within the depth limit it
      never fails; in particular "operation bytes not fully consumed" is not raised. */
  method CollectibleCalendars(h: Host, node: Node, ghost g: Shape, message: Option<Bytes>, depth: nat)
    returns (r: Parsed<seq<Target<Node>>>)
    requires g.site == node && Holds(g)
    ensures r.Ok? ==> r.value == Collectible(h, g, message)
    ensures WellFormed(g) && depth + Height(g) <= MAX_DEPTH ==> r.Ok?
    decreases g, 1
  {
    if depth > MAX_DEPTH {
      return Fail(ParseError);
    }
    var found: seq<Target<Node>> := [];
    assert old(allocated(Objects(g)));
    for i := 0 to |node.items|
      invariant Holds(g)
      invariant found == if message.None? then [] else CollectPrefix(h, g, i, message.value)
    {
      var more := CollectSlot(h, node, i, g, message, depth);
      if more.Fail? {
        return Fail(more.error);
      }
      found := found + more.value;
    }
    return Ok(found, 0);
  }

  method CollectSlot(h: Host, node: Node, i: nat, ghost g: Shape, message: Option<Bytes>, depth: nat)
    returns (r: Parsed<seq<Target<Node>>>)
    requires g.site == node && Holds(g) && i < |g.items|
    ensures r.Ok? ==> r.value == if message.None? then [] else CollectItem(h, g, i, message.value)
    ensures WellFormed(g) && depth + Height(g) <= MAX_DEPTH ==> r.Ok?
    decreases g, 0
  {
    assert HoldsItem(g.items[i]);
    match node.items[i]
    case Note(tag, payload) =>
      if tag != PENDING || message.None? {
        return Ok([], 0);
      }
      var fulfilled := SubtreeHasBitcoin(node, g);
      if fulfilled {
        return Ok([], 0);
      }
      var url := CalendarUri(h, payload);
      return if url.None? then Ok([], 0) else Ok([Target(url.value, message.value, node)], 0);
    case Link(operation, child) =>
      if message.None? {
        return Ok([], 0);
      }
      var applied := ApplyOperation(h, operation, 0, message.value);
      ConsumedMeansExecuted(h, operation, message.value);
      assert WellFormed(g) ==> WellFormedItem(g.items[i]);
      if applied.Fail? || applied.next != |operation| {
        return Fail(ParseError);
      }
      r := CollectibleCalendars(h, child, g.items[i].child, applied.value, depth + 1);
  }

  /** If executing an operation's bytes consumes them all, it did what `Execute` says; on well-formed
      bytes it always does. */
  lemma ConsumedMeansExecuted(h: Host, op: Bytes, message: Bytes)
    ensures var r := ApplyOperation(h, op, 0, message);
            && (r.Ok? && r.next == |op| ==> r.value == Execute(h, op, message))
            && (WellFormedOperation(op) ==> r.Ok? && r.next == |op|)
  {
    ApplyIsReadThenExecute(h, op, 0, message);
    var r := ReadOperation(op, 0);
    if r.Ok? {
      OperationIsVerbatim(op, 0);
      if r.next == |op| {
        assert r.value == op;
      }
    }
    if WellFormedOperation(op) {
      assert At(op, 0, op);
      ReadPrintedOperation(op, 0, op);
    }
  }
}
