/** A proof that its own pass refuses for its depth. */
module DepthLimit {
  import opened Wire
  import opened Tree
  import opened Grammar
  import opened Codec
  import opened Skip
  import opened Anchors
  import opened Promises
  import opened GraftLaws
  import opened Collect

  // Its promise lies so deep that any answer which nests at all is one level too many.

  const SHA256: Bytes := [0x08]

  /** A promise under this many hash operations. */
  function Chain(n: nat, uri: Bytes): Timestamp {
    if n == 0 then Tree((), [Attestation(PENDING, uri)]) else Tree((), [Branch(SHA256, Chain(n - 1, uri))])
  }

  lemma {:induction false} ChainShape(n: nat, uri: Bytes)
    ensures WellFormed(Chain(n, uri)) && Height(Chain(n, uri)) == n
  {
    var t := Chain(n, uri);
    if n > 0 {
      ChainShape(n - 1, uri);
    }
    assert WellFormedItem(t.items[0]);
    assert HeightOfItem(t.items[0]) == n;
    assert t.items[1..] == [] && HeightOfItems(t.items[1..]) == 0;
  }

  // ----- the same chain with sites -----

  /** The node at the end of a chain. */
  ghost function Leaf<A>(t: Tree<A>, n: nat, uri: Bytes): Tree<A>
    requires Erase(t) == Chain(n, uri)
  {
    if n == 0 then t
    else
      LinkOf(t, n, uri);
      Leaf(t.items[0].child, n - 1, uri)
  }

  lemma LinkOf<A>(t: Tree<A>, n: nat, uri: Bytes)
    requires Erase(t) == Chain(n, uri) && n > 0
    ensures |t.items| == 1 && t.items[0].Branch? && t.items[0].operation == SHA256
    ensures Erase(t.items[0].child) == Chain(n - 1, uri)
  {
    assert Erase(t).items[0] == EraseItem(t.items[0]);
  }

  lemma {:induction false} ChainTargets<A>(h: Host, t: Tree<A>, n: nat, uri: Bytes, message: Bytes)
    requires Erase(t) == Chain(n, uri) && CalendarUri(h, uri).Some?
    ensures var targets := Collectible(h, t, Some(message));
            |targets| == 1 && targets[0].site == Leaf(t, n, uri).site
  {
    if n == 0 {
      assert Erase(t).items[0] == EraseItem(t.items[0]);
      assert t.items[..0] == [] && t.items[..1] == t.items && Tags(t.items) == {PENDING};
      assert CollectPrefix(h, t, 1, message) == CollectPrefix(h, t, 0, message) + CollectItem(h, t, 0, message);
    } else {
      LinkOf(t, n, uri);
      var child, next := t.items[0].child, Execute(h, SHA256, message);
      ChainTargets(h, child, n - 1, uri, next.value);
      assert CollectItem(h, t, 0, message) == Collectible(h, child, next);
      assert CollectPrefix(h, t, 1, message) == CollectPrefix(h, t, 0, message) + CollectItem(h, t, 0, message);
    }
  }

  lemma {:induction false} LeafHasPlace<A>(t: Tree<A>, n: nat, uri: Bytes)
    requires Erase(t) == Chain(n, uri)
    ensures Places(t, Leaf(t, n, uri).site) >= 1
  {
    if n > 0 {
      LinkOf(t, n, uri);
      LeafHasPlace(t.items[0].child, n - 1, uri);
      var leaf := Leaf(t, n, uri).site;
      assert t.items[..0] == [] && PlacesOf(t.items, leaf) == Places(t.items[0].child, leaf);
    }
  }

  /** The path to a leaf whose node is at no other place is as long as the chain. */
  lemma {:induction false} LeafIsDeep<A>(t: Tree<A>, n: nat, uri: Bytes) returns (path: seq<Bytes>)
    requires Erase(t) == Chain(n, uri) && Places(t, Leaf(t, n, uri).site) <= 1
    ensures Leads(t, path, Leaf(t, n, uri).site) && |path| == n
  {
    if n == 0 {
      return [];
    }
    LinkOf(t, n, uri);
    var leaf := Leaf(t, n, uri).site;
    LeafHasPlace(t.items[0].child, n - 1, uri);
    assert t.items[..0] == [] && PlacesOf(t.items, leaf) == Places(t.items[0].child, leaf);
    var below := LeafIsDeep(t.items[0].child, n - 1, uri);
    path := [SHA256] + below;
    assert path[1..] == below && ItemLeads(t.items[0], path, leaf);
  }

  /** No round over the deepest chain fits, if the answer that came back nests. */
  lemma DeepChainDoesNotFit<A>(h: Host, p: Proof<()>, fetch: Fetcher, round: Round<A>, uri: Bytes, body: Bytes)
    requires RoundOf(h, p, fetch, round) && p.root == Chain(MAX_DEPTH, uri) && CalendarUri(h, uri).Some?
    requires ParseResponse(body).Ok? && Height(ParseResponse(body).value) > 0
    requires forall i, url, commitment :: fetch(i, url, commitment) == Some(body)
    ensures !Fits(round)
  {
    hide ParseResponse, Chain, Collectible;
    ChainTargets(h, round.start, MAX_DEPTH, uri, p.digest);
    var x := round.targets[0];
    assert Answers(fetch(0, x.url, x.commitment), round.answers[0]);
    var answer := round.answers[0].value;
    ErasedItems(answer);
    assert Places(round.start, x.site) <= 1;
    var path := LeafIsDeep(round.start, MAX_DEPTH, uri);
    assert !Room(round.start, x.site, Height(answer), MAX_DEPTH);
  }

  // ----- a proof and a pass over it -----

  function DeepProof(h: Host, payload: Bytes, uri: Bytes): Proof<()> {
    Proof(MAGIC + [1, SHA256_TAG] + h.sha256(payload), h.sha256(payload), Chain(MAX_DEPTH, uri))
  }

  lemma DeepProofBinds(h: Host, payload: Bytes, uri: Bytes)
    requires |h.sha256(payload)| == 32
    ensures var p := DeepProof(h, payload, uri);
            ParseProof(PrintProof(p)) == Ok(p, |PrintProof(p)|) && Validates(h, PrintProof(p), payload)
  {
    var p := DeepProof(h, payload, uri);
    var header, data := p.header, PrintProof(p);
    assert MAGIC <= header && header[|MAGIC|] == 1 && header[|MAGIC| + 1] == SHA256_TAG;
    assert header[|MAGIC| + 2..] == p.digest && |header| == |MAGIC| + 34;
    assert header[|MAGIC| + 2..|MAGIC| + 34] == p.digest;
    assert ReadVaruint(header, |MAGIC|) == Ok(1, |MAGIC| + 1);
    assert ReadDigest(header, |MAGIC| + 1) == Ok(p.digest, |header|);
    ChainShape(MAX_DEPTH, uri);
    ParseUndoesPrintProof(p);
    EraseValueItems(p.root.items);
    PrintedStart(p.root.items);
    assert data[..|header|] == header && data[|header|] == Print(p.root)[0];
    assert data[|MAGIC| + 2..|MAGIC| + 34] == p.digest;
    assert ReadStrictHeader(data) == Ok(p.digest, |header|);
  }

  /** The first promise of this proof is under 256 hashes. Its calendar answers with anything that nests, and the pass
      refuses to write what it merged. */
  method RefusesDeepProof(h: Host, payload: Bytes, uri: Bytes, body: Bytes) returns (data: Bytes, r: Outcome)
    requires |h.sha256(payload)| == 32 && CalendarUri(h, uri).Some?
    requires ParseResponse(body).Ok? && Height(ParseResponse(body).value) > 0
    ensures ParseProof(data).Ok? && Validates(h, data, payload) && r == Raised(TooDeep)
  {
    DeepProofBinds(h, payload, uri);
    hide ParseProof, ParseResponse, Validates, Settled, RoundOf, Fits, Chain, Height;
    data := PrintProof(DeepProof(h, payload, uri));
    var fetch: Fetcher := (i, url, commitment) => Some(body);
    ghost var round;
    r, round := CollectFromCalendars(h, data, payload, fetch);
    assert !SomeForkEnds(fetch, round.value.targets);
    DeepChainDoesNotFit(h, DeepProof(h, payload, uri), fetch, round.value, uri, body);
    RefusedExactly(h, data, payload, fetch, round.value, r);
  }

  /** An answer that nests: one hash above a Bitcoin attestation. */
  lemma SmallestNestedAnswer()
    ensures var body := SHA256 + [0x00] + BITCOIN + [0x00];
            ParseResponse(body).Ok? && Height(ParseResponse(body).value) == 1
  {
    var leaf := Tree((), [Attestation(BITCOIN, [])]);
    var answer := Tree((), [Branch(SHA256, leaf)]);
    assert WellFormedItem(leaf.items[0]) && WellFormedItem(answer.items[0]);
    assert leaf.items[1..] == [] && answer.items[1..] == [] && HeightOfItems(leaf.items[1..]) == 0;
    assert HeightOfItems(leaf.items) == 0 && HeightOfItem(answer.items[0]) == 1 && Height(answer) == 1;
    var body := SHA256 + [0x00] + BITCOIN + [0x00];
    var empty: Bytes := [];
    assert EncodeVaruint(|empty|) == [0];
    assert PrintItem(leaf.items[0]) == [0] + BITCOIN + [0] + [];
    assert PrintItems(leaf.items) == [0] + BITCOIN + [0];
    assert PrintItem(answer.items[0]) == SHA256 + ([0] + BITCOIN + [0]);
    assert Print(answer) == body && body[0..0 + |body|] == body;
    ParseUndoesPrint(answer, body, 0, 0);
    ErasedItems(answer);
  }
}
