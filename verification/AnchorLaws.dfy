/** What the reported anchors are: exactly the Bitcoin attestations on executable operation paths. */
module AnchorLaws {
  import opened Wire
  import opened Tree
  import opened Codec
  import opened Grammar
  import opened Skip
  import opened Anchors
  import opened MergeLaws

  /** Executing operations one after the other, given up on at the first that cannot be executed. */
  function ExecutePath(h: Host, path: seq<Bytes>, message: Bytes): Option<Bytes> {
    if path == [] then Some(message)
    else
      match Execute(h, path[0], message)
      case None => None
      case Some(next) => ExecutePath(h, path[1..], next)
  }

  /** This claim, at the end of this path, is what this anchor shows. */
  ghost predicate ShownBy(h: Host, message: Bytes, path: seq<Bytes>, c: Claim, a: Anchor) {
    && c.tag == BITCOIN
    && ReadVaruint(c.payload, 0).Ok? && ReadVaruint(c.payload, 0).value == a.height
    && ExecutePath(h, path, message).Some? && a.message == Reverse(ExecutePath(h, path, message).value)
  }

  lemma {:induction false} RunKeepsMessage<A>(h: Host, items: seq<Item<A>>, st: State)
    ensures RunItems(h, items, st).1.message == st.message
    decreases |items|
  {
    if items != [] {
      RunKeepsMessage(h, items[..|items| - 1], st);
    }
  }

  lemma {:induction false} ItemAnchorIsSound<A>(h: Host, item: Item<A>, st: State, a: Anchor)
    returns (path: seq<Bytes>, c: Claim)
    requires a in RunItem(h, item, st).0.anchors
    ensures ItemAttests(item, path, c) && ShownBy(h, st.message, path, c, a)
    decreases item, 1
  {
    match item
    case Attestation(tag, payload) =>
      path, c := [], Claim(tag, payload);
    case Branch(operation, child) =>
      var message := Execute(h, operation, st.message).value;
      var below;
      below, c := AnchorIsSound(h, child, Enter(h, st.(message := message)), a);
      path := [operation] + below;
      assert path[1..] == below;
  }

  lemma {:induction false} ItemsAnchorIsSound<A>(h: Host, items: seq<Item<A>>, st: State, a: Anchor)
    returns (i: nat, path: seq<Bytes>, c: Claim)
    requires a in RunItems(h, items, st).0.anchors
    ensures i < |items| && ItemAttests(items[i], path, c) && ShownBy(h, st.message, path, c, a)
    decreases items, 0
  {
    var last := |items| - 1;
    var before := RunItems(h, items[..last], st);
    RunKeepsMessage(h, items[..last], st);
    if a in before.0.anchors {
      i, path, c := ItemsAnchorIsSound(h, items[..last], st, a);
    } else {
      i := last;
      path, c := ItemAnchorIsSound(h, items[last], before.1, a);
    }
  }

  /** Every reported anchor comes from a Bitcoin attestation whose path executes to its message. */
  lemma {:induction false} AnchorIsSound<A>(h: Host, t: Tree<A>, st: State, a: Anchor)
    returns (path: seq<Bytes>, c: Claim)
    requires a in RunItems(h, t.items, st).0.anchors
    ensures Attests(t, path, c) && ShownBy(h, st.message, path, c, a)
    decreases t, 2
  {
    var i;
    i, path, c := ItemsAnchorIsSound(h, t.items, st, a);
  }

  lemma {:induction false} ItemAnchorIsComplete<A>(h: Host, item: Item<A>, st: State, path: seq<Bytes>, c: Claim)
    returns (a: Anchor)
    requires ItemAttests(item, path, c) && c.tag == BITCOIN && ReadVaruint(c.payload, 0).Ok?
    requires ExecutePath(h, path, st.message).Some?
    ensures a in RunItem(h, item, st).0.anchors && ShownBy(h, st.message, path, c, a)
    decreases item, 1
  {
    match item
    case Attestation(tag, payload) =>
      a := BitcoinReport(payload, st).anchors[0];
    case Branch(operation, child) =>
      var message := Execute(h, operation, st.message).value;
      a := AnchorIsComplete(h, child, Enter(h, st.(message := message)), path[1..], c);
  }

  lemma {:induction false} ItemsAnchorIsComplete<A>(h: Host, items: seq<Item<A>>, st: State, i: nat,
                                                    path: seq<Bytes>, c: Claim)
    returns (a: Anchor)
    requires i < |items| && ItemAttests(items[i], path, c) && c.tag == BITCOIN && ReadVaruint(c.payload, 0).Ok?
    requires ExecutePath(h, path, st.message).Some?
    ensures a in RunItems(h, items, st).0.anchors && ShownBy(h, st.message, path, c, a)
    decreases items, 0
  {
    var last := |items| - 1;
    RunKeepsMessage(h, items[..last], st);
    if i < last {
      a := ItemsAnchorIsComplete(h, items[..last], st, i, path, c);
    } else {
      a := ItemAnchorIsComplete(h, items[last], RunItems(h, items[..last], st).1, path, c);
    }
  }

  /** Every Bitcoin attestation on an executable path is reported. */
  lemma {:induction false} AnchorIsComplete<A>(h: Host, t: Tree<A>, st: State, path: seq<Bytes>, c: Claim)
    returns (a: Anchor)
    requires Attests(t, path, c) && c.tag == BITCOIN && ReadVaruint(c.payload, 0).Ok?
    requires ExecutePath(h, path, st.message).Some?
    ensures a in RunItems(h, t.items, st).0.anchors && ShownBy(h, st.message, path, c, a)
    decreases t, 2
  {
    var i :| 0 <= i < |t.items| && ItemAttests(t.items[i], path, c);
    a := ItemsAnchorIsComplete(h, t.items, st, i, path, c);
  }

  // ----- the two readings of "anchored" -----

  /** A Bitcoin attestation on a path this host can execute. */
  ghost predicate ExecutablyAnchored<A>(h: Host, t: Tree<A>, message: Bytes) {
    exists path, c :: Attests(t, path, c) && c.tag == BITCOIN && ExecutePath(h, path, message).Some?
  }

  lemma {:induction false} HeightOfClaim<A>(t: Tree<A>, path: seq<Bytes>, c: Claim)
    requires HeightsDecode(t.items) && Attests(t, path, c) && c.tag == BITCOIN
    ensures ReadVaruint(c.payload, 0).Ok?
    decreases path
  {
    var i :| 0 <= i < |t.items| && ItemAttests(t.items[i], path, c);
    assert HeightDecodes(t.items[i]);
    if t.items[i].Branch? {
      HeightOfClaim(t.items[i].child, path[1..], c);
    }
  }

  lemma AnchoredMeansReported<A>(h: Host, t: Tree<A>, st: State)
    requires HeightsDecode(t.items)
    ensures RunItems(h, t.items, st).0.anchors != [] <==> ExecutablyAnchored(h, t, st.message)
  {
    var anchors := RunItems(h, t.items, st).0.anchors;
    if anchors != [] {
      var path, c := AnchorIsSound(h, t, st, anchors[0]);
    }
    if ExecutablyAnchored(h, t, st.message) {
      var path, c :| Attests(t, path, c) && c.tag == BITCOIN && ExecutePath(h, path, st.message).Some?;
      HeightOfClaim(t, path, c);
      var a := AnchorIsComplete(h, t, st, path, c);
    }
  }

  /** Every operation below can be executed on any message. */
  ghost predicate Executable<A>(h: Host, items: seq<Item<A>>) {
    forall i :: 0 <= i < |items| && items[i].Branch? ==>
      && (forall m :: Execute(h, items[i].operation, m).Some?)
      && Executable(h, items[i].child.items)
  }

  lemma {:induction false} ExecutablePaths<A>(h: Host, t: Tree<A>, path: seq<Bytes>, c: Claim, message: Bytes)
    requires Executable(h, t.items) && Attests(t, path, c)
    ensures ExecutePath(h, path, message).Some?
    decreases path
  {
    var i :| 0 <= i < |t.items| && ItemAttests(t.items[i], path, c);
    if t.items[i].Branch? {
      ExecutablePaths(h, t.items[i].child, path[1..], c, Execute(h, path[0], message).value);
    }
  }

  /** Only a Keccak operation, or a RIPEMD-160 the host lacks, stops a well-formed operation. */
  lemma WhatExecutes(h: Host, op: Bytes, message: Bytes)
    requires WellFormedOperation(op)
    ensures Execute(h, op, message).None? <==> op[0] == 0x67 || (op[0] == 0x03 && h.ripemd160(message).None?)
  {
  }

  /** No operation below is a Keccak, or a RIPEMD-160 that the host lacks. */
  ghost predicate Supported<A>(h: Host, items: seq<Item<A>>) {
    forall i :: 0 <= i < |items| && items[i].Branch? ==>
      OpSupported(h, items[i].operation) && Supported(h, items[i].child.items)
  }

  ghost predicate OpSupported(h: Host, op: Bytes) {
    op != [] && op[0] != 0x67 && (op[0] == 0x03 ==> forall m :: h.ripemd160(m).Some?)
  }

  /** On well-formed trees that is exactly what makes all of it executable. */
  lemma {:induction false} ExecutableExactly<A>(h: Host, items: seq<Item<A>>)
    requires WellFormedItems(items)
    ensures Executable(h, items) <==> Supported(h, items)
    decreases items
  {
    forall i | 0 <= i < |items| && items[i].Branch?
      ensures (forall m :: Execute(h, items[i].operation, m).Some?) <==> OpSupported(h, items[i].operation)
      ensures Executable(h, items[i].child.items) <==> Supported(h, items[i].child.items)
    {
      assert WellFormedItem(items[i]);
      OpExecutable(h, items[i].operation);
      ExecutableExactly(h, items[i].child.items);
    }
  }

  lemma OpExecutable(h: Host, op: Bytes)
    requires WellFormedOperation(op)
    ensures (forall m :: Execute(h, op, m).Some?) <==> OpSupported(h, op)
  {
    WhatExecutes(h, op, []);
    if OpSupported(h, op) {
      forall m ensures Execute(h, op, m).Some? {
        WhatExecutes(h, op, m);
      }
    }
    if forall m :: Execute(h, op, m).Some? {
      forall m | op[0] == 0x03 ensures h.ripemd160(m).Some? {
        assert Execute(h, op, m).Some?;
      }
    }
  }

  // ----- describing a whole proof -----

  datatype ProofAnchors = ProofAnchors(anchors: seq<Anchor>, pendingCalendars: set<string>)

  function InsertByHeight(sorted: seq<Anchor>, a: Anchor): seq<Anchor> {
    if sorted == [] || sorted[|sorted| - 1].height <= a.height then sorted + [a]
    else InsertByHeight(sorted[..|sorted| - 1], a) + [sorted[|sorted| - 1]]
  }

  /** The stable sort by block height. */
  function SortByHeight(anchors: seq<Anchor>): seq<Anchor> {
    if anchors == [] then []
    else InsertByHeight(SortByHeight(anchors[..|anchors| - 1]), anchors[|anchors| - 1])
  }

  predicate Ascending(anchors: seq<Anchor>) {
    forall i, j :: 0 <= i < j < |anchors| ==> anchors[i].height <= anchors[j].height
  }

  lemma {:induction false} InsertPermutes(sorted: seq<Anchor>, a: Anchor)
    ensures multiset(InsertByHeight(sorted, a)) == multiset(sorted) + multiset{a}
    decreases |sorted|
  {
    if sorted != [] && sorted[|sorted| - 1].height > a.height {
      InsertPermutes(sorted[..|sorted| - 1], a);
      assert sorted == sorted[..|sorted| - 1] + [sorted[|sorted| - 1]];
    }
  }

  lemma {:induction false} InsertKeepsOrder(sorted: seq<Anchor>, a: Anchor)
    requires Ascending(sorted)
    ensures Ascending(InsertByHeight(sorted, a))
    decreases |sorted|
  {
    if sorted != [] && sorted[|sorted| - 1].height > a.height {
      var init, last := sorted[..|sorted| - 1], sorted[|sorted| - 1];
      InsertKeepsOrder(init, a);
      InsertPermutes(init, a);
      forall x | x in InsertByHeight(init, a) ensures x.height <= last.height {
        assert x in multiset(InsertByHeight(init, a));
      }
    }
  }

  lemma {:induction false} SortSorts(anchors: seq<Anchor>)
    ensures Ascending(SortByHeight(anchors))
    ensures multiset(SortByHeight(anchors)) == multiset(anchors)
    decreases |anchors|
  {
    if anchors != [] {
      var init, last := anchors[..|anchors| - 1], anchors[|anchors| - 1];
      SortSorts(init);
      InsertKeepsOrder(SortByHeight(init), last);
      InsertPermutes(SortByHeight(init), last);
      assert anchors == init + [last];
    }
  }

  /** The anchors of one height, in order. */
  function AtHeight(anchors: seq<Anchor>, height: nat): seq<Anchor> {
    if anchors == [] then []
    else AtHeight(anchors[..|anchors| - 1], height)
         + if anchors[|anchors| - 1].height == height then [anchors[|anchors| - 1]] else []
  }

  lemma {:induction false} InsertIsStable(sorted: seq<Anchor>, a: Anchor, height: nat)
    ensures AtHeight(InsertByHeight(sorted, a), height)
         == AtHeight(sorted, height) + if a.height == height then [a] else []
    decreases |sorted|
  {
    if sorted == [] || sorted[|sorted| - 1].height <= a.height {
      assert (sorted + [a])[..|sorted|] == sorted;
    } else {
      var init, last := sorted[..|sorted| - 1], sorted[|sorted| - 1];
      InsertIsStable(init, a, height);
      assert (InsertByHeight(init, a) + [last])[..|InsertByHeight(init, a)|] == InsertByHeight(init, a);
    }
  }

  /** Anchors of equal height stay in the order in which the proof has them. */
  lemma {:induction false} SortIsStable(anchors: seq<Anchor>, height: nat)
    ensures AtHeight(SortByHeight(anchors), height) == AtHeight(anchors, height)
    decreases |anchors|
  {
    if anchors != [] {
      SortIsStable(anchors[..|anchors| - 1], height);
      InsertIsStable(SortByHeight(anchors[..|anchors| - 1]), anchors[|anchors| - 1], height);
    }
  }

  function AnchoringCalendars(anchors: seq<Anchor>): set<string> {
    set i, uri | 0 <= i < |anchors| && uri in anchors[i].calendars :: uri
  }

  /** The state in which a proof's root is entered. */
  function RootState(h: Host, digest: Bytes): State {
    Enter(h, State(digest, [], None, None))
  }

  /** `describe_anchors`. It does not look past the timestamp, so trailing bytes are no obstacle. */
  method DescribeAnchors(h: Host, data: Bytes) returns (r: Parsed<ProofAnchors>)
    ensures r.Ok? <==>
      && ReadStrictHeader(data).Ok?
      && ParseNode(data, ReadStrictHeader(data).next, 0).Ok?
      && HeightsDecode(ParseNode(data, ReadStrictHeader(data).next, 0).value.items)
    ensures r.Ok? ==>
      (var run := RunItems(h, ParseNode(data, ReadStrictHeader(data).next, 0).value.items,
                           RootState(h, ReadStrictHeader(data).value)).0;
       && r.value.anchors == SortByHeight(run.anchors)
       && Ascending(r.value.anchors) && multiset(r.value.anchors) == multiset(run.anchors)
       && r.value.pendingCalendars == (set uri | uri in run.pending) - AnchoringCalendars(run.anchors))
  {
    var header := ReadStrictHeader(data);
    if header.Fail? {
      return Fail(header.error);
    }
    var rec := new Recorder();
    var end := Walk(h, data, header.next, State(header.value, [], None, None), rec, 0);
    if end.Fail? {
      return Fail(end.error);
    }
    SortSorts(rec.anchors);
    var outstanding := (set uri | uri in rec.pending) - AnchoringCalendars(rec.anchors);
    ghost var run := RunItems(h, ParseNode(data, header.next, 0).value.items, RootState(h, header.value)).0;
    assert [] + run.anchors == run.anchors && [] + run.pending == run.pending;
    return Ok(ProofAnchors(SortByHeight(rec.anchors), outstanding), end.next);
  }

  /** `classify` says "valid" and `describe_anchors` shows an anchor for the same proofs, except when
      every Bitcoin attestation lies behind an operation this host cannot execute. */
  lemma ValidMeansDescribed(h: Host, data: Bytes)
    requires ReadStrictHeader(data).Ok? && ParseProof(data).Ok?
    requires HeightsDecode(ParseProof(data).value.root.items)
    ensures var p := ParseProof(data).value;
            var shown := RunItems(h, p.root.items, RootState(h, p.digest)).0.anchors != [];
            && (shown ==> AttestsTag(p.root, BITCOIN))
            && (shown <==> ExecutablyAnchored(h, p.root, p.digest))
            && (Executable(h, p.root.items) ==> (shown <==> AttestsTag(p.root, BITCOIN)))
  {
    var p := ParseProof(data).value;
    AnchoredMeansReported(h, p.root, RootState(h, p.digest));
    if Executable(h, p.root.items) && AttestsTag(p.root, BITCOIN) {
      var path, c :| Attests(p.root, path, c) && c.tag == BITCOIN;
      ExecutablePaths(h, p.root, path, c, p.digest);
    }
  }

  // ----- a proof that is counted and not shown -----

  /** A Bitcoin attestation behind a Keccak operation. */
  function KeccakProof(digest: Bytes): Proof<()> {
    Proof(MAGIC + [1, SHA256_TAG] + digest, digest,
          Tree((), [Branch([0x67], Tree((), [Attestation(BITCOIN, [0])]))]))
  }

  lemma KeccakProofParses(digest: Bytes)
    requires |digest| == 32
    ensures var p := KeccakProof(digest);
            && ParseProof(PrintProof(p)) == Ok(p, |PrintProof(p)|)
            && ReadStrictHeader(PrintProof(p)) == Ok(digest, |p.header|)
  {
    var p := KeccakProof(digest);
    var header, data := p.header, PrintProof(p);
    var leaf := p.root.items[0].child;
    assert header[|MAGIC|] == 1 && header[|MAGIC| + 1] == SHA256_TAG && |header| == |MAGIC| + 34;
    assert header[|MAGIC| + 2..|MAGIC| + 34] == digest == data[|MAGIC| + 2..|MAGIC| + 34];
    assert MAGIC <= header && MAGIC <= data && data[..|header|] == header;
    assert ReadVaruint(header, |MAGIC|) == Ok(1, |MAGIC| + 1);
    assert ReadDigest(header, |MAGIC| + 1) == Ok(digest, |header|);
    assert WellFormedItem(leaf.items[0]) && WellFormedItem(p.root.items[0]);
    assert leaf.items[1..] == [] && p.root.items[1..] == [] && HeightOfItems(leaf.items[1..]) == 0;
    assert HeightOfItems(leaf.items) == 0 && Height(p.root) == 1;
    ParseUndoesPrintProof(p);
    EraseValueItems(p.root.items);
    assert data[|MAGIC|] == 1 && data[|MAGIC| + 1] == SHA256_TAG;
  }

  lemma KeccakHidesAnchor(h: Host, digest: Bytes, st: State)
    ensures var t := KeccakProof(digest).root;
            AttestsTag(t, BITCOIN) && HeightsDecode(t.items) && RunItems(h, t.items, st).0.anchors == []
  {
    var t := KeccakProof(digest).root;
    assert ItemAttests(t.items[0].child.items[0], [], Claim(BITCOIN, [0]));
    assert Attests(t.items[0].child, [[0x67]][1..], Claim(BITCOIN, [0]));
    assert ItemAttests(t.items[0], [[0x67]], Claim(BITCOIN, [0]));
    assert Attests(t, [[0x67]], Claim(BITCOIN, [0]));
    assert ReadVaruint([0], 0) == Ok(0, 1) && HeightDecodes(t.items[0].child.items[0]);
    assert HeightDecodes(t.items[0]) && t.items[..0] == [];
  }

  /** Both functions read the same bytes. Classification says valid; describing succeeds and shows no anchor. */
  method KeccakIsCountedButNotShown(h: Host, digest: Bytes)
    returns (data: Bytes, verdict: Parsed<Verdict>, described: Parsed<ProofAnchors>)
    requires |digest| == 32
    ensures data == PrintProof(KeccakProof(digest))
    ensures verdict.Ok? && verdict.value == Valid && described.Ok? && described.value.anchors == []
  {
    KeccakProofParses(digest);
    KeccakHidesAnchor(h, digest, RootState(h, digest));
    data := PrintProof(KeccakProof(digest));
    hide KeccakProof, AttestsTag, HeightsDecode, RootState, ParseProof, ReadStrictHeader;
    verdict := Classify(data);
    described := DescribeAnchors(h, data);
    assert SortByHeight([]) == [];
  }
}
