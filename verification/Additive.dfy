/** The judgement by which an upgrade adopts what an interrupted one left behind. */
module Additive {
  import opened Wire
  import opened Tree
  import opened Codec
  import opened Grammar
  import opened Skip
  import opened Anchors
  import opened MergeLaws
  import opened Collect
  import opened Graft
  import opened GraftLaws
  import opened Idempotence
  import opened Promises

  /** A completed attestation at its operation path. */
  datatype Fact = Fact(path: seq<Bytes>, claim: Claim)

  /** The nested `completed`: every attestation that is not a promise, under the path walked so far. */
  function Completed<A>(items: seq<Item<A>>, path: seq<Bytes>): set<Fact>
    decreases items, 0
  {
    if items == [] then {}
    else Completed(items[..|items| - 1], path) + CompletedOf(items[|items| - 1], path)
  }

  function CompletedOf<A>(item: Item<A>, path: seq<Bytes>): set<Fact>
    decreases item, 1
  {
    match item
    case Attestation(tag, payload) => if tag == PENDING then {} else {Fact(path, Claim(tag, payload))}
    case Branch(operation, child) => Completed(child.items, path + [operation])
  }

  /** `False`, `True`, or the IndexError of a proof that ends in a bare fork marker. */
  datatype Judgement = Rejected | Accepted | Escapes

  function IsAdditiveUpgrade(h: Host, committed: Bytes, worktree: Bytes, payload: Bytes): Judgement {
    if !Validates(h, committed, payload) || !Validates(h, worktree, payload) then Rejected
    else
      match ParseProof(committed)
      case Fail(e) => if e == ForkAtEnd then Escapes else Rejected
      case Ok(c, _) =>
        match ParseProof(worktree)
        case Fail(e) => if e == ForkAtEnd then Escapes else Rejected
        case Ok(w, _) =>
          if c.header == w.header && Completed(c.root.items, []) <= Completed(w.root.items, [])
          then Accepted else Rejected
  }

  // ----- when judging escapes -----

  /** A last byte 0xff, and a truncated proof before it. */
  predicate ForkEndsProofBytes(data: Bytes) {
    data != [] && data[|data| - 1] == FORK && ParseProof(data[..|data| - 1]) == Fail(Truncated)
  }

  /** The judgement escapes with an index error exactly when both versions bind and the first that fails to parse is a
      truncated proof with one fork marker more. */
  lemma EscapesExactly(h: Host, committed: Bytes, worktree: Bytes, payload: Bytes)
    ensures IsAdditiveUpgrade(h, committed, worktree, payload) == Escapes
       <==> && Validates(h, committed, payload) && Validates(h, worktree, payload)
            && (ForkEndsProofBytes(committed) || (ParseProof(committed).Ok? && ForkEndsProofBytes(worktree)))
  {
    ForkEndsProof(committed);
    ForkEndsProof(worktree);
    hide ParseProof, Validates, Completed;
  }

  /** A proof that is nothing but a header and a fork marker binds to its payload, and is judged with an index error. */
  lemma ForkAfterHeaderEscapes(h: Host, payload: Bytes)
    requires |h.sha1(payload)| == 20
    ensures var data := MAGIC + [1, SHA1_TAG] + h.sha1(payload) + [FORK];
            ParseProof(data) == Fail(ForkAtEnd) && IsAdditiveUpgrade(h, data, data, payload) == Escapes
  {
    var digest := h.sha1(payload);
    var data := MAGIC + [1, SHA1_TAG] + digest + [FORK];
    assert MAGIC <= data && data[|MAGIC|] == 1 && data[|MAGIC| + 1] == SHA1_TAG;
    assert data[|MAGIC| + 2..|MAGIC| + 22] == digest && data[|MAGIC| + 22] == FORK && |data| == |MAGIC| + 23;
    assert ReadDigest(data, |MAGIC| + 1) == Ok(digest, |MAGIC| + 22);
    assert ReadStrictHeader(data) == Ok(digest, |MAGIC| + 22);
    assert ParseItem(data, |data|, 0) == Fail(ForkAtEnd);
    assert ParseItems(data, |MAGIC| + 22, 0) == Fail(ForkAtEnd);
  }

  // ----- what acceptance means -----

  lemma {:induction false} CompletedItem<A>(item: Item<A>, path: seq<Bytes>, f: Fact)
    ensures f in CompletedOf(item, path)
       <==> path <= f.path && f.claim.tag != PENDING && ItemAttests(item, f.path[|path|..], f.claim)
    decreases item, 1
  {
    if item.Attestation? {
      assert path <= f.path && f.path[|path|..] == [] ==> f.path == path;
      assert f.path == path ==> path <= f.path && f.path[|path|..] == [];
    } else {
      var longer := path + [item.operation];
      CompletedMeans(item.child, longer, f);
      if path <= f.path && |f.path| > |path| {
        assert f.path[..|longer|] == path + [f.path[|path|]];
        assert f.path[|path|..][1..] == f.path[|longer|..];
      }
      if longer <= f.path {
        assert f.path[..|path|] == longer[..|path|] == path;
        assert f.path[|path|] == longer[|path|];
      }
    }
  }

  lemma {:induction false} CompletedItems<A>(items: seq<Item<A>>, path: seq<Bytes>, f: Fact)
    ensures f in Completed(items, path) <==> exists i :: 0 <= i < |items| && f in CompletedOf(items[i], path)
    decreases |items|
  {
    if items != [] {
      CompletedItems(items[..|items| - 1], path, f);
    }
  }

  /** The facts collected are exactly the non-promise attestations with their operation paths. */
  lemma {:induction false} CompletedMeans<A>(t: Tree<A>, path: seq<Bytes>, f: Fact)
    ensures f in Completed(t.items, path)
       <==> path <= f.path && f.claim.tag != PENDING && Attests(t, f.path[|path|..], f.claim)
    decreases t, 2
  {
    CompletedItems(t.items, path, f);
    forall i | 0 <= i < |t.items|
      ensures f in CompletedOf(t.items[i], path)
         <==> path <= f.path && f.claim.tag != PENDING && ItemAttests(t.items[i], f.path[|path|..], f.claim)
    {
      CompletedItem(t.items[i], path, f);
    }
  }

  /** A parseable proof bound to this payload. */
  predicate Bound(h: Host, data: Bytes, payload: Bytes) {
    Validates(h, data, payload) && ParseProof(data).Ok?
  }

  /** Everything `a` completed, `b` has completed at the same operation path. */
  ghost predicate Keeps(a: Proof<()>, b: Proof<()>) {
    forall path: seq<Bytes>, c: Claim :: c.tag != PENDING && Attests(a.root, path, c) ==> Attests(b.root, path, c)
  }

  lemma KeepsMeansSubset(a: Proof<()>, b: Proof<()>)
    ensures Completed(a.root.items, []) <= Completed(b.root.items, []) <==> Keeps(a, b)
  {
    var x, y := Completed(a.root.items, []), Completed(b.root.items, []);
    if x <= y {
      forall path: seq<Bytes>, c: Claim | c.tag != PENDING && Attests(a.root, path, c) ensures Attests(b.root, path, c) {
        assert path[0..] == path;
        CompletedMeans(a.root, [], Fact(path, c));
        CompletedMeans(b.root, [], Fact(path, c));
      }
    }
    if Keeps(a, b) {
      forall f | f in x ensures f in y {
        assert f.path[0..] == f.path;
        CompletedMeans(a.root, [], f);
        CompletedMeans(b.root, [], f);
      }
    }
  }

  /** An upgrade is accepted exactly when both versions bind, share their header, and no completed
      attestation has moved or gone. */
  lemma AcceptedMeans(h: Host, committed: Bytes, worktree: Bytes, payload: Bytes)
    ensures IsAdditiveUpgrade(h, committed, worktree, payload) == Accepted
       <==> && Bound(h, committed, payload) && Bound(h, worktree, payload)
            && ParseProof(committed).value.header == ParseProof(worktree).value.header
            && Keeps(ParseProof(committed).value, ParseProof(worktree).value)
  {
    if ParseProof(committed).Ok? && ParseProof(worktree).Ok? {
      KeepsMeansSubset(ParseProof(committed).value, ParseProof(worktree).value);
    }
  }

  // ----- a preorder -----

  lemma AcceptedIsReflexive(h: Host, data: Bytes, payload: Bytes)
    ensures IsAdditiveUpgrade(h, data, data, payload) == Accepted <==> Bound(h, data, payload)
  {
    AcceptedMeans(h, data, data, payload);
  }

  lemma AcceptedIsTransitive(h: Host, a: Bytes, b: Bytes, c: Bytes, payload: Bytes)
    requires IsAdditiveUpgrade(h, a, b, payload) == Accepted && IsAdditiveUpgrade(h, b, c, payload) == Accepted
    ensures IsAdditiveUpgrade(h, a, c, payload) == Accepted
  {
    AcceptedMeans(h, a, b, payload);
    AcceptedMeans(h, b, c, payload);
    AcceptedMeans(h, a, c, payload);
    var x, y, z := ParseProof(a).value, ParseProof(b).value, ParseProof(c).value;
    forall path: seq<Bytes>, claim: Claim | claim.tag != PENDING && Attests(x.root, path, claim) ensures Attests(z.root, path, claim) {
      assert Attests(y.root, path, claim);
    }
  }

  // ----- passes of this program are adopted -----

  /** `after` is what one pass over `before` writes. */
  ghost predicate PassWrites<A>(h: Host, before: Bytes, payload: Bytes, fetch: Fetcher, round: Round<A>, after: Bytes) {
    && ParseProof(before).Ok? && RoundOf(h, ParseProof(before).value, fetch, round)
    && exists names, notes :: Settled(h, before, payload, round, Rewritten(after, names, notes))
  }

  lemma WrittenParsesBack<A>(h: Host, before: Bytes, payload: Bytes, fetch: Fetcher, round: Round<A>, after: Bytes)
    requires PassWrites(h, before, payload, fetch, round, after)
    ensures ParseProof(before).Ok? && RoundOf(h, ParseProof(before).value, fetch, round)
    ensures var p := ParseProof(before).value;
            ParseProof(after) == Ok(Proof(p.header, p.digest, Erase(End(round))), |after|)
    ensures Validates(h, before, payload) && Validates(h, after, payload)
  {
    ParsedProofIsWellFormed(before);
    RoundDepth(h, ParseProof(before).value, fetch, round);
    RoundPrints(h, before, payload, fetch, round);
    hide Validates, End, Fits, Height;
  }

  /** A pass preserves every completed attestation, so the judgement accepts what it writes. */
  lemma PassIsAdditive<A>(h: Host, before: Bytes, payload: Bytes, fetch: Fetcher, round: Round<A>, after: Bytes)
    requires PassWrites(h, before, payload, fetch, round, after)
    ensures IsAdditiveUpgrade(h, before, after, payload) == Accepted
  {
    WrittenParsesBack(h, before, payload, fetch, round, after);
    var p := ParseProof(before).value;
    hide RoundOf, ParseProof, End, Erase, PassWrites;
    AcceptedMeans(h, before, after, payload);
    forall path: seq<Bytes>, c: Claim | c.tag != PENDING && Attests(p.root, path, c) ensures Attests(ParseProof(after).value.root, path, c) {
      RoundKeeps(h, p, fetch, round, path, c);
      EraseAttests(End(round), path, c);
    }
  }

  /** What `upgrade_all` makes of a stored proof: a version that is not HEAD's is a candidate left over from an earlier
      invocation if it is an additive upgrade, and else is left alone. */
  datatype Considered = Skipped | Escaping | Candidate(recovered: bool)

  function Consider(h: Host, proofCommits: bool, committed: Option<Bytes>, worktree: Bytes, payload: Bytes): Considered {
    if proofCommits && committed.Some? && committed.value != worktree then
      match IsAdditiveUpgrade(h, committed.value, worktree, payload)
      case Rejected => Skipped
      case Escapes => Escaping
      case Accepted => Candidate(true)
    else Candidate(false)
  }

  /** Its path goes into the upgrade commit: a leftover whatever its calendars now say, another when it was upgraded. */
  predicate Adopted(considered: Considered, upgraded: bool) {
    considered.Candidate? && (considered.recovered || upgraded)
  }

  /** However many passes ran since the commit, and wherever each was interrupted (a write is a single
      rename, so a file holds the bytes before the pass or the bytes after it), the file is accepted
      against the committed version; if it is not HEAD's any more, the next upgrade commits it even if no calendar
      has anything new. */
  lemma {:induction false} InterruptedPassesAreAdopted<A>(h: Host, payload: Bytes, files: seq<Bytes>,
                                                          fetches: seq<Fetcher>, rounds: seq<Round<A>>)
    requires files != [] && |fetches| == |rounds| == |files| - 1 && Bound(h, files[0], payload)
    requires forall i :: 0 <= i < |files| - 1 ==>
               files[i + 1] == files[i] || PassWrites(h, files[i], payload, fetches[i], rounds[i], files[i + 1])
    ensures IsAdditiveUpgrade(h, files[0], files[|files| - 1], payload) == Accepted
    ensures var considered := Consider(h, true, Some(files[0]), files[|files| - 1], payload);
            Adopted(considered, true) && (Adopted(considered, false) <==> files[|files| - 1] != files[0])
    decreases |files|
  {
    hide PassWrites, IsAdditiveUpgrade, Bound;
    var last := |files| - 1;
    if last == 0 {
      AcceptedIsReflexive(h, files[0], payload);
    } else {
      InterruptedPassesAreAdopted(h, payload, files[..last], fetches[..last - 1], rounds[..last - 1]);
      if files[last] != files[last - 1] {
        PassIsAdditive(h, files[last - 1], payload, fetches[last - 1], rounds[last - 1], files[last]);
        AcceptedIsTransitive(h, files[0], files[last - 1], files[last], payload);
      }
    }
  }

  /** What a pass adds is no more than what the calendars answered: every new attestation lies below a
      node the pass asked about, and an answer attests it there. */
  lemma PassAddsOnlyAnswers<A>(h: Host, before: Bytes, payload: Bytes, fetch: Fetcher, round: Round<A>, after: Bytes,
                               path: seq<Bytes>, c: Claim)
    requires PassWrites(h, before, payload, fetch, round, after)
    ensures ParseProof(after).Ok?
    ensures Attests(ParseProof(after).value.root, path, c)
       <==> Attests(ParseProof(before).value.root, path, c)
            || AnswerAttests(round.start, SitesOf(round.targets), round.answers, |round.targets|, path, c)
  {
    WrittenParsesBack(h, before, payload, fetch, round, after);
    hide PassWrites, ParseProof, Grafted, Erase, Attests;
    GraftedIsUnion(round.start, SitesOf(round.targets), round.answers, |round.targets|, path, c);
    EraseAttests(round.start, path, c);
    EraseAttests(End(round), path, c);
  }
}
