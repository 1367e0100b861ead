/** Where a merge puts what it adds, and what it leaves in place. */
module MergeOrder {
  import opened Wire
  import opened Tree
  import opened Merge
  import opened MergeLaws
  import opened Idempotence

  // ----- a node's own items, without what is below them -----

  datatype Head = Note(claim: Claim) | Link(operation: Bytes)

  function HeadOf<A>(item: Item<A>): Head {
    match item
    case Attestation(tag, payload) => Note(Claim(tag, payload))
    case Branch(operation, _) => Link(operation)
  }

  function Heads<A>(items: seq<Item<A>>): (r: seq<Head>)
    ensures |r| == |items| && forall i :: 0 <= i < |r| ==> r[i] == HeadOf(items[i])
  {
    seq(|items|, i requires 0 <= i < |items| => HeadOf(items[i]))
  }

  /** The attestations among these, in order. */
  function Notes(heads: seq<Head>): seq<Head> {
    if heads == [] then []
    else Notes(heads[..|heads| - 1]) + if heads[|heads| - 1].Note? then [heads[|heads| - 1]] else []
  }

  /** The branches among these, in order. */
  function Links(heads: seq<Head>): seq<Head> {
    if heads == [] then []
    else Links(heads[..|heads| - 1]) + if heads[|heads| - 1].Link? then [heads[|heads| - 1]] else []
  }

  /** What is new in `more` compared with `seen`, each at its first occurrence. */
  function Fresh(seen: seq<Head>, more: seq<Head>): (r: seq<Head>)
    ensures forall x :: x in seen + r <==> x in seen || x in more
  {
    if more == [] then []
    else
      var before, x := Fresh(seen, more[..|more| - 1]), more[|more| - 1];
      assert forall y :: y in more <==> y in more[..|more| - 1] || y == x;
      if x in seen || x in before then before else before + [x]
  }

  /** The new attestations of `s`, and its new branches. */
  function NewNotes<A>(t: Tree<A>, source: seq<Item<A>>): seq<Head> {
    Fresh(Heads(t.items), Notes(Heads(source)))
  }

  function NewLinks<A>(t: Tree<A>, source: seq<Item<A>>): seq<Head> {
    Fresh(Heads(t.items), Links(Heads(source)))
  }

  /** `t`'s own items with new attestations behind as many items as it has attestations, and new branches at the end. */
  function Laid<A>(t: Tree<A>, notes: seq<Head>, links: seq<Head>): seq<Head> {
    var own, n := Heads(t.items), CountAttestations(t.items);
    own[..n] + notes + own[n..] + links
  }

  lemma {:induction false} CountIsNotes<A>(items: seq<Item<A>>)
    ensures CountAttestations(items) == |Notes(Heads(items))|
    decreases |items|
  {
    if items != [] {
      CountIsNotes(items[..|items| - 1]);
      assert Heads(items)[..|items| - 1] == Heads(items[..|items| - 1]);
    }
  }

  // ----- counting and concatenating -----

  lemma NotesSnoc(heads: seq<Head>, x: Head)
    ensures Notes(heads + [x]) == Notes(heads) + if x.Note? then [x] else []
    ensures Links(heads + [x]) == Links(heads) + if x.Link? then [x] else []
  {
    assert (heads + [x])[..|heads|] == heads;
  }

  lemma FreshSnoc(seen: seq<Head>, more: seq<Head>, x: Head)
    ensures var before := Fresh(seen, more);
            Fresh(seen, more + [x]) == if x in seen || x in before then before else before + [x]
  {
    assert (more + [x])[..|more|] == more;
  }

  lemma NothingNoted()
    ensures Notes([]) == [] && Links([]) == []
  {
  }

  lemma {:induction false} NotesConcat(a: seq<Head>, b: seq<Head>)
    ensures Notes(a + b) == Notes(a) + Notes(b) && Links(a + b) == Links(a) + Links(b)
    decreases |b|
  {
    hide *;
    if b == [] {
      NothingNoted();
      assert a + b == a;
    } else {
      var init, last := b[..|b| - 1], b[|b| - 1];
      NotesConcat(a, init);
      NotesSnoc(a + init, last);
      NotesSnoc(init, last);
      ConcatIsAssociative(a, init, [last]);
      assert init + [last] == b;
      ConcatIsAssociative(Notes(a), Notes(init), if last.Note? then [last] else []);
      ConcatIsAssociative(Links(a), Links(init), if last.Link? then [last] else []);
    }
  }

  lemma {:induction false} NotesAreNotes(heads: seq<Head>)
    ensures forall x :: x in Notes(heads) <==> x in heads && x.Note?
    ensures forall x :: x in Links(heads) <==> x in heads && x.Link?
    decreases |heads|
  {
    if heads != [] {
      NotesAreNotes(heads[..|heads| - 1]);
      assert forall x :: x in heads <==> x in heads[..|heads| - 1] || x == heads[|heads| - 1];
    }
  }

  lemma {:induction false} NotesOfAll(heads: seq<Head>)
    ensures (forall x :: x in heads ==> x.Note?) ==> Notes(heads) == heads
    ensures (forall x :: x in heads ==> x.Link?) ==> Notes(heads) == []
    decreases |heads|
  {
    if heads != [] {
      NotesOfAll(heads[..|heads| - 1]);
      assert forall x :: x in heads[..|heads| - 1] ==> x in heads;
      assert heads[|heads| - 1] in heads;
      assert heads == heads[..|heads| - 1] + [heads[|heads| - 1]];
    }
  }

  lemma {:induction false} FreshIsNew(seen: seq<Head>, more: seq<Head>)
    ensures forall x :: x in Fresh(seen, more) <==> x in more && x !in seen
    ensures forall i, j :: 0 <= i < j < |Fresh(seen, more)| ==> Fresh(seen, more)[i] != Fresh(seen, more)[j]
    decreases |more|
  {
    if more != [] {
      FreshIsNew(seen, more[..|more| - 1]);
      assert forall y :: y in more <==> y in more[..|more| - 1] || y == more[|more| - 1];
    }
  }

  // ----- one item -----

  lemma HeadsFind<A>(items: seq<Item<A>>)
    ensures forall c :: HasAttestation(items, c) <==> Note(c) in Heads(items)
    ensures forall op :: LastBranch(items, op).Some? <==> Link(op) in Heads(items)
  {
    forall c ensures HasAttestation(items, c) <==> Note(c) in Heads(items) {
      if Note(c) in Heads(items) {
        var i :| 0 <= i < |items| && Heads(items)[i] == Note(c);
        assert items[i].Attestation?;
      }
      if HasAttestation(items, c) {
        var i :| 0 <= i < |items| && items[i].Attestation? && Claim(items[i].tag, items[i].payload) == c;
        assert Heads(items)[i] == Note(c);
      }
    }
    forall op ensures LastBranch(items, op).Some? <==> Link(op) in Heads(items) {
      if Link(op) in Heads(items) {
        var i :| 0 <= i < |items| && Heads(items)[i] == Link(op);
        assert items[i].Branch? && items[i].operation == op;
      }
      if LastBranch(items, op).Some? {
        assert Heads(items)[LastBranch(items, op).value] == Link(op);
      }
    }
  }

  /** Merging one item changes no head; puts a new attestation behind as many items as there are attestations; or a
      new branch at the end. */
  lemma MergeItemHeads<A>(t: Tree<A>, item: Item<A>)
    ensures var own, x, n := Heads(t.items), HeadOf(item), CountAttestations(t.items);
            Heads(MergeItem(t, item).items)
            == if x in own then own else if x.Note? then own[..n] + [x] + own[n..] else own + [x]
  {
    HeadsFind(t.items);
    var own, n := Heads(t.items), CountAttestations(t.items);
    assert Heads(t.items[..n] + [item] + t.items[n..]) == own[..n] + [HeadOf(item)] + own[n..];
    if item.Branch? && LastBranch(t.items, item.operation).Some? {
      assert Heads(MergeItem(t, item).items) == own;
    }
  }

  // ----- a whole source -----

  lemma LaidCounts<A>(t: Tree<A>, notes: seq<Head>, links: seq<Head>)
    requires (forall x :: x in notes ==> x.Note?) && (forall x :: x in links ==> x.Link?)
    ensures |Notes(Laid(t, notes, links))| == CountAttestations(t.items) + |notes|
    ensures forall x :: x in Laid(t, notes, links) <==> x in Heads(t.items) || x in notes || x in links
  {
    hide Notes, Heads, CountAttestations;
    var own, n := Heads(t.items), CountAttestations(t.items);
    CountIsNotes(t.items);
    NotesConcat(own[..n] + notes + own[n..], links);
    NotesConcat(own[..n] + notes, own[n..]);
    NotesConcat(own[..n], notes);
    NotesConcat(own[..n], own[n..]);
    assert own[..n] + own[n..] == own;
    NotesOfAll(notes);
    NotesOfAll(links);
    forall x ensures x in Laid(t, notes, links) <==> x in own || x in notes || x in links {
      assert x in own <==> x in own[..n] || x in own[n..];
    }
  }

  lemma SpliceNote(own: seq<Head>, n: nat, notes: seq<Head>, links: seq<Head>, x: Head)
    requires n <= |own|
    ensures var laid, k := own[..n] + notes + own[n..] + links, n + |notes|;
            && laid[..k] + [x] + laid[k..] == own[..n] + (notes + [x]) + own[n..] + links
            && laid + [x] == own[..n] + notes + own[n..] + (links + [x])
  {
    var laid, k := own[..n] + notes + own[n..] + links, n + |notes|;
    assert laid[..k] == own[..n] + notes && laid[k..] == own[n..] + links;
  }

  lemma LaidNext<A>(t: Tree<A>, mid: Tree<A>, item: Item<A>, notes: seq<Head>, links: seq<Head>)
    requires Heads(mid.items) == Laid(t, notes, links)
    requires (forall x :: x in notes ==> x.Note?) && (forall x :: x in links ==> x.Link?)
    ensures var x, own := HeadOf(item), Heads(t.items);
            Heads(MergeItem(mid, item).items)
            == if x.Note? then Laid(t, if x in own || x in notes then notes else notes + [x], links)
               else Laid(t, notes, if x in own || x in links then links else links + [x])
  {
    hide Notes, CountAttestations, MergeItem, Heads, HeadOf;
    MergeItemHeads(mid, item);
    LaidCounts(t, notes, links);
    CountIsNotes(mid.items);
    SpliceNote(Heads(t.items), CountAttestations(t.items), notes, links, HeadOf(item));
  }

  lemma {:induction false} MergeItemsLay<A>(t: Tree<A>, source: seq<Item<A>>)
    ensures Heads(MergeItems(t, source).items) == Laid(t, NewNotes(t, source), NewLinks(t, source))
    decreases |source|
  {
    if source == [] {
      NothingLaid(t);
    } else {
      var init, item := source[..|source| - 1], source[|source| - 1];
      assert init + [item] == source && MergeItems(t, source) == MergeItem(MergeItems(t, init), item);
      hide Heads, HeadOf, Laid, NewNotes, NewLinks, MergeItem, MergeItems;
      MergeItemsLay(t, init);
      NewAreApart(t, init);
      LaidNext(t, MergeItems(t, init), item, NewNotes(t, init), NewLinks(t, init));
      NewNext(t, init, item);
    }
  }

  lemma NothingLaid<A>(t: Tree<A>)
    ensures Laid(t, NewNotes(t, []), NewLinks(t, [])) == Heads(t.items)
  {
    var own, n := Heads(t.items), CountAttestations(t.items);
    assert Heads<A>([]) == [] && own[..n] + own[n..] == own;
  }

  lemma NewAreApart<A>(t: Tree<A>, source: seq<Item<A>>)
    ensures forall x :: x in NewNotes(t, source) ==> x.Note?
    ensures forall x :: x in NewLinks(t, source) ==> x.Link?
  {
    NotesAreNotes(Heads(source));
    FreshIsNew(Heads(t.items), Notes(Heads(source)));
    FreshIsNew(Heads(t.items), Links(Heads(source)));
  }

  lemma NewNext<A>(t: Tree<A>, init: seq<Item<A>>, item: Item<A>)
    ensures var own, x, notes, links := Heads(t.items), HeadOf(item), NewNotes(t, init), NewLinks(t, init);
            && NewNotes(t, init + [item]) == (if x.Link? || x in own || x in notes then notes else notes + [x])
            && NewLinks(t, init + [item]) == (if x.Note? || x in own || x in links then links else links + [x])
  {
    hide Notes, Links, Fresh, HeadOf;
    var heads, x := Heads(init), HeadOf(item);
    assert Heads(init + [item]) == heads + [x];
    hide Heads;
    NotesSnoc(heads, x);
    FreshSnoc(Heads(t.items), Notes(heads), x);
    FreshSnoc(Heads(t.items), Links(heads), x);
    assert Notes(heads) + [] == Notes(heads) && Links(heads) + [] == Links(heads);
  }

  /** The order of a merge. The node's own items stay in their order. The new attestations of the source come together,
      in the order of their first occurrence, behind as many items as the node has attestations; and its new branches
      likewise at the end. */
  lemma MergeIsLaid<A>(t: Tree<A>, s: Tree<A>)
    ensures Heads(MergeTrees(t, s).items) == Laid(t, NewNotes(t, s.items), NewLinks(t, s.items))
  {
    MergeItemsLay(t, s.items);
  }

  // ----- what becomes of each item -----

  /** Where the node's `i`-th item is when this many new attestations have come in. */
  function Moved<A>(t: Tree<A>, notes: nat, i: nat): nat {
    if i < CountAttestations(t.items) then i else i + notes
  }

  /** All that a source has for one operation, merged in order into what was there. */
  function Gathered<A>(there: Option<Tree<A>>, source: seq<Item<A>>, operation: Bytes): (r: Option<Tree<A>>)
    ensures there.Some? ==> r.Some? && r.value.site == there.value.site
  {
    if source == [] then there
    else
      var before, item := Gathered(there, source[..|source| - 1], operation), source[|source| - 1];
      if item.Branch? && item.operation == operation
      then Some(if before.None? then item.child else MergeTrees(before.value, item.child))
      else before
  }

  lemma {:induction false} MergeGathers<A>(t: Tree<A>, source: seq<Item<A>>, operation: Bytes)
    ensures LastChild(MergeItems(t, source).items, operation)
         == Gathered(LastChild(t.items, operation), source, operation)
    decreases |source|
  {
    if source != [] {
      MergeGathers(t, source[..|source| - 1], operation);
      MergeItemLookup(MergeItems(t, source[..|source| - 1]), source[|source| - 1], operation);
    }
  }

  lemma HeadMoves<A>(t: Tree<A>, notes: seq<Head>, links: seq<Head>, i: nat)
    requires i < |t.items|
    ensures var laid, j := Laid(t, notes, links), Moved(t, |notes|, i);
            j < |laid| && laid[j] == HeadOf(t.items[i])
  {
    assert Heads(t.items)[i] == HeadOf(t.items[i]);
  }

  /** The last branch for an operation is moved with the rest, as no new branch is for an operation that was there. */
  lemma LastBranchMoves<A>(t: Tree<A>, merged: Tree<A>, notes: seq<Head>, links: seq<Head>, k: nat)
    requires Heads(merged.items) == Laid(t, notes, links)
    requires (forall x :: x in notes ==> x.Note?) && (forall x :: x in links ==> x !in Heads(t.items))
    requires k < |t.items| && t.items[k].Branch? && LastBranch(t.items, t.items[k].operation) == Some(k)
    ensures LastBranch(merged.items, t.items[k].operation) == Some(Moved(t, |notes|, k))
  {
    var op, n := t.items[k].operation, CountAttestations(t.items);
    var own, laid, j := Heads(t.items), Heads(merged.items), Moved(t, |notes|, k);
    HeadMoves(t, notes, links, k);
    assert merged.items[j].Branch? && merged.items[j].operation == op;
    forall i | j < i < |merged.items| ensures !(merged.items[i].Branch? && merged.items[i].operation == op) {
      LaidAt(t, notes, links, i);
      assert laid[i] == HeadOf(merged.items[i]);
    }
    var found := LastBranch(merged.items, op);
    assert found.Some? && found.value >= j;
  }

  /** What stands at a place: an item of the node at its moved place, or something new. */
  lemma LaidAt<A>(t: Tree<A>, notes: seq<Head>, links: seq<Head>, i: nat)
    requires i < |Laid(t, notes, links)|
    ensures var laid := Laid(t, notes, links);
            laid[i] in notes || laid[i] in links
            || exists k: nat :: k < |t.items| && i == Moved(t, |notes|, k) && laid[i] == HeadOf(t.items[k])
  {
    var own, n, laid := Heads(t.items), CountAttestations(t.items), Laid(t, notes, links);
    var k := if i < n then i else if i < n + |notes| then 0 else i - |notes|;
    if i < n {
      assert laid[i] == own[i] && i == Moved(t, |notes|, k);
    } else if i < n + |notes| {
      assert laid[i] == notes[i - n];
    } else if i < |own| + |notes| {
      assert laid[i] == own[n..][i - n - |notes|] == own[k] && i == Moved(t, |notes|, k);
    } else {
      assert laid[i] == links[i - |own| - |notes|];
    }
  }

  lemma NewLinksAreNew<A>(t: Tree<A>, source: seq<Item<A>>)
    ensures forall x :: x in NewLinks(t, source) ==> x !in Heads(t.items)
  {
    FreshIsNew(Heads(t.items), Links(Heads(source)));
  }

  /** Nothing but the last branch for an operation is ever changed. */
  lemma {:induction false} OthersStay<A>(t: Tree<A>, source: seq<Item<A>>, i: nat)
    requires i < |t.items| && t.items[i].Branch? && LastBranch(t.items, t.items[i].operation) != Some(i)
    ensures var merged, j := MergeItems(t, source), Moved(t, |NewNotes(t, source)|, i);
            j < |merged.items| && merged.items[j] == t.items[i]
    decreases |source|
  {
    if source == [] {
      NothingLaid(t);
    } else {
      var init, item := source[..|source| - 1], source[|source| - 1];
      assert init + [item] == source && MergeItems(t, source) == MergeItem(MergeItems(t, init), item);
      OthersStay(t, init, i);
      MergeItemsLay(t, init);
      NewAreApart(t, init);
      NewLinksAreNew(t, init);
      NewNext(t, init, item);
      OtherStays(t, MergeItems(t, init), item, NewNotes(t, init), NewLinks(t, init), i);
    }
  }

  lemma OtherStays<A>(t: Tree<A>, mid: Tree<A>, item: Item<A>, notes: seq<Head>, links: seq<Head>, i: nat)
    requires i < |t.items| && t.items[i].Branch? && LastBranch(t.items, t.items[i].operation) != Some(i)
    requires Heads(mid.items) == Laid(t, notes, links)
    requires (forall x :: x in notes ==> x.Note?) && (forall x :: x in links ==> x.Link? && x !in Heads(t.items))
    requires Moved(t, |notes|, i) < |mid.items| && mid.items[Moved(t, |notes|, i)] == t.items[i]
    ensures var merged, x := MergeItem(mid, item), HeadOf(item);
            var more := if x.Link? || x in Heads(t.items) || x in notes then |notes| else |notes| + 1;
            Moved(t, more, i) < |merged.items| && merged.items[Moved(t, more, i)] == t.items[i]
  {
    hide Laid, MergeTrees, Notes, Heads, HasAttestation, CountAttestations;
    if item.Attestation? {
      HeadsFind(mid.items);
      LaidCounts(t, notes, links);
      CountIsNotes(mid.items);
    } else {
      var k := LastBranch(t.items, t.items[i].operation);
      assert k.Some? && k.value > i;
      LastBranchMoves(t, mid, notes, links, k.value);
    }
  }

  /** What becomes of the node's `i`-th item: it stays as it is, moved on by the new attestations if it stood behind the
      node's own; only the last branch for an operation has all merged into it that the source has for the operation. */
  lemma ItemsStay<A>(t: Tree<A>, s: Tree<A>, i: nat)
    requires i < |t.items|
    ensures var merged, item, j := MergeTrees(t, s), t.items[i], Moved(t, |NewNotes(t, s.items)|, i);
            && j < |merged.items|
            && merged.items[j]
               == if item.Branch? && LastBranch(t.items, item.operation) == Some(i)
                  then Branch(item.operation, Gathered(Some(item.child), s.items, item.operation).value)
                  else item
  {
    var merged, item, j := MergeTrees(t, s), t.items[i], Moved(t, |NewNotes(t, s.items)|, i);
    MergeIsLaid(t, s);
    HeadMoves(t, NewNotes(t, s.items), NewLinks(t, s.items), i);
    assert Heads(merged.items)[j] == HeadOf(merged.items[j]);
    if item.Branch? {
      if LastBranch(t.items, item.operation) == Some(i) {
        NewAreApart(t, s.items);
        NewLinksAreNew(t, s.items);
        LastBranchMoves(t, merged, NewNotes(t, s.items), NewLinks(t, s.items), i);
        MergeGathers(t, s.items, item.operation);
      } else {
        OthersStay(t, s.items, i);
      }
    }
  }

  // ----- attestations and branches by themselves -----

  /** At a node whose attestations come first, the attestations afterwards are those it had and then the new ones: what
      was promised there is promised before everything that comes in. Its branches are those it had and then the new. */
  lemma NewComeLast<A>(t: Tree<A>, s: Tree<A>)
    requires AttestationsFirst(t)
    ensures Notes(Heads(MergeTrees(t, s).items)) == Notes(Heads(t.items)) + NewNotes(t, s.items)
    ensures Links(Heads(MergeTrees(t, s).items)) == Links(Heads(t.items)) + NewLinks(t, s.items)
  {
    hide Notes, Links, NewNotes, NewLinks, MergeTrees, CountAttestations, AttestationsFirst, Heads, MergeItems;
    MergeIsLaid(t, s);
    NewAreApart(t, s.items);
    OwnKinds(t);
    var own, n := Heads(t.items), CountAttestations(t.items);
    TwoKinds(own[..n], NewNotes(t, s.items), own[n..], NewLinks(t, s.items));
  }

  lemma OwnKinds<A>(t: Tree<A>)
    requires AttestationsFirst(t)
    ensures var own, n := Heads(t.items), CountAttestations(t.items);
            (forall x :: x in own[..n] ==> x.Note?) && (forall x :: x in own[n..] ==> x.Link?) && own[..n] + own[n..] == own
  {
    CountOfPrefix(t.items);
  }

  lemma TwoKinds(a: seq<Head>, notes: seq<Head>, b: seq<Head>, links: seq<Head>)
    requires (forall x :: x in a ==> x.Note?) && (forall x :: x in notes ==> x.Note?)
    requires (forall x :: x in b ==> x.Link?) && (forall x :: x in links ==> x.Link?)
    ensures Notes(a + notes + b + links) == Notes(a + b) + notes
    ensures Links(a + notes + b + links) == Links(a + b) + links
  {
    hide *;
    OnlyOneKind(a);
    OnlyOneKind(notes);
    OnlyOneKind(b);
    OnlyOneKind(links);
    NotesConcat(a + notes + b, links);
    NotesConcat(a + notes, b);
    NotesConcat(a, notes);
    NotesConcat(a, b);
  }

  lemma {:induction false} OnlyOneKind(heads: seq<Head>)
    ensures (forall i :: 0 <= i < |heads| ==> heads[i].Note?) ==> Notes(heads) == heads && Links(heads) == []
    ensures (forall i :: 0 <= i < |heads| ==> heads[i].Link?) ==> Links(heads) == heads && Notes(heads) == []
    decreases |heads|
  {
    hide *;
    if heads == [] {
      NothingNoted();
    } else {
      var init, last := heads[..|heads| - 1], heads[|heads| - 1];
      OnlyOneKind(init);
      NotesSnoc(init, last);
      assert heads == init + [last];
    }
  }
}
