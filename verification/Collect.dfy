/** One collect-and-merge pass over a stored proof (`_collect_from_calendars`). */
module Collect {
  import opened Wire
  import opened Tree
  import opened Grammar
  import opened Codec
  import opened Merge
  import opened MergeLaws
  import opened Idempotence
  import opened Skip
  import opened Anchors
  import opened ProofTree
  import opened Builder
  import opened Graft
  import opened GraftLaws
  import opened Promises

  const TIMESTAMP_STARTS: set<byte> := {0x00, 0xff, 0x02, 0x03, 0x08, 0x67, 0xf0, 0xf1, 0xf2, 0xf3}

  /** `validate_detached_proof` with a payload: a strict header whose digest is the payload's hash, and
      a plausible first byte after it. */
  predicate Validates(h: Host, data: Bytes, payload: Bytes) {
    var header := ReadStrictHeader(data);
    && header.Ok? && header.next < |data| && data[header.next] in TIMESTAMP_STARTS
    && header.value == if data[|MAGIC| + 1] == SHA1_TAG then h.sha1(payload) else h.sha256(payload)
  }

  // ----- what a pass does, on trees -----

  /** The promises asked, and the timestamps that came back usable. */
  datatype Round<A> = Round(start: Tree<A>, targets: seq<Target<A>>, answers: seq<Option<Tree<A>>>)

  function SitesOf<A>(targets: seq<Target<A>>): (s: seq<A>)
    ensures |s| == |targets| && forall i :: 0 <= i < |s| ==> s[i] == targets[i].site
  {
    seq(|targets|, i requires 0 <= i < |targets| => targets[i].site)
  }

  /** The tree when the round is over. */
  function End<A(==)>(round: Round<A>): Tree<A>
    requires |round.answers| == |round.targets|
  {
    Grafted(round.start, SitesOf(round.targets), round.answers, |round.targets|)
  }

  /** A fetched body counts as an answer exactly when it parses as a response. */
  ghost predicate Answers<A>(body: Option<Bytes>, answer: Option<Tree<A>>) {
    match answer
    case None => body.None? || ParseResponse(body.value).Fail?
    case Some(s) => body.Some? && ParseResponse(body.value).Ok? && Erase(s) == ParseResponse(body.value).value
  }

  /** What comes back for each promise: the calendars and the network, as a function of the call. */
  type Fetcher = (nat, string, Bytes) -> Option<Bytes>

  /** No node asked for is in two places. */
  ghost predicate OnePlace<A>(round: Round<A>) {
    forall i :: 0 <= i < |round.targets| ==> Places(round.start, round.targets[i].site) <= 1
  }

  /** Every node asked for is so high up that its answer stays within the depth limit. */
  ghost predicate Fits<A>(round: Round<A>)
    requires |round.answers| == |round.targets|
  {
    forall i :: 0 <= i < |round.targets| && round.answers[i].Some? ==>
      Room(round.start, round.targets[i].site, Height(round.answers[i].value), MAX_DEPTH)
  }

  /** This round asks for every unfulfilled promise of the proof. */
  ghost predicate Asks<A>(h: Host, p: Proof<()>, round: Round<A>) {
    Erase(round.start) == p.root && round.targets == Collectible(h, round.start, Some(p.digest))
  }

  /** And it uses every usable answer. */
  ghost predicate RoundOf<A>(h: Host, p: Proof<()>, fetch: Fetcher, round: Round<A>) {
    && Asks(h, p, round) && |round.answers| == |round.targets|
    && Foreign(SitesOf(round.targets), round.answers) && OnePlace(round)
    && forall i :: 0 <= i < |round.targets| ==>
         Answers(fetch(i, round.targets[i].url, round.targets[i].commitment), round.answers[i])
  }

  lemma {:induction false} ErasedItems<A>(t: Tree<A>)
    ensures WellFormed(t) <==> WellFormed(Erase(t))
    ensures Height(t) == Height(Erase(t)) && Print(t) == Print(Erase(t))
    ensures WellFormed(t) ==> Populated(t.items)
    decreases t
  {
    forall i | 0 <= i < |t.items|
      ensures WellFormedItem(t.items[i]) <==> WellFormedItem(EraseItem(t.items[i]))
      ensures HeightOfItem(t.items[i]) == HeightOfItem(EraseItem(t.items[i]))
      ensures PrintItem(t.items[i]) == PrintItem(EraseItem(t.items[i]))
      ensures t.items[i].Branch? && WellFormedItem(t.items[i]) ==> Populated(t.items[i].child.items)
    {
      if t.items[i].Branch? {
        ErasedItems(t.items[i].child);
      }
    }
    assert WellFormed(t) ==> forall i :: 0 <= i < |t.items| ==> WellFormedItem(t.items[i]);
    assert WellFormed(Erase(t)) ==> forall i :: 0 <= i < |t.items| ==> WellFormedItem(Erase(t).items[i]);
    ErasedFold(t.items);
  }

  lemma {:induction false} ErasedFold<A>(items: seq<Item<A>>)
    requires forall i :: 0 <= i < |items| ==> HeightOfItem(items[i]) == HeightOfItem(EraseItem(items[i]))
    requires forall i :: 0 <= i < |items| ==> PrintItem(items[i]) == PrintItem(EraseItem(items[i]))
    ensures HeightOfItems(items) == HeightOfItems(EraseItems(items))
    ensures PrintItems(items) == PrintItems(EraseItems(items))
    decreases |items|
  {
    if items != [] {
      ErasedFold(items[1..]);
      assert EraseItems(items)[1..] == EraseItems(items[1..]);
    }
  }

  // ----- the pass itself, on node objects -----

  datatype Trouble =
    | UnreadableProof(error: Error)
    | UnreadableTree
    | ForkEndsResponse
    | Unbound
    | TooDeep
    | Dropped

  /** `None` (nothing to write), the rewritten proof and who contributed, or an exception. */
  datatype Outcome =
    | Nothing(notes: seq<Diagnostic>)
    | Rewritten(proof: Bytes, collected: seq<string>, notes: seq<Diagnostic>)
    | Raised(why: Trouble)

  /** Why a calendar contributed nothing it was asked for: no body came, or one that does not parse. */
  datatype Diagnostic = NoBody(url: string) | Unusable(url: string)

  function DiagnosticFor(body: Option<Bytes>, url: string): seq<Diagnostic> {
    if body.None? then [NoBody(url)] else if ParseResponse(body.value).Fail? then [Unusable(url)] else []
  }

  /** The diagnostics for the first `n` targets. */
  function Diagnostics<A>(fetch: Fetcher, targets: seq<Target<A>>, n: nat): seq<Diagnostic>
    requires n <= |targets|
  {
    if n == 0 then []
    else
      var x := targets[n - 1];
      Diagnostics(fetch, targets, n - 1) + DiagnosticFor(fetch(n - 1, x.url, x.commitment), x.url)
  }

  /** The calendars among the first `n` whose answer made a difference to the tree, in the order asked. */
  ghost function Contributors<A>(start: Tree<A>, targets: seq<Target<A>>, answers: seq<Option<Tree<A>>>, n: nat): seq<string>
    requires n <= |targets| && n <= |answers|
  {
    if n == 0 then []
    else
      var sites := SitesOf(targets);
      Contributors(start, targets, answers, n - 1)
      + if Grafted(start, sites, answers, n) != Grafted(start, sites, answers, n - 1) then [targets[n - 1].url] else []
  }

  /** Somebody contributed exactly when the tree at the end is another. */
  lemma {:induction false} ContributedMeansChanged<A>(start: Tree<A>, targets: seq<Target<A>>,
                                                      answers: seq<Option<Tree<A>>>, n: nat)
    requires n <= |targets| && n <= |answers|
    ensures var end := Grafted(start, SitesOf(targets), answers, n);
            && Weight(end.items) >= Weight(start.items)
            && (Contributors(start, targets, answers, n) == [] ==> end == start)
            && (Contributors(start, targets, answers, n) != [] ==> Weight(end.items) > Weight(start.items))
    decreases n
  {
    if n > 0 {
      hide Weight, MergeAt;
      ContributedMeansChanged(start, targets, answers, n - 1);
      if answers[n - 1].Some? {
        GraftGrows(Grafted(start, SitesOf(targets), answers, n - 1), targets[n - 1].site, answers[n - 1].value);
      }
    }
  }

  datatype DetachedProof = DetachedProof(header: Bytes, digest: Bytes, root: Node)

  /** `parse_proof`, with the tree as node objects. */
  method ParseProofNodes(data: Bytes) returns (r: Parsed<DetachedProof>, ghost g: Option<Shape>)
    ensures match ParseProof(data)
            case Fail(e) => r == Fail(e)
            case Ok(p, end) =>
              && g.Some? && r == Ok(DetachedProof(p.header, p.digest, g.value.site), end)
              && Holds(g.value) && Erase(g.value) == p.root
    ensures g.Some? ==> fresh(Objects(g.value))
  {
    var header := ReadHeader(data);
    if header.Fail? {
      return Fail(header.error), None;
    }
    var node;
    node, g := ParseTimestamp(data, header.next, 0);
    if node.Fail? {
      return Fail(node.error), None;
    }
    if node.next != |data| {
      return Fail(ParseError), None;
    }
    r := Ok(DetachedProof(data[..header.next], header.value, node.value), node.next);
  }

  /** `parse_calendar_response`. */
  method ParseResponseNodes(body: Bytes) returns (r: Parsed<Node>, ghost g: Option<Shape>)
    ensures BuiltNode(r, g, ParseResponse(body))
    ensures g.Some? ==> fresh(Objects(g.value))
  {
    if body == [] || |body| > MAX_RESPONSE_BYTES {
      return Fail(ParseError), None;
    }
    r, g := ParseTimestamp(body, 0, 0);
    if r.Ok? && r.next != |body| {
      r, g := Fail(ParseError), None;
    }
  }

  /** Merging an answer into a node held by reference grafts it into the tree that node is part of. */
  method MergeAnswer(node: Node, answer: Node, ghost cur: Shape, ghost s: Shape) returns (added: nat)
    requires Holds(cur) && node in Objects(cur) && Holds(s) && s.site == answer && Objects(cur) !! Objects(s)
    modifies Objects(cur) + Objects(s)
    ensures Holds(MergeAt(cur, node, s)) && Objects(MergeAt(cur, node, s)) <= Objects(cur) + Objects(s)
    ensures added == 0 <==> MergeAt(cur, node, s) == cur
  {
    hide Holds;
    SubInside(cur, node);
    HeldIsDistinct(cur);
    assert old(allocated(Objects(cur)));
    added := MergeNode(node, answer, Sub(cur, node), s);
    GraftHolds(cur, node, s);
    CountMeansChanged(Sub(cur, node), s);
    GraftChanges(cur, node, s);
  }

  /** A graft changes the whole exactly when it changes the node. */
  lemma {:induction false} GraftChanges(g: Shape, n: Node, s: Shape)
    requires n in Objects(g) && DistinctObjects(g)
    ensures MergeAt(g, n, s) == g <==> MergeTrees(Sub(g, n), s) == Sub(g, n)
    decreases g
  {
    if g.site != n {
      var k := BranchOf(g, n);
      GraftChanges(g.items[k].child, n, s);
      OneBranchChanges(g, n, s);
      assert MergeAt(g, n, s).items[k] == Branch(g.items[k].operation, MergeAt(g.items[k].child, n, s));
    }
  }

  ghost predicate DistinctObjects(g: Shape) {
    && Apart(g.items) && (forall i :: 0 <= i < |g.items| ==> g.site !in ItemObjects(g.items[i]))
    && forall i :: 0 <= i < |g.items| && g.items[i].Branch? ==> DistinctObjects(g.items[i].child)
  }

  lemma {:induction false} HeldIsDistinct(g: Shape)
    requires Holds(g)
    ensures DistinctObjects(g)
    decreases g
  {
    forall i | 0 <= i < |g.items| && g.items[i].Branch? ensures DistinctObjects(g.items[i].child) {
      assert HoldsItem(g.items[i]);
      HeldIsDistinct(g.items[i].child);
    }
  }

  lemma {:induction false} HeldOnce(g: Shape, n: Node)
    requires DistinctObjects(g)
    ensures Places(g, n) <= 1
    decreases g, 1
  {
    HeldOnceOf(g, |g.items|, n);
    assert g.items[..|g.items|] == g.items;
  }

  lemma {:induction false} HeldOnceOf(g: Shape, k: nat, n: Node)
    requires DistinctObjects(g) && k <= |g.items|
    ensures PlacesOf(g.items[..k], n) <= 1
    ensures PlacesOf(g.items[..k], n) == 1 ==> exists i :: 0 <= i < k && n in ItemObjects(g.items[i])
    decreases g, 0, k
  {
    if k > 0 {
      HeldOnceOf(g, k - 1, n);
      var last := g.items[k - 1];
      assert g.items[..k][..k - 1] == g.items[..k - 1];
      if last.Branch? {
        HeldOnce(last.child, n);
        ObjectsAreSites(last.child);
        if n !in Objects(last.child) {
          NoPlaces(last.child, n);
        }
      }
    }
  }

  /** The heap holds this tree, and every node the pass will ask about is in it. */
  ghost predicate Held(cur: Shape, targets: seq<Target<Node>>)
    reads Objects(cur)
  {
    Holds(cur) && Inside(targets, Objects(cur))
  }

  ghost predicate Inside(targets: seq<Target<Node>>, nodes: set<Node>) {
    forall i :: 0 <= i < |targets| ==> targets[i].site in nodes
  }

  /** Parse one body and merge it into the node it was asked for. */
  method MergeBody(body: Bytes, node: Node, ghost cur: Shape, ghost targets: seq<Target<Node>>)
    returns (r: Parsed<nat>, ghost answer: Option<Shape>)
    requires Held(cur, targets) && node in Objects(cur)
    modifies Objects(cur)
    ensures r.Fail? ==> ParseResponse(body) == Fail(r.error) && answer == None && Held(cur, targets)
    ensures r.Ok? ==> answer.Some? && Answers(Some(body), answer)
    ensures r.Ok? ==> Held(MergeAt(cur, node, answer.value), targets)
    ensures r.Ok? ==> Objects(answer.value) !! Objects(cur)
    ensures r.Ok? ==> fresh(Objects(MergeAt(cur, node, answer.value)) - Objects(cur))
    ensures r.Ok? ==> (r.value == 0 <==> MergeAt(cur, node, answer.value) == cur)
  {
    assert old(allocated(Objects(cur)));
    var response;
    response, answer := ParseResponseNodes(body);
    assert Holds(cur);
    if response.Fail? {
      return Fail(response.error), None;
    }
    hide Holds, Objects, Erase;
    var added := MergeAnswer(node, response.value, cur, answer.value);
    ObjectsAreSites(cur);
    ObjectsAreSites(MergeAt(cur, node, answer.value));
    GraftKeepsSites(cur, node, answer.value);
    r := Ok(added, 0);
  }

  /** Some body received ends in a fork marker with nothing after it. */
  ghost predicate SomeForkEnds<A>(fetch: Fetcher, targets: seq<Target<A>>) {
    exists i :: 0 <= i < |targets| && ForkEnds(fetch(i, targets[i].url, targets[i].commitment))
  }

  predicate ForkEnds(body: Option<Bytes>) {
    body.Some? && ParseResponse(body.value) == Fail(ForkAtEnd)
  }

  /** These answers are what came back for these targets. */
  ghost predicate AllAnswer<A>(fetch: Fetcher, targets: seq<Target<A>>, answers: seq<Option<Tree<A>>>)
    requires |answers| <= |targets|
  {
    forall i :: 0 <= i < |answers| ==> Answers(fetch(i, targets[i].url, targets[i].commitment), answers[i])
  }

  /** How far a pass over these targets has come, and the tree it has made of the first answers. */
  ghost predicate Progress(fetch: Fetcher, targets: seq<Target<Node>>, g: Shape, answers: seq<Option<Shape>>, cur: Shape) {
    && |answers| <= |targets| && AllAnswer(fetch, targets, answers)
    && Foreign(SitesOf(targets), answers) && Inside(targets, Objects(cur))
    && cur == Grafted(g, SitesOf(targets), answers, |answers|)
  }

  /** The tree after one more answer. */
  ghost function After(cur: Shape, target: Target<Node>, answer: Option<Shape>): Shape {
    if answer.None? then cur else MergeAt(cur, target.site, answer.value)
  }

  lemma OneMoreAnswer(fetch: Fetcher, targets: seq<Target<Node>>, g: Shape, answers: seq<Option<Shape>>, cur: Shape,
                      answer: Option<Shape>)
    requires Progress(fetch, targets, g, answers, cur) && |answers| < |targets|
    requires var t := targets[|answers|]; Answers(fetch(|answers|, t.url, t.commitment), answer)
    requires answer.Some? ==> Objects(answer.value) !! Objects(cur)
    ensures Progress(fetch, targets, g, answers + [answer], After(cur, targets[|answers|], answer))
  {
    hide Answers;
    var next, sites := After(cur, targets[|answers|], answer), SitesOf(targets);
    GraftedPrefix(g, sites, answers, answers + [answer], |answers|);
    if answer.Some? {
      ObjectsAreSites(answer.value);
      ObjectsAreSites(cur);
      ObjectsAreSites(next);
      GraftKeepsSites(cur, targets[|answers|].site, answer.value);
    }
  }

  lemma OneMoreContributor(fetch: Fetcher, targets: seq<Target<Node>>, g: Shape, answers: seq<Option<Shape>>, cur: Shape,
                           answer: Option<Shape>)
    requires Progress(fetch, targets, g, answers, cur) && |answers| < |targets|
    ensures var n := |answers|;
            Contributors(g, targets, answers + [answer], n + 1)
            == Contributors(g, targets, answers, n) + if After(cur, targets[n], answer) != cur then [targets[n].url] else []
  {
    hide AllAnswer, Foreign, MergeAt, Grafted;
    var n, more, sites := |answers|, answers + [answer], SitesOf(targets);
    ContributorsPrefix(g, targets, answers, more, n);
    GraftedPrefix(g, sites, answers, more, n);
    GraftedNext(g, sites, more, n);
  }

  lemma GraftedNext<A>(t: Tree<A>, sites: seq<A>, answers: seq<Option<Tree<A>>>, n: nat)
    requires n < |sites| && n < |answers|
    ensures var before := Grafted(t, sites, answers, n);
            Grafted(t, sites, answers, n + 1)
            == if answers[n].None? then before else MergeAt(before, sites[n], answers[n].value)
  {
  }

  lemma {:induction false} ContributorsPrefix<A>(t: Tree<A>, targets: seq<Target<A>>, a: seq<Option<Tree<A>>>,
                                                 b: seq<Option<Tree<A>>>, n: nat)
    requires n <= |targets| && n <= |a| && n <= |b| && forall i :: 0 <= i < n ==> a[i] == b[i]
    ensures Contributors(t, targets, a, n) == Contributors(t, targets, b, n)
    decreases n
  {
    if n > 0 {
      ContributorsPrefix(t, targets, a, b, n - 1);
      GraftedPrefix(t, SitesOf(targets), a, b, n);
      GraftedPrefix(t, SitesOf(targets), a, b, n - 1);
      hide Grafted;
    }
  }

  /** One target: what came back, merged if it is usable. */
  method UseBody(body: Option<Bytes>, target: Target<Node>, ghost cur: Shape, ghost targets: seq<Target<Node>>)
    returns (stuck: bool, added: nat, notes: seq<Diagnostic>, ghost answer: Option<Shape>, ghost born: set<Node>)
    requires Held(cur, targets) && target.site in Objects(cur)
    modifies Objects(cur)
    ensures stuck <==> ForkEnds(body)
    ensures !stuck ==> Answers(body, answer) && Held(After(cur, target, answer), targets)
    ensures !stuck && answer.Some? ==> Objects(answer.value) !! Objects(cur)
    ensures fresh(born) && Objects(After(cur, target, answer)) <= Objects(cur) + born
    ensures !stuck ==> (added == 0 <==> After(cur, target, answer) == cur) && notes == DiagnosticFor(body, target.url)
  {
    stuck, added, notes, answer, born := false, 0, [], None, {};
    hide Holds, Objects, MergeAt;
    if body.None? {
      notes := [NoBody(target.url)];
      return;
    }
    var merged;
    merged, answer := MergeBody(body.value, target.site, cur, targets);
    if merged == Fail(ForkAtEnd) {
      stuck := true;
    } else if merged.Fail? {
      notes := [Unusable(target.url)];
    } else {
      added := merged.value;
      born := Objects(After(cur, target, answer)) - Objects(cur);
    }
  }

  /** What a pass has to show after the first answers: the tree, the contributors, the diagnostics and the total. */
  ghost predicate Asked(fetch: Fetcher, targets: seq<Target<Node>>, g: Shape, answers: seq<Option<Shape>>, cur: Shape,
                        collected: seq<string>, notes: seq<Diagnostic>, total: nat) {
    && Progress(fetch, targets, g, answers, cur)
    && collected == Contributors(g, targets, answers, |answers|) && (total == 0 <==> collected == [])
    && notes == Diagnostics(fetch, targets, |answers|)
  }

  lemma AskedNext(fetch: Fetcher, targets: seq<Target<Node>>, g: Shape, answers: seq<Option<Shape>>, cur: Shape,
                  collected: seq<string>, notes: seq<Diagnostic>, total: nat,
                  answer: Option<Shape>, more: seq<Diagnostic>, added: nat)
    requires Asked(fetch, targets, g, answers, cur, collected, notes, total) && |answers| < |targets|
    requires var t := targets[|answers|]; var body := fetch(|answers|, t.url, t.commitment);
             Answers(body, answer) && more == DiagnosticFor(body, t.url)
    requires answer.Some? ==> Objects(answer.value) !! Objects(cur)
    requires added == 0 <==> After(cur, targets[|answers|], answer) == cur
    ensures Asked(fetch, targets, g, answers + [answer], After(cur, targets[|answers|], answer),
                  if added > 0 then collected + [targets[|answers|].url] else collected, notes + more, total + added)
  {
    hide Answers, After, DiagnosticFor, Progress, Objects, Contributors, Diagnostics;
    OneMoreAnswer(fetch, targets, g, answers, cur, answer);
    OneMoreContributor(fetch, targets, g, answers, cur, answer);
    DiagnosticsNext(fetch, targets, |answers|);
  }

  /** No body among the first `n` ends in a fork marker. */
  ghost predicate NoneForkEnds<A>(fetch: Fetcher, targets: seq<Target<A>>, n: nat)
    requires n <= |targets|
  {
    forall k :: 0 <= k < n ==> !ForkEnds(fetch(k, targets[k].url, targets[k].commitment))
  }

  lemma NoneForkEndsNext<A>(fetch: Fetcher, targets: seq<Target<A>>, n: nat)
    requires n < |targets| && NoneForkEnds(fetch, targets, n)
    ensures if ForkEnds(fetch(n, targets[n].url, targets[n].commitment)) then SomeForkEnds(fetch, targets)
            else NoneForkEnds(fetch, targets, n + 1)
    ensures NoneForkEnds(fetch, targets, |targets|) ==> !SomeForkEnds(fetch, targets)
  {
    hide ForkEnds;
  }

  /** The loop of `_collect_from_calendars`: ask, parse, merge. */
  method AskAll(targets: seq<Target<Node>>, fetch: Fetcher, ghost g: Shape)
    returns (stuck: bool, collected: seq<string>, notes: seq<Diagnostic>, total: nat,
             ghost answers: seq<Option<Shape>>, ghost cur: Shape)
    requires Held(g, targets)
    modifies Objects(g)
    ensures stuck <==> SomeForkEnds(fetch, targets)
    ensures !stuck ==> |answers| == |targets| && Holds(cur)
    ensures !stuck ==> Asked(fetch, targets, g, answers, cur, collected, notes, total)
  {
    stuck, collected, notes, total, answers, cur := false, [], [], 0, [], g;
    StartOfPass(fetch, targets, g);
    ghost var made: set<Node> := {};
    hide Holds, Objects, After, Answers, Asked, ForkEnds, DiagnosticFor, NoneForkEnds, SomeForkEnds;
    for i := 0 to |targets|
      invariant |answers| == i && Asked(fetch, targets, g, answers, cur, collected, notes, total)
      invariant Held(cur, targets) && Objects(cur) <= Objects(g) + made && fresh(made)
      invariant NoneForkEnds(fetch, targets, i)
    {
      NoneForkEndsNext(fetch, targets, i);
      var added, more;
      ghost var answer, born;
      stuck, added, more, answer, born :=
        UseBody(fetch(i, targets[i].url, targets[i].commitment), targets[i], cur, targets);
      if stuck {
        return;
      }
      AskedNext(fetch, targets, g, answers, cur, collected, notes, total, answer, more, added);
      made := made + born;
      notes, total := notes + more, total + added;
      if added > 0 {
        collected := collected + [targets[i].url];
      }
      cur, answers := After(cur, targets[i], answer), answers + [answer];
    }
  }

  lemma StartOfPass(fetch: Fetcher, targets: seq<Target<Node>>, g: Shape)
    requires Inside(targets, Objects(g))
    ensures Asked(fetch, targets, g, [], g, [], [], 0) && NoneForkEnds(fetch, targets, 0)
    ensures targets == [] ==> !SomeForkEnds(fetch, targets)
  {
  }

  lemma DiagnosticsNext<A>(fetch: Fetcher, targets: seq<Target<A>>, n: nat)
    requires n < |targets|
    ensures var x := targets[n];
            Diagnostics(fetch, targets, n + 1)
            == Diagnostics(fetch, targets, n) + DiagnosticFor(fetch(n, x.url, x.commitment), x.url)
  {
  }

  lemma {:induction false} GraftedPrefix<A>(t: Tree<A>, sites: seq<A>, a: seq<Option<Tree<A>>>, b: seq<Option<Tree<A>>>, n: nat)
    requires n <= |sites| && n <= |a| && n <= |b| && forall i :: 0 <= i < n ==> a[i] == b[i]
    ensures Grafted(t, sites, a, n) == Grafted(t, sites, b, n)
    decreases n
  {
    if n > 0 {
      GraftedPrefix(t, sites, a, b, n - 1);
    }
  }

  lemma {:induction false} PromisedInside<A>(t: Tree<A>, path: seq<Bytes>, n: Tree<A>)
    requires NodeAt(t, path, n)
    ensures n.site in Sites(t)
    decreases path
  {
    if path != [] {
      var i :| 0 <= i < |t.items| && t.items[i].Branch? && t.items[i].operation == path[0]
               && NodeAt(t.items[i].child, path[1..], n);
      PromisedInside(t.items[i].child, path[1..], n);
      assert n.site in ItemSites(t.items[i]);
    }
  }

  lemma TargetsInside(h: Host, g: Shape, message: Bytes)
    ensures Inside(Collectible(h, g, Some(message)), Objects(g))
  {
    var targets := Collectible(h, g, Some(message));
    ObjectsAreSites(g);
    forall i | 0 <= i < |targets| ensures targets[i].site in Objects(g) {
      var path, n := CollectibleIsSound(h, g, message, targets[i]);
      PromisedInside(g, path, n);
    }
  }

  /** Whatever was attested stays attested, at the same path. */
  lemma RoundKeeps<A>(h: Host, p: Proof<()>, fetch: Fetcher, round: Round<A>, path: seq<Bytes>, c: Claim)
    requires RoundOf(h, p, fetch, round)
    ensures Attests(p.root, path, c) ==> Attests(End(round), path, c)
  {
    GraftedIsUnion(round.start, SitesOf(round.targets), round.answers, |round.targets|, path, c);
    EraseAttests(round.start, path, c);
  }

  lemma {:induction false} EraseAttests<A>(t: Tree<A>, path: seq<Bytes>, c: Claim)
    ensures Attests(Erase(t), path, c) <==> Attests(t, path, c)
    decreases path
  {
    var erased := Erase(t);
    forall i | 0 <= i < |t.items| ensures ItemAttests(erased.items[i], path, c) <==> ItemAttests(t.items[i], path, c) {
      assert erased.items[i] == EraseItem(t.items[i]);
      if t.items[i].Branch? && path != [] {
        EraseAttests(t.items[i].child, path[1..], c);
      }
    }
  }

  lemma RoundWellFormed<A>(h: Host, p: Proof<()>, fetch: Fetcher, round: Round<A>)
    requires RoundOf(h, p, fetch, round) && WellFormed(p.root)
    ensures WellFormed(End(round)) && Populated(End(round).items)
  {
    ErasedItems(round.start);
    forall i | 0 <= i < |round.answers| && round.answers[i].Some? ensures WellFormed(round.answers[i].value) {
      var x := round.targets[i];
      assert Answers(fetch(i, x.url, x.commitment), round.answers[i]);
      PrintUndoesParse(fetch(i, x.url, x.commitment).value, 0, 0);
      ErasedItems(round.answers[i].value);
    }
    GraftedWellFormed(round.start, SitesOf(round.targets), round.answers, |round.targets|);
    ErasedItems(End(round));
  }

  /** The proof after the round. */
  function RoundProof<A(==)>(p: Proof<()>, round: Round<A>): Proof<A>
    requires |round.answers| == |round.targets|
  {
    Proof(p.header, p.digest, End(round))
  }

  lemma ParsedStart(data: Bytes, offset: nat, depth: nat)
    requires ParseItems(data, offset, depth).Ok?
    ensures data[offset] in TIMESTAMP_STARTS
  {
  }

  lemma PrintedStart<A>(items: seq<Item<A>>)
    requires WellFormedItems(items)
    ensures PrintItems(items) != [] && PrintItems(items)[0] in TIMESTAMP_STARTS
  {
    assert WellFormedItem(items[0]);
    FirstPrintedByte(items[0]);
  }

  /** Two proofs with the same header bytes bind to the same payloads. */
  lemma SameHeaderValidates<A>(h: Host, data: Bytes, root: Tree<A>, payload: Bytes)
    requires ParseProof(data).Ok? && WellFormed(root)
    ensures Validates(h, data[..ReadHeader(data).next] + Print(root), payload) <==> Validates(h, data, payload)
  {
    var start := ReadHeader(data).next;
    var made := data[..start] + Print(root);
    ParsedStart(data, start, 0);
    PrintedStart(root.items);
    assert |MAGIC| < start && made[|MAGIC|] == data[|MAGIC|];
    assert made[..|MAGIC|] == data[..|MAGIC|];
    assert MAGIC <= made;
    if data[|MAGIC|] == 1 {
      assert made[|MAGIC| + 1] == data[|MAGIC| + 1];
      assert made[|MAGIC| + 2..start] == data[|MAGIC| + 2..start];
      assert made[start] == Print(root)[0];
    }
  }

  /** What the pass finds out about the bytes it has made: they bind to the payload exactly if the old
      bytes did, and they parse back exactly when the tree is not too deep. */
  lemma RoundPrints<A>(h: Host, data: Bytes, payload: Bytes, fetch: Fetcher, round: Round<A>)
    requires ParseProof(data).Ok? && RoundOf(h, ParseProof(data).value, fetch, round)
    ensures var q := RoundProof(ParseProof(data).value, round);
            && (Validates(h, PrintProof(q), payload) <==> Validates(h, data, payload))
            && (if Height(q.root) <= MAX_DEPTH
                then ParseProof(PrintProof(q)) == Ok(EraseProof(q), |PrintProof(q)|)
                else ParseProof(PrintProof(q)) == Fail(ParseError))
  {
    var p := ParseProof(data).value;
    var q := RoundProof(p, round);
    ParsedProofIsWellFormed(data);
    RoundWellFormed(h, p, fetch, round);
    SameHeaderValidates(h, data, q.root, payload);
    ParseUndoesPrintProof(q);
  }

  /** `missing` is always empty: every attestation listed before is listed after. */
  lemma NothingMissing<A>(h: Host, p: Proof<()>, fetch: Fetcher, round: Round<A>, c: Claim)
    requires RoundOf(h, p, fetch, round) && c in AllAttestations(p.root.items)
    ensures c in AllAttestations(Erase(End(round)).items)
  {
    Listed(p.root, c);
    var path :| Attests(p.root, path, c);
    RoundKeeps(h, p, fetch, round, path, c);
    EraseAttests(End(round), path, c);
    Listed(Erase(End(round)), c);
  }

  lemma {:induction false} EraseListed<A>(items: seq<Item<A>>)
    ensures AllAttestations(EraseItems(items)) == AllAttestations(items)
    decreases items, 0
  {
    hide *;
    if items == [] {
      NothingListed<A>();
    } else {
      var init, last := items[..|items| - 1], items[|items| - 1];
      EraseListed(init);
      EraseListedItem(last);
      EraseListedSnoc(init, last);
      assert init + [last] == items;
    }
  }

  lemma NothingListed<A>()
    ensures AllAttestations(EraseItems<A>([])) == AllAttestations<A>([]) == []
  {
  }

  lemma EraseListedSnoc<A>(init: seq<Item<A>>, last: Item<A>)
    requires AllAttestations(EraseItems(init)) == AllAttestations(init)
    requires AttestationsOf(EraseItem(last)) == AttestationsOf(last)
    ensures AllAttestations(EraseItems(init + [last])) == AllAttestations(init + [last])
  {
    hide *;
    EraseConcat(init, [last]);
    EraseOne(last);
    AllOfSnoc(EraseItems(init), EraseItem(last));
    AllOfSnoc(init, last);
  }

  lemma EraseOne<A>(item: Item<A>)
    ensures EraseItems([item]) == [EraseItem(item)]
  {
    hide *;
  }

  lemma {:induction false} EraseListedItem<A>(item: Item<A>)
    ensures AttestationsOf(EraseItem(item)) == AttestationsOf(item)
    decreases item, 1
  {
    if item.Branch? {
      EraseListed(item.child.items);
    }
  }

  /** No attestation is lost, and none is added but those the answers carry, each as often as they carry it. */
  lemma RoundConserves<A>(h: Host, p: Proof<()>, fetch: Fetcher, round: Round<A>)
    requires RoundOf(h, p, fetch, round)
    ensures Listing(p.root) <= Listing(Erase(End(round)))
            <= Listing(p.root) + AllAnswered(round.answers, |round.answers|)
  {
    EraseListed(round.start.items);
    EraseListed(End(round).items);
    GraftedKeepsAll(round.start, SitesOf(round.targets), round.answers, |round.targets|);
    GraftedAddsAnswers(round.start, SitesOf(round.targets), round.answers, |round.targets|);
    hide AllAttestations, Grafted, AllAnswered, EraseItems;
  }

  /** The merged tree is within the depth limit exactly when every node asked for is high enough for its answer. */
  lemma RoundDepth<A>(h: Host, p: Proof<()>, fetch: Fetcher, round: Round<A>)
    requires RoundOf(h, p, fetch, round) && Height(p.root) <= MAX_DEPTH
    ensures Height(End(round)) <= MAX_DEPTH <==> Fits(round)
  {
    ErasedItems(round.start);
    GraftedHeight(round.start, SitesOf(round.targets), round.answers, |round.targets|, MAX_DEPTH);
    hide Grafted, Height, Room;
  }

  /** How a pass ends, in terms of its round: nothing was added; or the merged proof is written, and those calendars are
      named whose answers made a difference; or the
      proof did not bind to its payload to begin with; or a node asked for lay too deep for its answer.
      The "dropped attestations" error is not among them. */
  ghost predicate Settled<A>(h: Host, data: Bytes, payload: Bytes, round: Round<A>, r: Outcome)
    requires ParseProof(data).Ok? && |round.answers| == |round.targets|
  {
    match r
    case Nothing(_) => End(round) == round.start
    case Rewritten(proof, collected, _) =>
      && End(round) != round.start
      && collected == Contributors(round.start, round.targets, round.answers, |round.targets|)
      && Validates(h, data, payload) && Fits(round)
      && proof == PrintProof(RoundProof(ParseProof(data).value, round))
    case Raised(why) =>
      || (why == Unbound && !Validates(h, data, payload))
      || (why == TooDeep && Validates(h, data, payload) && !Fits(round))
  }

  /** A pass that gets through its round refuses the merged proof for its depth if and only if the proof binds and
      some node asked for lay too deep for its answer. */
  lemma RefusedExactly<A>(h: Host, data: Bytes, payload: Bytes, fetch: Fetcher, round: Round<A>, r: Outcome)
    requires ParseProof(data).Ok? && RoundOf(h, ParseProof(data).value, fetch, round) && Settled(h, data, payload, round, r)
    ensures r == Raised(TooDeep) <==> Validates(h, data, payload) && !Fits(round)
    ensures r.Raised? ==> r.why == TooDeep || r.why == Unbound
  {
    ParsedProofIsWellFormed(data);
    RoundDepth(h, ParseProof(data).value, fetch, round);
    ErasedItems(round.start);
    hide Validates, Fits, RoundOf, End, Height;
  }

  /** The checks a merged proof must pass before it may replace the stored one. */
  method Recheck(h: Host, merged: Bytes, payload: Bytes, before: seq<Claim>) returns (why: Option<Trouble>)
    ensures why == if !Validates(h, merged, payload) then Some(Unbound)
                   else if ParseProof(merged).Fail? then Some(TooDeep)
                   else if exists c :: c in before && c !in AllAttestations(ParseProof(merged).value.root.items)
                   then Some(Dropped) else None
  {
    if !Validates(h, merged, payload) {
      return Some(Unbound);
    }
    var again, g := ParseProofNodes(merged);
    if again.Fail? {
      return Some(TooDeep);
    }
    var after := ListAttestations(again.value.root, g.value);
    EraseListed(g.value.items);
    return if forall c | c in before :: c in after then None else Some(Dropped);
  }

  /** What the checks say about a round. */
  lemma RoundRechecks<A>(h: Host, data: Bytes, payload: Bytes, fetch: Fetcher, round: Round<A>, before: seq<Claim>)
    requires ParseProof(data).Ok? && RoundOf(h, ParseProof(data).value, fetch, round)
    requires before == AllAttestations(ParseProof(data).value.root.items)
    ensures var merged := PrintProof(RoundProof(ParseProof(data).value, round));
            && (!Validates(h, merged, payload) ==> Settled(h, data, payload, round, Raised(Unbound)))
            && (Validates(h, merged, payload) && ParseProof(merged).Fail? ==> Settled(h, data, payload, round, Raised(TooDeep)))
            && (ParseProof(merged).Ok? ==>
                  forall c :: c in before ==> c in AllAttestations(ParseProof(merged).value.root.items))
            && (Validates(h, merged, payload) && ParseProof(merged).Ok? ==> Fits(round) && Validates(h, data, payload))
  {
    hide End, Erase, AllAttestations, Fits;
    ParsedProofIsWellFormed(data);
    RoundDepth(h, ParseProof(data).value, fetch, round);
    RoundPrints(h, data, payload, fetch, round);
    forall c | c in before ensures c in AllAttestations(Erase(End(round)).items) {
      NothingMissing(h, ParseProof(data).value, fetch, round, c);
    }
  }

  /** Unless it raises, a pass hands on its diagnostics. */
  predicate Noted(notes: seq<Diagnostic>, r: Outcome) {
    match r
    case Nothing(given) => given == notes
    case Rewritten(_, _, given) => given == notes
    case Raised(_) => true
  }

  /** The tail of the pass: serialize, then check before anything is written. */
  method Conclude(h: Host, ghost data: Bytes, payload: Bytes, ghost fetch: Fetcher, ghost round: Round<Node>,
                  proof: DetachedProof, before: seq<Claim>, collected: seq<string>, notes: seq<Diagnostic>)
    returns (r: Outcome)
    requires |round.answers| == |round.targets| && End(round) != round.start
    requires collected == Contributors(round.start, round.targets, round.answers, |round.targets|)
    requires ParseProof(data).Ok? && RoundOf(h, ParseProof(data).value, fetch, round)
    requires Holds(End(round)) && End(round).site == proof.root
    requires proof.header == ParseProof(data).value.header
    requires before == AllAttestations(ParseProof(data).value.root.items)
    ensures Settled(h, data, payload, round, r) && Noted(notes, r)
  {
    ParsedProofIsWellFormed(data);
    RoundWellFormed(h, ParseProof(data).value, fetch, round);
    RoundRechecks(h, data, payload, fetch, round, before);
    hide Holds, Erase, ParseProof, RoundOf, End, Validates, AllAttestations, Populated, Contributors, Fits;
    var body := Serialize(proof.root, End(round));
    var merged := proof.header + body.value;
    var trouble := Recheck(h, merged, payload, before);
    // `Dropped` is raised here, and cannot be.
    return if trouble.Some? then Raised(trouble.value) else Rewritten(merged, collected, notes);
  }

  /** `_collect_from_calendars`. The only other way out is a response that ends in a bare fork marker,
      whose IndexError nothing catches. */
  method CollectFromCalendars(h: Host, data: Bytes, payload: Bytes, fetch: Fetcher)
    returns (r: Outcome, ghost round: Option<Round<Node>>)
    ensures ParseProof(data).Fail? ==> r == Raised(UnreadableProof(ParseProof(data).error))
    ensures ParseProof(data).Ok? ==>
              round.Some? && Asks(h, ParseProof(data).value, round.value)
              && (r == Raised(ForkEndsResponse) <==> SomeForkEnds(fetch, round.value.targets))
    ensures ParseProof(data).Ok? && r != Raised(ForkEndsResponse) ==>
              && RoundOf(h, ParseProof(data).value, fetch, round.value) && Settled(h, data, payload, round.value, r)
              && Noted(Diagnostics(fetch, round.value.targets, |round.value.targets|), r)
  {
    var proof, g := ParseProofNodes(data);
    if proof.Fail? {
      return Raised(UnreadableProof(proof.error)), None;
    }
    r, round := CollectInto(h, data, proof.value, payload, fetch, g.value);
  }

  method CollectInto(h: Host, ghost data: Bytes, proof: DetachedProof, payload: Bytes, fetch: Fetcher, ghost g: Shape)
    returns (r: Outcome, ghost round: Option<Round<Node>>)
    requires ParseProof(data).Ok? && Holds(g) && g.site == proof.root && Erase(g) == ParseProof(data).value.root
    requires proof.header == ParseProof(data).value.header && proof.digest == ParseProof(data).value.digest
    modifies Objects(g)
    ensures round.Some? && Asks(h, ParseProof(data).value, round.value)
    ensures r == Raised(ForkEndsResponse) <==> SomeForkEnds(fetch, round.value.targets)
    ensures r != Raised(ForkEndsResponse) ==>
              && RoundOf(h, ParseProof(data).value, fetch, round.value) && Settled(h, data, payload, round.value, r)
              && Noted(Diagnostics(fetch, round.value.targets, |round.value.targets|), r)
  {
    assert old(allocated(Objects(g)));
    hide Holds, Objects, DistinctObjects, ParseProof, Collectible, AllAttestations, Settled, End, Populated, Asked,
      Contributors, Diagnostics, RoundOf, SomeForkEnds;
    ParsedProofIsWellFormed(data);
    ErasedItems(g);
    EraseListed(g.items);
    TargetsInside(h, g, proof.digest);
    HeldIsDistinct(g);
    var found := CollectibleCalendars(h, proof.root, g, Some(proof.digest), 0);
    var targets := found.value;
    if targets == [] {
      EmptyRound(h, data, payload, fetch, g);
      return Nothing([]), Some(Round(g, targets, []));
    }
    assert Holds(g);
    var before := ListAttestations(proof.root, g);
    assert Holds(g);
    var stuck, collected, notes, total, answers, cur := AskAll(targets, fetch, g);
    round := Some(Round(g, targets, answers));
    if stuck {
      return Raised(ForkEndsResponse), round;
    }
    FinishedRound(h, data, payload, fetch, round.value, cur, collected, notes, total);
    if total == 0 {
      return Nothing(notes), round;
    }
    r := Conclude(h, data, payload, fetch, round.value, proof, before, collected, notes);
  }

  lemma EmptyRound(h: Host, data: Bytes, payload: Bytes, fetch: Fetcher, g: Shape)
    requires ParseProof(data).Ok? && Erase(g) == ParseProof(data).value.root
    requires Collectible(h, g, Some(ParseProof(data).value.digest)) == []
    ensures RoundOf(h, ParseProof(data).value, fetch, Round(g, [], []))
    ensures Settled(h, data, payload, Round(g, [], []), Nothing([])) && !SomeForkEnds<Node>(fetch, [])
    ensures Diagnostics<Node>(fetch, [], 0) == []
  {
  }

  /** When every target has been asked: a round is complete, and with nothing added it is over. */
  lemma FinishedRound(h: Host, data: Bytes, payload: Bytes, fetch: Fetcher, round: Round<Node>, cur: Shape,
                      collected: seq<string>, notes: seq<Diagnostic>, total: nat)
    requires ParseProof(data).Ok? && Erase(round.start) == ParseProof(data).value.root
    requires round.targets == Collectible(h, round.start, Some(ParseProof(data).value.digest))
    requires |round.answers| == |round.targets| && DistinctObjects(round.start)
    requires Asked(fetch, round.targets, round.start, round.answers, cur, collected, notes, total)
    ensures RoundOf(h, ParseProof(data).value, fetch, round) && End(round) == cur && cur.site == round.start.site
    ensures if total == 0 then Settled(h, data, payload, round, Nothing(notes)) else End(round) != round.start
    ensures collected == Contributors(round.start, round.targets, round.answers, |round.targets|)
    ensures notes == Diagnostics(fetch, round.targets, |round.targets|)
  {
    hide Contributors, Diagnostics, Grafted, Weight, Collectible, ParseProof;
    GraftedSite(round.start, SitesOf(round.targets), round.answers, |round.targets|);
    ContributedMeansChanged(round.start, round.targets, round.answers, |round.targets|);
    forall i | 0 <= i < |round.targets| ensures Places(round.start, round.targets[i].site) <= 1 {
      HeldOnce(round.start, round.targets[i].site);
    }
  }

  lemma {:induction false} GraftedSite<A>(t: Tree<A>, sites: seq<A>, answers: seq<Option<Tree<A>>>, n: nat)
    requires n <= |sites| && n <= |answers|
    ensures Grafted(t, sites, answers, n).site == t.site
    decreases n
  {
    if n > 0 {
      GraftedSite(t, sites, answers, n - 1);
    }
  }
}
