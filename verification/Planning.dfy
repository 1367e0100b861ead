/** Whatever the repository has been through, what a run plans to do is safe: the reading side of the
    protocol (baseline, pending commits, what is in flight) sees exactly what the invariant promises. */
module Planning {
  import opened Wire
  import opened Policy
  import opened Protocol
  import opened Safety

  // ----- the baseline -----

  lemma {:induction false} NewestCommittedIsFurthest(tree: map<Source, Evidence>, n: nat)
    requires forall a, b :: a in tree && b in tree && a < b ==> tree[a].submittedAt <= tree[b].submittedAt
    ensures var r := NewestCommitted(tree, n);
            forall c :: c in tree && c < n ==> r.Some? && c <= r.value
  {
    if n > 0 {
      NewestCommittedIsFurthest(tree, n - 1);
    }
  }

  lemma {:induction false} NewestCommittedExists(tree: map<Source, Evidence>, n: nat)
    ensures (exists c :: c in tree && c < n) ==> NewestCommitted(tree, n).Some?
  {
    if n > 0 {
      NewestCommittedExists(tree, n - 1);
    }
  }

  lemma {:induction false} NewestTagIsNewest(cfg: Config, tags: seq<Tag>)
    ensures var r := NewestTag(cfg, tags);
            forall t :: t in tags ==> r.Some? && TagBefore(cfg, t, r.value)
  {
    if tags != [] {
      NewestTagIsNewest(cfg, tags[..|tags| - 1]);
      assert tags == tags[..|tags| - 1] + [tags[|tags| - 1]];
    }
  }

  /** Whatever upgrades have done, a baseline is a committed source with its committed manifest, and there is
      one as soon as anything is committed. */
  lemma BaselineIsCommitted(cfg: Config, history: seq<Commit>, st: Store)
    requires Sound(history, st)
    ensures var b := FindBaseline(cfg, history, st);
            && (b.None? <==> st.tree == map[])
            && (b.Some? ==> b.value.source in st.tree && b.value.evidence == st.tree[b.value.source])
  {
    NewestCommittedExists(st.tree, |history|);
    hide Ledger;
    assert forall c :: c in st.tree ==> IsHuman(history, c);
    if st.tree != map[] {
      var c :| c in st.tree;
    }
  }

  /** The baseline, although chosen by time, is the furthest source committed, and no manifest in HEAD's tree
      is newer than its own. */
  lemma BaselineIsFurthest(cfg: Config, history: seq<Commit>, st: Store)
    requires Durable(cfg, history, st)
    ensures var b := FindBaseline(cfg, history, st);
            && (b.None? <==> st.tree == map[])
            && (b.Some? ==> b.value.source in st.tree && b.value.evidence == st.tree[b.value.source])
            && (b.Some? ==> forall c :: c in st.tree ==>
                  c <= b.value.source && st.tree[c].submittedAt <= b.value.evidence.submittedAt)
  {
    BaselineIsCommitted(cfg, history, st);
    NewestCommittedIsFurthest(st.tree, |history|);
    NewestTagIsNewest(cfg, st.tags);
    hide Ledger, Debt, CommittedFirst;
    assert forall c :: c in st.tree ==> IsHuman(history, c);
  }

  // ----- what is pending -----

  ghost predicate Ascending(s: seq<Source>) {
    forall i, j :: 0 <= i < j < |s| ==> s[i] < s[j]
  }

  /** The pending sources are the meaningful commits from `from` on, in order. */
  lemma {:induction false} PendingIsMeaningful(history: seq<Commit>, from: nat)
    ensures forall c: Source :: c in Pending(history, from) <==> from <= c && IsHuman(history, c)
    ensures Ascending(Pending(history, from))
  {
    if from >= |history| {
      assert Pending(history, from) == [];
    } else {
      var last := |history| - 1;
      PendingIsMeaningful(history[..last], from);
      var before := Pending(history[..last], from);
      assert Pending(history, from) == if history[last].Human? then before + [last] else before;
      forall c: Source ensures c in Pending(history, from) <==> from <= c && IsHuman(history, c) {
        assert IsHuman(history, c) <==> IsHuman(history[..last], c) || (c == last && history[last].Human?);
      }
    }
  }

  /** The pairs that a run finishes are taken oldest first. */
  lemma {:induction false} InFlightAscends(st: Store, exclude: seq<Source>, n: nat)
    ensures Ascending(InFlight(st, exclude, n))
  {
    hide Complete, Tagged, ProofStored;
    if n > 0 {
      InFlightAscends(st, exclude, n - 1);
      var before := InFlight(st, exclude, n - 1);
      forall i: nat | i < |before| ensures before[i] < n - 1 {
        var c := before[i];
        assert c in before;
      }
    }
  }

  /** Only what is committed is claimed by a proof commit. */
  lemma ClaimedIsCommitted(history: seq<Commit>, st: Store, from: nat, c: Source)
    requires Claims(history, st) && Claimed(history, from, c)
    ensures c in st.tree
  {
    var i :| from <= i < |history| && history[i].Generated? && c in history[i].sources;
  }

  // ----- safety of parts of a plan -----

  lemma {:induction false} SafeConcat(cfg: Config, seen: seq<Commit>, st: Store, a: seq<Effect>, b: seq<Effect>)
    requires Safe(cfg, seen, st, a) && Refuse !in a && Safe(cfg, seen, Exec(st, a), b)
    ensures Safe(cfg, seen, st, a + b)
    decreases a
  {
    if a == [] {
      assert a + b == b;
    } else {
      assert (a + b)[1..] == a[1..] + b;
      SafeConcat(cfg, seen, Apply(st, a[0]), a[1..], b);
    }
  }

  /** Sources that a run may stamp, in this order, keeping times and debt in order. */
  ghost predicate Stampable(cfg: Config, seen: seq<Commit>, st: Store, sources: seq<Source>, own: Evidence) {
    && Ascending(sources) && own.submittedAt % 1_000_000 == 0
    && (forall c :: c in sources ==> IsHuman(seen, c) && (Complete(st, c) || (c !in st.proofs && c !in st.manifests)))
    && StampsInOrder(cfg, seen, st, sources, own)
  }

  ghost predicate StampsInOrder(cfg: Config, seen: seq<Commit>, st: Store, sources: seq<Source>, own: Evidence) {
    && (forall c, d :: c in sources && !Complete(st, c) && d in st.manifests
          ==> d < c && st.manifests[d].submittedAt <= own.submittedAt)
    && (if TakesAll(cfg.policy, st.tree != map[])
        then forall a: Source, c: Source :: c in sources && a < c && IsHuman(seen, a) && Beyond(st, a) ==> a in sources
        else
          && |sources| <= 1
          && forall c: Source :: c in sources && !Complete(st, c)
               ==> NoEarlierIsNewer(seen, st, c) && forall d :: !Unrecorded(st, d))
  }

  /** What stamping leaves: a pair for each source, the recovered ones untouched. */
  ghost predicate Stamped(st: Store, sources: seq<Source>, own: Evidence, next: Store) {
    && next.tree == st.tree && next.lone == st.lone && next.tags == st.tags && next.paid.None?
    && (forall c: Source :: c in next.proofs <==> c in st.proofs || c in sources)
    && (forall c: Source :: c in next.manifests <==> c in st.manifests || c in sources)
    && (forall c: Source :: c in next.manifests ==>
          next.manifests[c] == if c in st.manifests then st.manifests[c] else own.(proof := c))
  }

  lemma AscendingLast(before: seq<Source>, c: Source)
    requires Ascending(before + [c])
    ensures Ascending(before) && forall d :: d in before ==> d < c
  {
    forall i | 0 <= i < |before| ensures before[i] < c {
      assert (before + [c])[i] == before[i] && (before + [c])[|before|] == c;
    }
    forall i, j | 0 <= i < j < |before| ensures before[i] < before[j] {
      assert (before + [c])[i] == before[i] && (before + [c])[j] == before[j];
    }
  }

  lemma StampablePrefix(cfg: Config, seen: seq<Commit>, st: Store, before: seq<Source>, c: Source, own: Evidence)
    requires Stampable(cfg, seen, st, before + [c], own)
    ensures Stampable(cfg, seen, st, before, own)
  {
    AscendingLast(before, c);
    assert forall d :: d in before ==> d in before + [c];
  }

  lemma {:induction false} InTurn(cfg: Config, seen: seq<Commit>, st: Store, a: Effect, b: Effect, c: Effect)
    requires !a.Refuse? && !b.Refuse? && !c.Refuse?
    requires Enabled(cfg, seen, st, a) && Enabled(cfg, seen, Apply(st, a), b)
    requires Enabled(cfg, seen, Apply(Apply(st, a), b), c) && Apply(Apply(Apply(st, a), b), c).paid.None?
    ensures Safe(cfg, seen, st, [a, b, c]) && Exec(st, [a, b, c]) == Apply(Apply(Apply(st, a), b), c)
  {
    hide Enabled, Apply;
    var s1 := Apply(st, a);
    var s2 := Apply(s1, b);
    assert [a, b, c][1..] == [b, c] && [b, c][1..] == [c] && [c][1..] == [];
    assert Safe(cfg, seen, Apply(s2, c), []) && Safe(cfg, seen, s2, [c]);
    assert Safe(cfg, seen, s1, [b, c]);
    assert Exec(s2, [c]) == Apply(s2, c) && Exec(s1, [b, c]) == Exec(s2, [c]);
  }

  lemma StampOneIsInOrder(cfg: Config, seen: seq<Commit>, st: Store, next: Store, before: seq<Source>, c: Source,
                          own: Evidence)
    requires Ascending(before + [c]) && forall d :: d in before + [c] ==> IsHuman(seen, d)
    requires StampsInOrder(cfg, seen, st, before + [c], own) && !Complete(st, c) && Stamped(st, before, own, next)
    requires forall d :: d in next.manifests && d !in st.manifests ==> next.manifests[d].submittedAt == own.submittedAt
    ensures InOrder(cfg, seen, Apply(Apply(next, Submit(c)), WriteProof(c)), c, own.(proof := c))
  {
    assert c in before + [c] && (before + [c])[|before|] == c;
    AscendingLast(before, c);
    var proved := Apply(Apply(next, Submit(c)), WriteProof(c));
    if TakesAll(cfg.policy, st.tree != map[]) {
      forall a: Source | a < c && IsHuman(seen, a) && Beyond(proved, a) ensures a in proved.manifests {
        assert Beyond(st, a);
        assert a in before;
      }
    } else {
      assert before == [] && proved.manifests == st.manifests;
      assert forall a: Source :: Beyond(proved, a) ==> Beyond(st, a);
      assert forall d :: Unrecorded(proved, d) ==> Unrecorded(st, d);
    }
    hide StampsInOrder, NoEarlierIsNewer, Unrecorded;
  }

  lemma StampOneIsEnabled(cfg: Config, seen: seq<Commit>, st: Store, next: Store, before: seq<Source>, c: Source,
                          own: Evidence)
    requires Stampable(cfg, seen, st, before + [c], own) && !Complete(st, c) && Stamped(st, before, own, next)
    ensures Enabled(cfg, seen, next, Submit(c)) && Enabled(cfg, seen, Apply(next, Submit(c)), WriteProof(c))
    ensures Enabled(cfg, seen, Apply(Apply(next, Submit(c)), WriteProof(c)), WriteManifest(c, own.(proof := c)))
  {
    hide StampsInOrder, InOrder;
    assert c in before + [c];
    AscendingLast(before, c);
    StampOneIsInOrder(cfg, seen, st, next, before, c, own);
  }

  lemma StampOneIsSafe(cfg: Config, seen: seq<Commit>, st: Store, next: Store, before: seq<Source>, c: Source, own: Evidence)
    requires Stampable(cfg, seen, st, before + [c], own) && Stamped(st, before, own, next)
    requires Complete(st, c) ==> c in st.manifests
    ensures Safe(cfg, seen, next, Stamp(st, c, own)) && Refuse !in Stamp(st, c, own)
    ensures Stamped(st, before + [c], own, Exec(next, Stamp(st, c, own)))
  {
    hide StampsInOrder, InOrder;
    if !Complete(st, c) {
      StampOneIsEnabled(cfg, seen, st, next, before, c, own);
      assert c in before + [c];
      assert c !in st.proofs && c !in st.manifests;
      hide Stampable, Enabled;
      InTurn(cfg, seen, next, Submit(c), WriteProof(c), WriteManifest(c, own.(proof := c)));
      hide Safe, Exec;
    }
  }

  lemma {:induction false} StampingIsSafe(cfg: Config, seen: seq<Commit>, st: Store, sources: seq<Source>, own: Evidence)
    requires Stampable(cfg, seen, st, sources, own) && st.paid.None?
    requires forall c :: c in st.manifests ==> c in st.proofs
    ensures Safe(cfg, seen, st, Stamping(st, sources, own)) && Refuse !in Stamping(st, sources, own)
    ensures Stamped(st, sources, own, Exec(st, Stamping(st, sources, own)))
  {
    if sources != [] {
      var before, c := sources[..|sources| - 1], sources[|sources| - 1];
      assert sources == before + [c];
      StampablePrefix(cfg, seen, st, before, c, own);
      hide Stampable, Stamped, Safe, Exec, Stamp;
      StampingIsSafe(cfg, seen, st, before, own);
      StampOneIsSafe(cfg, seen, st, Exec(st, Stamping(st, before, own)), before, c, own);
      SafeConcat(cfg, seen, st, Stamping(st, before, own), Stamp(st, c, own));
      ExecConcat(st, Stamping(st, before, own), Stamp(st, c, own));
    }
  }

  lemma {:induction false} TaggingIsSafe(cfg: Config, seen: seq<Commit>, st: Store, effects: seq<Effect>)
    requires st.paid.None?
    requires forall e :: e in effects ==> e.CreateTag? && e.tag.source in st.tree && e.tag.evidence == st.tree[e.tag.source]
    ensures Safe(cfg, seen, st, effects) && Exec(st, effects).tree == st.tree
    ensures forall t :: t in Exec(st, effects).tags <==> t in st.tags || CreateTag(t) in effects
    decreases effects
  {
    if effects != [] {
      var next := Apply(st, effects[0]);
      assert effects[0] in effects && forall e :: e in effects[1..] ==> e in effects;
      TaggingIsSafe(cfg, seen, next, effects[1..]);
      forall t ensures t in Exec(st, effects).tags <==> t in st.tags || CreateTag(t) in effects {
        assert t in next.tags <==> t in st.tags || CreateTag(t) == effects[0];
        assert effects == [effects[0]] + effects[1..];
      }
    }
  }

  // ----- what a run selects -----

  lemma BeyondMeansAfterBaseline(cfg: Config, history: seq<Commit>, st: Store)
    requires Durable(cfg, history, st)
    ensures forall c: Source :: Beyond(st, c) <==> After(FindBaseline(cfg, history, st)) <= c
  {
    BaselineIsFurthest(cfg, history, st);
  }

  lemma {:induction false} PendingTimes(history: seq<Commit>, from: nat)
    ensures forall p: PendingCommit :: p in PendingFrom(history, from) ==>
              p.source < |history| && history[p.source] == Human(p.committerTime)
  {
    if from < |history| {
      PendingTimes(history[..|history| - 1], from);
    }
  }

  /** No meaningful commit beyond the tree is newer, and of equally new ones none is later. */
  ghost predicate NewestBeyond(history: seq<Commit>, st: Store, c: Source) {
    IsHuman(history, c)
    && forall a: Source :: IsHuman(history, a) && Beyond(st, a) && a != c
         ==> if a < c then history[a].committerTime <= history[c].committerTime
             else history[a].committerTime < history[c].committerTime
  }

  /** A decision selects everything pending, or at most the newest of the pending. */
  lemma DecisionSelects(cfg: Config, history: seq<Commit>, st: Store, now: int)
    requires Sound(history, st)
    ensures var d := Decide(cfg, history, st, now);
            var selected := SourcesOf(d.commits);
            var pending := PendingFrom(history, After(FindBaseline(cfg, history, st)));
            && (selected == [] <==> d.triggers == {})
            && (TakesAll(cfg.policy, st.tree != map[]) ==> selected == SourcesOf(pending))
            && (!TakesAll(cfg.policy, st.tree != map[]) && selected != [] ==>
                  pending != [] && selected == [pending[LatestIndex(pending)].source])
  {
    hide Sound, EvaluatePolicy, FindBaseline;
    BaselineIsCommitted(cfg, history, st);
    var baseline := FindBaseline(cfg, history, st);
    var lastFixed :=
      if baseline.Some? && FixedTime in baseline.value.evidence.triggers
      then Some(baseline.value.evidence.submittedAt) else None;
    DecisionShape(PolicyState(now, PendingFrom(history, After(baseline)), lastFixed, baseline.Some?, false), cfg.policy);
  }

  lemma LatestBeats(pending: seq<PendingCommit>, j: nat)
    requires Ascending(SourcesOf(pending)) && j < |pending|
    ensures var i := LatestIndex(pending);
            if pending[j].source <= pending[i].source then pending[j].committerTime <= pending[i].committerTime
            else pending[j].committerTime < pending[i].committerTime
  {
    var s, i := SourcesOf(pending), LatestIndex(pending);
    assert s[i] == pending[i].source && s[j] == pending[j].source;
    hide LatestIndex;
  }

  /** The newest of the pending is the newest beyond the tree. */
  lemma LatestIsNewest(cfg: Config, history: seq<Commit>, st: Store)
    requires Durable(cfg, history, st)
    requires PendingFrom(history, After(FindBaseline(cfg, history, st))) != []
    ensures var pending := PendingFrom(history, After(FindBaseline(cfg, history, st)));
            NewestBeyond(history, st, pending[LatestIndex(pending)].source)
  {
    hide Durable, FindBaseline, PendingFrom, LatestIndex, After, Beyond;
    BeyondMeansAfterBaseline(cfg, history, st);
    var from := After(FindBaseline(cfg, history, st));
    var pending := PendingFrom(history, from);
    PendingIsMeaningful(history, from);
    PendingTimes(history, from);
    var latest := pending[LatestIndex(pending)];
    assert latest in pending;
    forall a: Source | IsHuman(history, a) && Beyond(st, a) && a != latest.source
      ensures if a < latest.source then history[a].committerTime <= history[latest.source].committerTime
              else history[a].committerTime < history[latest.source].committerTime
    {
      var j: nat :| j < |pending| && SourcesOf(pending)[j] == a;
      assert pending[j] in pending;
      LatestBeats(pending, j);
    }
  }

  /** The scan finds exactly the complete pairs that no commit holds and the decision leaves out. */
  lemma ScanFindsUnrecorded(history: seq<Commit>, st: Store, selected: seq<Source>)
    requires Recorded(history, st) && Faithful(st)
    ensures forall c :: c in InFlight(st, selected, |history|) <==> Unrecorded(st, c) && c !in selected
  {
  }

  ghost predicate Selectable(cfg: Config, history: seq<Commit>, st: Store, selected: seq<Source>) {
    && Ascending(selected) && (forall c :: c in selected ==> IsHuman(history, c) && Beyond(st, c))
    && (if TakesAll(cfg.policy, st.tree != map[])
        then forall c: Source :: IsHuman(history, c) && Beyond(st, c) ==> c in selected
        else |selected| <= 1 && forall c: Source :: c in selected ==> NewestBeyond(history, st, c))
  }

  lemma SelectionIsSelectable(cfg: Config, history: seq<Commit>, st: Store, now: int)
    requires Durable(cfg, history, st)
    ensures Selectable(cfg, history, st, SourcesOf(Decide(cfg, history, st, now).commits))
  {
    hide Durable, Decide, FindBaseline, PendingFrom, After, IsHuman, TakesAll, Beyond, NewestBeyond;
    SoundOf(cfg, history, st);
    DecisionSelects(cfg, history, st, now);
    BeyondMeansAfterBaseline(cfg, history, st);
    var from := After(FindBaseline(cfg, history, st));
    PendingIsMeaningful(history, from);
    var pending := PendingFrom(history, from);
    if pending != [] {
      LatestIsNewest(cfg, history, st);
      assert Pending(history, from)[LatestIndex(pending)] == pending[LatestIndex(pending)].source;
    }
  }

  lemma SoundOf(cfg: Config, history: seq<Commit>, st: Store)
    requires Durable(cfg, history, st)
    ensures Sound(history, st)
  {
  }

  /** No uncommitted pair beyond the tree comes after what a decision took as the newest. */
  lemma NewestIsLast(cfg: Config, history: seq<Commit>, st: Store, c: Source, d: Source)
    requires Durable(cfg, history, st) && !TakesAll(cfg.policy, st.tree != map[])
    requires NewestBeyond(history, st, c) && Beyond(st, c) && Uncommitted(st, d)
    ensures d <= c
  {
    assert LastChosen(history, st) && IsHuman(history, d);
    hide Durable, Unrecorded;
    assert c < d ==> Beyond(st, d) && NoEarlierIsNewer(history, st, d);
  }

  /** With nothing in flight, every manifest there is precedes a source that has none. */
  lemma FreshIsLast(cfg: Config, history: seq<Commit>, st: Store, selected: seq<Source>, c: Source, d: Source)
    requires Durable(cfg, history, st) && Selectable(cfg, history, st, selected)
    requires c in selected && !Complete(st, c) && d in st.manifests
    ensures d < c
  {
    assert d in st.tree || Uncommitted(st, d);
    if TakesAll(cfg.policy, st.tree != map[]) {
      assert NoGaps(history, st) && (c < d && Uncommitted(st, d) ==> c in st.manifests);
    } else if d !in st.tree {
      NewestIsLast(cfg, history, st, c, d);
    }
    hide NewestBeyond, NoEarlierIsNewer, Unrecorded, LastChosen;
  }

  lemma SelectionStampsInOrder(cfg: Config, history: seq<Commit>, st: Store, selected: seq<Source>, n: nat, own: Evidence)
    requires Durable(cfg, history, st) && Selectable(cfg, history, st, selected)
    requires forall u :: Unrecorded(st, u) ==> u in selected
    requires Timely(st, [], own.submittedAt) && n <= |selected|
    ensures StampsInOrder(cfg, history, st, selected[..n], own)
  {
    forall c, d | c in selected[..n] && !Complete(st, c) && d in st.manifests ensures d < c {
      FreshIsLast(cfg, history, st, selected, c, d);
    }
    assert forall c :: c in st.manifests ==> Complete(st, c);
    hide Durable;
    if TakesAll(cfg.policy, st.tree != map[]) {
      forall a: Source, c: Source | c in selected[..n] && a < c && IsHuman(history, a) && Beyond(st, a)
        ensures a in selected[..n]
      {
        AscendingIsDownward(selected, n, a, c);
      }
    } else {
      forall c | c in selected[..n] && !Complete(st, c)
        ensures NoEarlierIsNewer(history, st, c) && forall d :: !Unrecorded(st, d)
      {
        assert NewestBeyond(history, st, c);
        assert selected == [c];
      }
    }
  }

  lemma AscendingIsDownward(s: seq<Source>, n: nat, a: Source, c: Source)
    requires Ascending(s) && n <= |s| && c in s[..n] && a in s && a < c
    ensures a in s[..n]
  {
    var j :| 0 <= j < n && s[j] == c;
    assert forall k :: n <= k < |s| ==> s[j] < s[k];
    var i :| 0 <= i < |s| && s[i] == a;
    assert s[..n][i] == a;
  }

  // ----- the whole plan -----

  /** What a main plan has processed before it records it: something new, a pair for each, and all that is left
      to commit. */
  ghost predicate Processing(st: Store, next: Store, processed: seq<Source>, own: Evidence) {
    && processed != [] && processed[0] !in st.tree && next.tree == st.tree && next.paid.None?
    && (forall c :: c in processed ==>
          c in next.manifests && (c in st.tree ==> st.tree[c] == next.manifests[c])
          && next.manifests[c] == if Complete(st, c) then st.manifests[c] else own.(proof := c))
    && Covering(next, processed)
  }

  lemma StampedIsCovering(st: Store, next: Store, inFlight: seq<Source>, chosen: seq<Source>, own: Evidence)
    requires Stamped(st, chosen, own, next) && Covering(st, inFlight + chosen)
    ensures Covering(next, inFlight + chosen)
  {
    forall c | Uncommitted(next, c) && c !in chosen ensures Uncommitted(st, c) && (Beyond(next, c) <==> Beyond(st, c)) {
    }
    forall c: Source | Uncommitted(next, c) && Beyond(next, c) ensures exists d :: d in inFlight + chosen && c <= d {
      if c in chosen {
        assert c in inFlight + chosen;
      }
    }
    hide Beyond;
  }

  lemma StampedIsProcessing(history: seq<Commit>, st: Store, next: Store, inFlight: seq<Source>, chosen: seq<Source>,
                            own: Evidence)
    requires Recorded(history, st) && Stamped(st, chosen, own, next)
    requires forall c :: c in inFlight ==> Uncommitted(st, c)
    requires forall c :: c in chosen ==> Beyond(st, c) && (Complete(st, c) || c !in st.manifests)
    requires (inFlight != [] || chosen != []) && Covering(st, inFlight + chosen)
    ensures Processing(st, next, inFlight + chosen, own)
  {
    StampedIsCovering(st, next, inFlight, chosen, own);
    hide Covering;
    assert (inFlight + chosen)[0] == if inFlight != [] then inFlight[0] else chosen[0];
    assert chosen != [] ==> chosen[0] in chosen;
    assert inFlight != [] ==> inFlight[0] in inFlight;
  }

  /** Tags repeat the manifests of what was processed, wherever HEAD's tree has them. */
  lemma TagsAreFaithful(st: Store, next: Store, processed: seq<Source>, own: Evidence, tree: map<Source, Evidence>)
    requires Processing(st, next, processed, own)
    requires forall c :: c in processed ==> c in tree && tree[c] == next.manifests[c]
    ensures forall e :: e in Tagging(st, processed, own) ==>
              e.CreateTag? && e.tag.source in tree && e.tag.evidence == tree[e.tag.source]
  {
    var tags := Tagging(st, processed, own);
    forall e | e in tags ensures e.CreateTag? && e.tag.source in tree && e.tag.evidence == tree[e.tag.source] {
      var i :| 0 <= i < |tags| && tags[i] == e;
      assert processed[i] in processed;
    }
  }

  /** Once everything processed has its pair in HEAD's tree, or gets it there, its tags are safe. */
  lemma TaggingProcessedIsSafe(cfg: Config, history: seq<Commit>, st: Store, next: Store, committed: Store,
                               processed: seq<Source>, own: Evidence)
    requires Processing(st, next, processed, own) && committed.paid.None?
    requires forall c :: c in processed ==> c in committed.tree && committed.tree[c] == next.manifests[c]
    ensures Safe(cfg, history, committed, Tagging(st, processed, own))
  {
    hide Processing, Tagging, Safe;
    TagsAreFaithful(st, next, processed, own, committed.tree);
    TaggingIsSafe(cfg, history, committed, Tagging(st, processed, own));
  }

  lemma CommitIsEnabled(cfg: Config, history: seq<Commit>, st: Store, next: Store, processed: seq<Source>, own: Evidence)
    requires Processing(st, next, processed, own)
    ensures Enabled(cfg, history, next, CommitProofs(processed))
    ensures var committed := Apply(next, CommitProofs(processed));
            committed.paid.None? && forall c :: c in processed ==> c in committed.tree && committed.tree[c] == next.manifests[c]
  {
    hide Uncommitted, Complete, InOrder, Covering;
    assert forall c :: c in processed ==> c in PairsOf(next, processed);
  }

  /** Committing, as not everything is committed yet, and tagging once everything processed has its pair. */
  lemma RecordingIsSafe(cfg: Config, history: seq<Commit>, st: Store, next: Store, processed: seq<Source>, own: Evidence)
    requires Processing(st, next, processed, own)
    ensures Safe(cfg, history, next, Recording(st, processed, own))
  {
    var commit, tags := CommitProofs(processed), Tagging(st, processed, own);
    assert processed[0] in processed;
    assert Recording(st, processed, own) == [commit] + tags && ([commit] + tags)[1..] == tags;
    hide Processing, Tagging, Enabled, Apply, Recording;
    CommitIsEnabled(cfg, history, st, next, processed, own);
    TaggingProcessedIsSafe(cfg, history, st, next, Apply(next, commit), processed, own);
  }

  lemma ThenRecordingIsSafe(cfg: Config, history: seq<Commit>, st: Store, stamping: seq<Effect>, processed: seq<Source>,
                            own: Evidence)
    requires Safe(cfg, history, st, stamping) && Refuse !in stamping
    requires Processing(st, Exec(st, stamping), processed, own)
    ensures Safe(cfg, history, st, stamping + Recording(st, processed, own))
  {
    hide Safe, Exec, Processing, Recording;
    RecordingIsSafe(cfg, history, st, Exec(st, stamping), processed, own);
    SafeConcat(cfg, history, st, stamping, Recording(st, processed, own));
  }

  /** What a run has to go by: what is in flight, and what was selected. */
  ghost predicate Scanned(st: Store, inFlight: seq<Source>, selected: seq<Source>) {
    && (inFlight != [] || selected != [])
    && forall c :: c in inFlight <==> Unrecorded(st, c) && c !in selected
  }

  /** If anything is in flight, it is all that a scan can find, and the last pair beyond the tree. */
  lemma InFlightIsCovering(cfg: Config, history: seq<Commit>, st: Store, inFlight: seq<Source>, selected: seq<Source>)
    requires Durable(cfg, history, st) && Selectable(cfg, history, st, selected) && Scanned(st, inFlight, selected)
    requires inFlight != []
    ensures Covering(st, inFlight)
  {
    var x := inFlight[0];
    assert x in inFlight && Unrecorded(st, x) && IsHuman(history, x) && Beyond(st, x);
    assert !TakesAll(cfg.policy, st.tree != map[]) && LastChosen(history, st);
    hide Durable, NewestBeyond, NoEarlierIsNewer, Selectable, Beyond;
    forall c | Unrecorded(st, c) ensures c in inFlight {
      assert c == x;
    }
  }

  lemma SelectionIsCovering(cfg: Config, history: seq<Commit>, st: Store, selected: seq<Source>)
    requires Durable(cfg, history, st) && Selectable(cfg, history, st, selected) && selected != []
    requires forall c :: Unrecorded(st, c) ==> c in selected
    ensures Covering(st, selected)
  {
    assert selected[0] in selected;
    forall c: Source | Uncommitted(st, c) && Beyond(st, c) ensures exists d :: d in selected && c <= d {
      if TakesAll(cfg.policy, st.tree != map[]) {
        assert IsHuman(history, c);
      } else {
        NewestIsLast(cfg, history, st, selected[0], c);
      }
    }
    hide Durable, NewestBeyond, Beyond;
  }

  lemma ChosenIsProcessing(cfg: Config, history: seq<Commit>, st: Store, next: Store, inFlight: seq<Source>,
                           selected: seq<Source>, own: Evidence)
    requires Durable(cfg, history, st) && Selectable(cfg, history, st, selected)
    requires Scanned(st, inFlight, selected) && Stamped(st, Chosen(inFlight, selected), own, next)
    requires Stampable(cfg, history, st, Chosen(inFlight, selected), own)
    ensures Processing(st, next, inFlight + Chosen(inFlight, selected), own)
    ensures forall c :: c in inFlight + Chosen(inFlight, selected) ==> Beyond(st, c) && IsHuman(history, c)
  {
    var chosen := Chosen(inFlight, selected);
    assert inFlight + chosen == if inFlight != [] then inFlight else selected;
    if inFlight != [] {
      InFlightIsCovering(cfg, history, st, inFlight, selected);
    } else {
      SelectionIsCovering(cfg, history, st, selected);
    }
    assert forall c :: c in chosen ==> Beyond(st, c) && IsHuman(history, c) && (Complete(st, c) || c !in st.manifests);
    assert forall c :: c in inFlight ==> Uncommitted(st, c) && Beyond(st, c) && IsHuman(history, c);
    assert Recorded(history, st);
    hide Stamped, Processing, Stampable, Selectable, Beyond, Uncommitted, Durable, Covering, Scanned, Recorded;
    StampedIsProcessing(history, st, next, inFlight, chosen, own);
  }

  lemma CompletePlanIsSafe(cfg: Config, history: seq<Commit>, st: Store, inFlight: seq<Source>, selected: seq<Source>,
                           own: Evidence)
    requires Durable(cfg, history, st) && st.paid.None? && Selectable(cfg, history, st, selected)
    requires Scanned(st, inFlight, selected)
    requires Stampable(cfg, history, st, Chosen(inFlight, selected), own)
    ensures var chosen := Chosen(inFlight, selected);
            Safe(cfg, history, st, Stamping(st, chosen, own) + Recording(st, inFlight + chosen, own))
  {
    var chosen := Chosen(inFlight, selected);
    var stamping := Stamping(st, chosen, own);
    assert forall c :: c in st.manifests ==> c in st.proofs;
    hide Durable, Safe, Stamped, Stamping, Exec, Processing, Recording, Stampable, Selectable, Scanned;
    StampingIsSafe(cfg, history, st, chosen, own);
    ChosenIsProcessing(cfg, history, st, Exec(st, stamping), inFlight, selected, own);
    ThenRecordingIsSafe(cfg, history, st, stamping, inFlight + chosen, own);
  }

  lemma RefusedPlanIsSafe(cfg: Config, history: seq<Commit>, st: Store, chosen: seq<Source>, own: Evidence)
    requires Sound(history, st) && st.paid.None? && Stampable(cfg, history, st, chosen, own)
    ensures Safe(cfg, history, st, Stamping(st, chosen, own) + [Refuse])
  {
    StampingIsSafe(cfg, history, st, chosen, own);
    assert Safe(cfg, history, Exec(st, Stamping(st, chosen, own)), [Refuse]);
    hide Safe, Exec, Stamping;
    SafeConcat(cfg, history, st, Stamping(st, chosen, own), [Refuse]);
  }

  lemma MainPlanIsSafe(cfg: Config, history: seq<Commit>, st: Store, inFlight: seq<Source>, selected: seq<Source>,
                       own: Evidence, from: nat)
    requires Durable(cfg, history, st) && st.paid.None? && Selectable(cfg, history, st, selected)
    requires Scanned(st, inFlight, selected)
    requires Timely(st, [], own.submittedAt) && own.submittedAt % 1_000_000 == 0
    ensures Safe(cfg, history, st, MainPlan(history, from, st, inFlight, selected, own))
  {
    hide Sound, Orderly, Selectable, Scanned, Timely, Stampable, Safe, Stamping, Recording;
    var chosen := Chosen(inFlight, selected);
    var n := Usable(history, from, st, chosen);
    PrefixIsStampable(cfg, history, st, inFlight, selected, own, n);
    if n < |chosen| {
      RefusedPlanIsSafe(cfg, history, st, chosen[..n], own);
    } else {
      assert chosen[..n] == chosen;
      CompletePlanIsSafe(cfg, history, st, inFlight, selected, own);
    }
  }

  lemma PrefixIsStampable(cfg: Config, history: seq<Commit>, st: Store, inFlight: seq<Source>, selected: seq<Source>,
                          own: Evidence, n: nat)
    requires Durable(cfg, history, st) && Selectable(cfg, history, st, selected)
    requires Scanned(st, inFlight, selected)
    requires Timely(st, [], own.submittedAt) && own.submittedAt % 1_000_000 == 0
    requires n <= |Chosen(inFlight, selected)|
    requires forall c :: c in Chosen(inFlight, selected)[..n]
               ==> Complete(st, c) || (c !in st.proofs && c !in st.manifests)
    ensures Stampable(cfg, history, st, Chosen(inFlight, selected)[..n], own)
  {
    if inFlight == [] {
      SelectionStampsInOrder(cfg, history, st, selected, n, own);
      hide Durable, StampsInOrder, Scanned, Timely, NewestBeyond, Beyond, TakesAll;
    }
  }

  /** Completing tags only ever repeats what is committed; its refusal is out of reach. */
  lemma {:induction false} CompletionOnlyTags(history: seq<Commit>, from: nat, st: Store, sources: seq<Source>)
    requires Claims(history, st)
    ensures forall e :: e in Completion(history, from, st, sources) <==>
              e.CreateTag? && e.tag.source in sources && !Tagged(st.tags, e.tag.source)
              && e.tag.source in st.tree && e.tag.evidence == st.tree[e.tag.source]
  {
    if sources != [] {
      var c := sources[0];
      CompletionOnlyTags(history, from, st, sources[1..]);
      if Claimed(history, if c + 1 == from then 0 else from, c) {
        ClaimedIsCommitted(history, st, if c + 1 == from then 0 else from, c);
      }
      assert sources == [c] + sources[1..];
    }
  }

  lemma WholeSecondsIsGreatest(m: int, t: int)
    requires m % 1_000_000 == 0 && m <= t
    ensures m <= WholeSeconds(t)
  {
    var a, b := m / 1_000_000, t / 1_000_000;
    assert m == a * 1_000_000 && WholeSeconds(t) == b * 1_000_000;
  }

  /** A run's own submission time, in whole seconds, is no earlier than any recorded one. */
  lemma OwnTimeIsLatest(history: seq<Commit>, st: Store, clock: int, now: int)
    requires Recorded(history, st) && Timely(st, [], clock) && clock <= now
    ensures Timely(st, [], WholeSeconds(now))
  {
    hide WholeSeconds;
    forall c | c in st.manifests ensures st.manifests[c].submittedAt <= WholeSeconds(now) {
      WholeSecondsIsGreatest(st.manifests[c].submittedAt, now);
    }
  }

  lemma {:induction false} StampingStates(st: Store, sources: seq<Source>, own: Evidence)
    ensures forall e :: e in Stamping(st, sources, own) && e.WriteManifest? ==> e.evidence.submittedAt == own.submittedAt
  {
    if sources != [] {
      StampingStates(st, sources[..|sources| - 1], own);
    }
  }

  lemma MainPlanIsTimely(history: seq<Commit>, st: Store, inFlight: seq<Source>, selected: seq<Source>, own: Evidence,
                         from: nat, clock: int)
    requires Timely(st, [], clock) && own.submittedAt <= clock
    ensures Timely(st, MainPlan(history, from, st, inFlight, selected, own), clock)
  {
    var chosen := Chosen(inFlight, selected);
    var n := Usable(history, from, st, chosen);
    StampingStates(st, chosen[..n], own);
    assert n == |chosen| ==> chosen[..n] == chosen;
    var plan := MainPlan(history, from, st, inFlight, selected, own);
    assert forall i :: 0 <= i < |plan| ==>
        plan[i] in Stamping(st, chosen[..n], own) || plan[i].Refuse? || plan[i].CommitProofs? || plan[i].CreateTag?;
  }

  lemma CompletionIsSafe(cfg: Config, history: seq<Commit>, from: nat, st: Store, sources: seq<Source>, clock: int)
    requires Claims(history, st) && Timely(st, [], clock) && st.paid.None?
    ensures Safe(cfg, history, st, Completion(history, from, st, sources))
    ensures Timely(st, Completion(history, from, st, sources), clock)
  {
    CompletionOnlyTags(history, from, st, sources);
    hide Completion, Claims;
    var plan := Completion(history, from, st, sources);
    TaggingIsSafe(cfg, history, st, plan);
    assert forall i :: 0 <= i < |plan| ==> plan[i] in plan;
  }

  /** What the scan finds in a state of the invariant. */
  lemma ScanFinds(cfg: Config, history: seq<Commit>, st: Store, selected: seq<Source>)
    requires Durable(cfg, history, st)
    ensures var inFlight := InFlight(st, selected, |history|);
            inFlight != [] || selected != [] ==> Scanned(st, inFlight, selected)
  {
    ScanFindsUnrecorded(history, st, selected);
  }

  /** In every state the invariant allows, each effect of the plan that a run makes is enabled when its
      turn comes, unless the run refuses first. */
  lemma PlanIsSafe(cfg: Config, history: seq<Commit>, st: Store, clock: int, snapshotAt: int, runAt: int)
    requires Durable(cfg, history, st) && st.paid.None? && Timely(st, [], clock) && clock <= runAt
    ensures Safe(cfg, history, st, Plan(cfg, history, st, snapshotAt, runAt))
    ensures Timely(st, Plan(cfg, history, st, snapshotAt, runAt), runAt)
  {
    var decision := Decide(cfg, history, st, snapshotAt);
    var baseline := FindBaseline(cfg, history, st);
    var selected := SourcesOf(decision.commits);
    var inFlight := InFlight(st, selected, |history|);
    BaselineIsCommitted(cfg, history, st);
    SelectionIsSelectable(cfg, history, st, snapshotAt);
    ScanFinds(cfg, history, st, selected);
    OwnTimeIsLatest(history, st, clock, runAt);
    assert Claims(history, st) && Timely(st, [], runAt);
    hide Durable, Claims, Timely, Selectable, Scanned, InFlight, Decide, FindBaseline, Pending, After, MainPlan, Completion, Safe;
    if selected == [] && inFlight == [] {
      var sources := (if baseline.Some? then [baseline.value.source] else []) + Pending(history, After(baseline));
      CompletionIsSafe(cfg, history, After(baseline), st, sources, runAt);
    } else {
      var own := Evidence(WholeSeconds(runAt), decision.triggers, 0);
      MainPlanIsSafe(cfg, history, st, inFlight, selected, own, After(baseline));
      MainPlanIsTimely(history, st, inFlight, selected, own, After(baseline), runAt);
    }
  }
}
