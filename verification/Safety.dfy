/** The run protocol as a transition system, and its invariant. */
module Safety {
  import opened Wire
  import opened Policy
  import opened Protocol

  // Human commits, waiting, upgrades, the start of a run, each effect by itself, and death or failure between any two.

  /** A run in progress: where HEAD was at its snapshot, and the effects still to come. */
  datatype Running = Running(frozen: nat, todo: seq<Effect>)

  datatype System = System(history: seq<Commit>, store: Store, clock: int, run: Option<Running>)

  datatype Event =
    | HumanCommit(committerTime: int)
    | UpgradeCommit(sources: set<Source>)
    | Wait(to: int)
    | Start(snapshotAt: int, runAt: int)
    | Do
    | Die
    | Finish

  /** The lock admits one run or upgrade at a time; humans commit whenever they like. An upgrade commits the
      proofs of complete pairs, and their proofs alone, whether or not HEAD has the pairs. */
  predicate Next(cfg: Config, s: System, e: Event, s': System) {
    match e
    case HumanCommit(t) => s' == s.(history := s.history + [Human(t)])
    case UpgradeCommit(sources) =>
      && s.run.None? && sources != {} && (forall c :: c in sources ==> Complete(s.store, c))
      && s' == s.(history := s.history + [Generated([])], store := s.store.(lone := s.store.lone + sources))
    case Wait(to) => s.clock <= to && s' == s.(clock := to)
    case Start(snapshotAt, runAt) =>
      && s.run.None? && s.history != [] && s.clock <= snapshotAt <= runAt
      && s' == s.(clock := runAt,
                  run := Some(Running(|s.history|, Plan(cfg, s.history, s.store, snapshotAt, runAt))))
    case Do =>
      && s.run.Some? && s.run.value.todo != []
      && var effect := s.run.value.todo[0];
         && !Stuck(s.store, effect)
         && s' == s.(history := Extend(s.history, effect), store := Apply(s.store, effect),
                     run := Some(s.run.value.(todo := s.run.value.todo[1..])))
    case Die => s.run.Some? && s' == s.(store := Abandon(s.store), run := None)
    case Finish => s.run.Some? && s.run.value.todo == [] && s' == s.(run := None)
  }

  const START := System([], EMPTY_STORE, 0, None)

  /** Any number of steps, from anywhere. */
  ghost predicate Path(cfg: Config, states: seq<System>, events: seq<Event>) {
    && |states| == |events| + 1
    && forall i {:trigger events[i]} :: 0 <= i < |events| ==> Next(cfg, states[i], events[i], states[i + 1])
  }

  /** A behaviour from the empty repository. */
  ghost predicate Behaviour(cfg: Config, states: seq<System>, events: seq<Event>) {
    Path(cfg, states, events) && states[0] == START
  }

  // ----- the invariant -----

  predicate IsHuman(history: seq<Commit>, c: Source) {
    c < |history| && history[c].Human?
  }

  /** Artifacts belong to meaningful commits; a manifest has its proof; what is in the tree is what the
      worktree has. */
  ghost predicate Recorded(history: seq<Commit>, st: Store) {
    && (forall c :: c in st.proofs ==> IsHuman(history, c))
    && (forall c :: c in st.manifests ==> c in st.proofs && st.manifests[c].proof == c
                                          && st.manifests[c].submittedAt % 1_000_000 == 0)
    && (forall c :: c in st.tree ==> c in st.manifests && st.tree[c] == st.manifests[c])
  }

  /** Recorded submission times never decrease along the history. */
  ghost predicate Advancing(st: Store) {
    forall a, b :: a in st.manifests && b in st.manifests && a < b
      ==> st.manifests[a].submittedAt <= st.manifests[b].submittedAt
  }

  /** A tag repeats the committed manifest of its own source. */
  ghost predicate Faithful(st: Store) {
    forall i :: 0 <= i < |st.tags| ==>
      st.tags[i].source in st.tree && st.tags[i].evidence == st.tree[st.tags[i].source]
  }

  /** Every submission is a proof in the worktree, in the hands of the running process, or lost with
      a process that died holding it. */
  ghost predicate Ledger(st: Store) {
    st.submissions == st.lost + multiset(st.proofs) + if st.paid.Some? then multiset{st.paid.value} else multiset{}
  }

  /** Proof commits claim only what is committed, and what is committed came with one. */
  ghost predicate Claims(history: seq<Commit>, st: Store) {
    && (forall i, c :: 0 <= i < |history| && history[i].Generated? && c in history[i].sources ==> c in st.tree)
    && (st.tree != map[] ==> HasGenerated(history))
  }

  ghost predicate Beyond(st: Store, c: Source) {
    forall d :: d in st.tree ==> d < c
  }

  ghost predicate Uncommitted(st: Store, c: Source) {
    c in st.manifests && c !in st.tree
  }

  /** Not committed, and its proof in nobody's commit either: what a scan can find. */
  ghost predicate Unrecorded(st: Store, c: Source) {
    Uncommitted(st, c) && c !in st.lone
  }

  /** What a scan can find lies beyond everything committed. */
  ghost predicate CommittedFirst(st: Store) {
    forall c :: Unrecorded(st, c) ==> Beyond(st, c)
  }

  /** The meaningful commits beyond the tree have their pairs up to some point, and none after it. */
  ghost predicate NoGaps(history: seq<Commit>, st: Store) {
    forall a: Source, b: Source :: Uncommitted(st, b) && a < b && IsHuman(history, a) && Beyond(st, a)
      ==> a in st.manifests
  }

  ghost predicate NoEarlierIsNewer(history: seq<Commit>, st: Store, c: Source) {
    forall a: Source :: a < c && IsHuman(history, a) && IsHuman(history, c) && Beyond(st, a)
      ==> history[a].committerTime <= history[c].committerTime
  }

  /** A pair that a scan can find is the last there is; and none beyond the tree was chosen over a newer commit. */
  ghost predicate LastChosen(history: seq<Commit>, st: Store) {
    && (forall c: Source, d: Source :: Unrecorded(st, c) && d in st.manifests ==> d <= c)
    && (forall c: Source :: Uncommitted(st, c) && Beyond(st, c) ==> NoEarlierIsNewer(history, st, c))
  }

  /** Complete pairs that are not committed. Where decisions take all that is pending, they are a gapless run from
      the first pending commit. */
  ghost predicate Debt(cfg: Config, history: seq<Commit>, st: Store) {
    if TakesAll(cfg.policy, st.tree != map[]) then NoGaps(history, st) else LastChosen(history, st)
  }

  ghost predicate AtMostOne(st: Store) {
    forall a, b :: Uncommitted(st, a) && Uncommitted(st, b) ==> a == b
  }

  /** Each part of the repository agrees with the others. */
  ghost predicate Sound(history: seq<Commit>, st: Store) {
    Recorded(history, st) && Faithful(st) && Ledger(st) && Claims(history, st)
  }

  /** Times and what is not committed are in order. */
  ghost predicate Orderly(cfg: Config, history: seq<Commit>, st: Store) {
    Advancing(st) && CommittedFirst(st) && Debt(cfg, history, st)
  }

  /** The invariant of a store. */
  ghost predicate Durable(cfg: Config, history: seq<Commit>, st: Store) {
    Sound(history, st) && Orderly(cfg, history, st)
  }

  /** A manifest that keeps times and debt in order. */
  ghost predicate InOrder(cfg: Config, seen: seq<Commit>, st: Store, c: Source, evidence: Evidence) {
    && IsHuman(seen, c)
    && (forall d :: d in st.manifests ==> d < c && st.manifests[d].submittedAt <= evidence.submittedAt)
    && (if TakesAll(cfg.policy, st.tree != map[])
        then forall a: Source :: a < c && IsHuman(seen, a) && Beyond(st, a) ==> a in st.manifests
        else NoEarlierIsNewer(seen, st, c) && forall d :: !Unrecorded(st, d))
  }

  /** A proof commit that leaves nothing behind: all that a scan can find is in it, and beyond the tree no pair
      comes after all of it. */
  ghost predicate Covering(st: Store, sources: seq<Source>) {
    && (forall c :: Unrecorded(st, c) ==> c in sources)
    && (forall c: Source :: Uncommitted(st, c) && Beyond(st, c) ==> exists d :: d in sources && c <= d)
  }

  /** An effect that keeps the invariant, given the history the run has seen. */
  ghost predicate Enabled(cfg: Config, seen: seq<Commit>, st: Store, e: Effect) {
    && (st.paid.None? <==> !e.WriteProof?)
    && match e
       case Submit(c) => c !in st.proofs && IsHuman(seen, c)
       case WriteProof(c) => st.paid == Some(c) && c !in st.proofs && IsHuman(seen, c)
       case WriteManifest(c, evidence) =>
         && c in st.proofs && c !in st.manifests && evidence.proof == c && evidence.submittedAt % 1_000_000 == 0
         && InOrder(cfg, seen, st, c, evidence)
       case CommitProofs(sources) =>
         sources != [] && (forall c :: c in sources ==> c in st.manifests) && Covering(st, sources)
       case CreateTag(tag) => tag.source in st.tree && tag.evidence == st.tree[tag.source]
       case Refuse => false
  }

  /** Every effect up to the end, or up to a refusal, is enabled when its turn comes, and a run that gets
      there holds no submission. */
  ghost predicate Safe(cfg: Config, seen: seq<Commit>, st: Store, todo: seq<Effect>)
    decreases todo
  {
    if todo == [] || todo[0].Refuse? then st.paid.None?
    else Enabled(cfg, seen, st, todo[0]) && Safe(cfg, seen, Apply(st, todo[0]), todo[1..])
  }

  ghost predicate Timely(st: Store, todo: seq<Effect>, clock: int) {
    && (forall c :: c in st.manifests ==> st.manifests[c].submittedAt <= clock)
    && (forall i :: 0 <= i < |todo| && todo[i].WriteManifest? ==> todo[i].evidence.submittedAt <= clock)
  }

  ghost predicate Inv(cfg: Config, s: System) {
    && Durable(cfg, s.history, s.store)
    && match s.run
       case None => s.store.paid.None? && Timely(s.store, [], s.clock)
       case Some(r) =>
         && r.frozen <= |s.history| && Safe(cfg, s.history[..r.frozen], s.store, r.todo)
         && Timely(s.store, r.todo, s.clock)
  }

  // ----- each effect keeps it -----

  lemma CommitKeepsSound(cfg: Config, history: seq<Commit>, seen: seq<Commit>, st: Store, sources: seq<Source>)
    requires Sound(history, st) && Enabled(cfg, seen, st, CommitProofs(sources))
    ensures Sound(Extend(history, CommitProofs(sources)), Apply(st, CommitProofs(sources)))
  {
    var next, longer := Apply(st, CommitProofs(sources)), Extend(history, CommitProofs(sources));
    assert longer[|history|] == Generated(sources);
    assert forall c :: c in sources ==> c in PairsOf(st, sources);
    assert forall c :: IsHuman(history, c) ==> IsHuman(longer, c);
    hide Covering;
  }

  /** What only moves submissions about leaves the rest sound. */
  lemma LedgerMoves(history: seq<Commit>, st: Store, next: Store)
    requires Sound(history, st)
    requires next == st.(submissions := next.submissions, lost := next.lost, paid := next.paid) && Ledger(next)
    ensures Sound(history, next)
  {
    hide Ledger;
  }

  lemma ProofKeepsSound(history: seq<Commit>, st: Store, c: Source)
    requires Sound(history, st) && IsHuman(history, c) && st.paid == Some(c) && c !in st.proofs
    ensures Sound(history, Apply(st, WriteProof(c)))
  {
    var next := Apply(st, WriteProof(c));
    assert Ledger(next) by {
      assert multiset(st.proofs + {c}) == multiset(st.proofs) + multiset{c};
    }
    hide Ledger;
  }

  lemma ManifestKeepsSound(history: seq<Commit>, st: Store, c: Source, evidence: Evidence)
    requires Sound(history, st) && c in st.proofs && c !in st.manifests
    requires evidence.proof == c && evidence.submittedAt % 1_000_000 == 0
    ensures Sound(history, Apply(st, WriteManifest(c, evidence)))
  {
    assert Ledger(Apply(st, WriteManifest(c, evidence)));
    hide Ledger;
  }

  lemma TagKeepsSound(history: seq<Commit>, st: Store, tag: Tag)
    requires Sound(history, st) && tag.source in st.tree && tag.evidence == st.tree[tag.source]
    ensures Sound(history, Apply(st, CreateTag(tag)))
  {
    var next := Apply(st, CreateTag(tag));
    assert Ledger(next) && Claims(history, next) && Recorded(history, next);
    hide Ledger, Claims, Recorded;
  }

  lemma EffectKeepsSound(cfg: Config, history: seq<Commit>, seen: seq<Commit>, st: Store, e: Effect)
    requires Sound(history, st) && seen <= history && Enabled(cfg, seen, st, e)
    ensures Sound(Extend(history, e), Apply(st, e))
  {
    hide InOrder, Uncommitted, Covering;
    assert forall c :: IsHuman(seen, c) ==> IsHuman(history, c);
    match e
    case Submit(c) =>
      LedgerMoves(history, st, Apply(st, e));
    case WriteProof(c) =>
      ProofKeepsSound(history, st, c);
    case WriteManifest(c, evidence) =>
      hide Sound;
      ManifestKeepsSound(history, st, c, evidence);
    case CommitProofs(sources) =>
      hide Sound;
      CommitKeepsSound(cfg, history, seen, st, sources);
    case CreateTag(tag) =>
      hide Sound;
      TagKeepsSound(history, st, tag);
  }

  lemma ManifestKeepsDebt(cfg: Config, history: seq<Commit>, seen: seq<Commit>, st: Store, c: Source, evidence: Evidence)
    requires Debt(cfg, history, st) && Recorded(history, st) && seen <= history && InOrder(cfg, seen, st, c, evidence)
    ensures Debt(cfg, history, Apply(st, WriteManifest(c, evidence)))
  {
    var next := Apply(st, WriteManifest(c, evidence));
    if TakesAll(cfg.policy, st.tree != map[]) {
      forall a: Source, b: Source | Uncommitted(next, b) && a < b && IsHuman(history, a) && Beyond(next, a)
        ensures a in next.manifests
      {
        assert Beyond(st, a);
        if b == c {
          assert IsHuman(seen, a);
        } else {
          assert Uncommitted(st, b);
        }
      }
    } else {
      ManifestKeepsLast(cfg, history, seen, st, c, evidence);
    }
  }

  lemma ManifestKeepsLast(cfg: Config, history: seq<Commit>, seen: seq<Commit>, st: Store, c: Source, evidence: Evidence)
    requires LastChosen(history, st) && !TakesAll(cfg.policy, st.tree != map[])
    requires seen <= history && InOrder(cfg, seen, st, c, evidence)
    ensures LastChosen(history, Apply(st, WriteManifest(c, evidence)))
  {
    var next := Apply(st, WriteManifest(c, evidence));
    forall d | Unrecorded(next, d) ensures d == c {
      assert d != c ==> Unrecorded(st, d);
    }
    forall d: Source | Uncommitted(next, d) && Beyond(next, d) ensures NoEarlierIsNewer(history, next, d) {
      assert Beyond(st, d);
      assert d != c ==> Uncommitted(st, d);
      assert NoEarlierIsNewer(if d == c then seen else history, st, d);
      assert d == c ==> forall a: Source :: a < d && IsHuman(history, a) ==> IsHuman(seen, a);
      assert forall a: Source :: Beyond(next, a) ==> Beyond(st, a);
    }
  }

  lemma ManifestKeepsOrder(cfg: Config, history: seq<Commit>, seen: seq<Commit>, st: Store, c: Source, evidence: Evidence)
    requires Durable(cfg, history, st) && seen <= history && InOrder(cfg, seen, st, c, evidence)
    ensures Orderly(cfg, history, Apply(st, WriteManifest(c, evidence)))
  {
    assert Debt(cfg, history, st) && Recorded(history, st);
    ManifestKeepsDebt(cfg, history, seen, st, c, evidence);
    ManifestKeepsTimes(cfg, history, seen, st, c, evidence);
    hide Durable, InOrder, Debt, Advancing, CommittedFirst, Recorded;
  }

  lemma ManifestKeepsTimes(cfg: Config, history: seq<Commit>, seen: seq<Commit>, st: Store, c: Source, evidence: Evidence)
    requires Durable(cfg, history, st) && InOrder(cfg, seen, st, c, evidence)
    ensures var next := Apply(st, WriteManifest(c, evidence)); Advancing(next) && CommittedFirst(next)
  {
    hide Debt, TakesAll, Ledger, Claims, Faithful, NoEarlierIsNewer;
    var next := Apply(st, WriteManifest(c, evidence));
    forall d | Unrecorded(next, d) ensures Beyond(next, d) {
      assert d != c ==> Unrecorded(st, d) && Beyond(st, d);
    }
  }

  /** After a proof commit nothing that is not committed lies beyond the tree, and a scan finds nothing. */
  lemma CommitKeepsOrder(cfg: Config, history: seq<Commit>, st: Store, sources: seq<Source>)
    requires Durable(cfg, history, st) && Covering(st, sources) && forall c :: c in sources ==> c in st.manifests
    ensures Orderly(cfg, Extend(history, CommitProofs(sources)), Apply(st, CommitProofs(sources)))
  {
    var next := Apply(st, CommitProofs(sources));
    assert forall c :: c in sources ==> c in PairsOf(st, sources);
    forall c ensures !Unrecorded(next, c) {
      assert Unrecorded(st, c) ==> c in PairsOf(st, sources);
    }
    forall c | Uncommitted(next, c) ensures exists d :: d in next.tree && c <= d {
      assert Uncommitted(st, c);
      if Beyond(st, c) {
        var d :| d in sources && c <= d;
        assert d in next.tree;
      } else {
        var d :| d in st.tree && c <= d;
        assert d in next.tree;
      }
    }
    hide Durable, Covering;
    assert Advancing(next) by {
      SameManifests(cfg, history, st, next);
    }
    hide Advancing;
  }

  lemma SameManifests(cfg: Config, history: seq<Commit>, st: Store, next: Store)
    requires Durable(cfg, history, st) && next.manifests == st.manifests
    ensures Advancing(next)
  {
  }

  /** What leaves manifests and tree alone leaves the order alone, whatever upgrades have committed. */
  lemma SameOrder(cfg: Config, history: seq<Commit>, st: Store, next: Store)
    requires Orderly(cfg, history, st) && next.manifests == st.manifests && next.tree == st.tree && st.lone <= next.lone
    ensures Orderly(cfg, history, next)
  {
    assert forall c: Source :: Beyond(next, c) <==> Beyond(st, c);
    assert forall c: Source :: Uncommitted(next, c) <==> Uncommitted(st, c);
    assert forall c: Source :: Unrecorded(next, c) ==> Unrecorded(st, c);
    hide Beyond, Uncommitted, Unrecorded, TakesAll;
    assert forall c: Source :: NoEarlierIsNewer(history, st, c) ==> NoEarlierIsNewer(history, next, c);
    hide NoEarlierIsNewer;
  }

  lemma EffectKeepsOrder(cfg: Config, history: seq<Commit>, seen: seq<Commit>, st: Store, e: Effect)
    requires Durable(cfg, history, st) && seen <= history && Enabled(cfg, seen, st, e)
    ensures Orderly(cfg, Extend(history, e), Apply(st, e))
  {
    if e.WriteManifest? {
      hide Durable, InOrder;
      ManifestKeepsOrder(cfg, history, seen, st, e.c, e.evidence);
    } else if e.CommitProofs? {
      hide Durable, Covering;
      CommitKeepsOrder(cfg, history, st, e.sources);
    } else {
      assert Orderly(cfg, history, st);
      hide Durable, Orderly;
      SameOrder(cfg, history, st, Apply(st, e));
    }
  }

  /** Each enabled effect keeps the invariant, with the history moving on meanwhile. */
  lemma EffectKeepsDurable(cfg: Config, history: seq<Commit>, seen: seq<Commit>, st: Store, e: Effect)
    requires Durable(cfg, history, st) && seen <= history && Enabled(cfg, seen, st, e)
    ensures Durable(cfg, Extend(history, e), Apply(st, e))
  {
    hide Sound, Orderly, Apply, Enabled;
    EffectKeepsSound(cfg, history, seen, st, e);
    EffectKeepsOrder(cfg, history, seen, st, e);
  }

  /** A commit by anyone else leaves the invariant alone. */
  lemma CommitElsewhereKeepsSound(history: seq<Commit>, st: Store, commit: Commit)
    requires Sound(history, st) && (commit.Generated? ==> commit.sources == [])
    ensures Sound(history + [commit], st)
  {
    var longer := history + [commit];
    assert forall c :: IsHuman(history, c) ==> IsHuman(longer, c);
    if HasGenerated(history) {
      var i :| 0 <= i < |history| && history[i].Generated?;
      assert longer[i].Generated?;
    }
  }

  lemma CommitElsewhereKeepsOrder(cfg: Config, history: seq<Commit>, st: Store, commit: Commit)
    requires Durable(cfg, history, st)
    ensures Orderly(cfg, history + [commit], st)
  {
    var longer := history + [commit];
    assert forall a: Source, b: Source :: IsHuman(history, b) && a < b && IsHuman(longer, a) ==> IsHuman(history, a);
    assert forall c: Source :: IsHuman(history, c) && NoEarlierIsNewer(history, st, c) ==> NoEarlierIsNewer(longer, st, c);
    hide Ledger, Claims, Faithful, NoEarlierIsNewer;
  }

  /** So does an upgrade, whatever it touches. */
  lemma UpgradeKeepsDurable(cfg: Config, history: seq<Commit>, st: Store, sources: set<Source>)
    requires Durable(cfg, history, st)
    ensures Durable(cfg, history + [Generated([])], st.(lone := st.lone + sources))
  {
    CommitElsewhereKeepsSound(history, st, Generated([]));
    CommitElsewhereKeepsOrder(cfg, history, st, Generated([]));
    SameOrder(cfg, history + [Generated([])], st, st.(lone := st.lone + sources));
    hide Orderly, Debt;
  }

  lemma SoundParts(history: seq<Commit>, st: Store)
    requires Sound(history, st)
    ensures Recorded(history, st) && Faithful(st) && Ledger(st) && Claims(history, st)
  {
  }

  lemma AbandonKeepsLedger(st: Store)
    requires Ledger(st)
    ensures Ledger(Abandon(st))
  {
  }

  lemma AbandonKeepsDurable(cfg: Config, history: seq<Commit>, st: Store)
    requires Durable(cfg, history, st)
    ensures Durable(cfg, history, Abandon(st)) && Abandon(st).paid.None?
  {
    hide Orderly, Sound, Ledger;
    var next := Abandon(st);
    assert Ledger(st) by { SoundParts(history, st); }
    AbandonKeepsLedger(st);
    SameOrder(cfg, history, st, next);
    LedgerMoves(history, st, next);
  }
}
