/** Ways through the protocol that are open from every state: a run that is blocked after its manifest, and a run
    that is left alone and gets through. Behaviours in which something documented does not hold are put together
    out of these, so they start from the empty repository and take no step the system does not have. */
module Paths {
  import opened Wire
  import opened Policy
  import opened Protocol
  import opened Safety
  import opened Planning
  import opened Runs

  // ----- a run that gets as far as its manifest -----

  /** The aggregate triggers fire sooner or later: there is a maximum age, or a schedule that recurs. */
  ghost predicate FiresAgain(policy: PolicyConfig) {
    policy.maxAge.Some? || (policy.occurrence.Some? && forall t :: FiresAfter(policy.occurrence.value, t))
  }

  ghost predicate FiresAfter(occurrence: int -> int, t: int) {
    exists now :: t <= now && t < occurrence(now)
  }

  /** A committer time later than all in this history. */
  function LaterThanAll(history: seq<Commit>): (t: int)
    ensures forall i :: 0 <= i < |history| && history[i].Human? ==> history[i].committerTime < t
  {
    if history == [] then 0
    else
      var last, rest := history[|history| - 1], LaterThanAll(history[..|history| - 1]);
      if last.Human? && rest <= last.committerTime then last.committerTime + 1 else rest
  }

  lemma EventuallyDue(cfg: Config, history: seq<Commit>, st: Store, clock: int) returns (now: int)
    requires !cfg.policy.everyCommit && FiresAgain(cfg.policy)
    requires PendingFrom(history, After(FindBaseline(cfg, history, st))) != []
    ensures clock <= now && Decide(cfg, history, st, now).triggers != {}
  {
    var b := FindBaseline(cfg, history, st);
    var pending := PendingFrom(history, After(b));
    if cfg.policy.maxAge.Some? {
      var due := pending[0].committerTime + cfg.policy.maxAge.value;
      now := if clock <= due then due else clock;
      assert SomeAged(pending, cfg.policy.maxAge.value, now);
    } else {
      var t := if b.Some? && clock <= b.value.evidence.submittedAt then b.value.evidence.submittedAt else clock;
      assert FiresAfter(cfg.policy.occurrence.value, t);
      now :| t <= now && t < cfg.policy.occurrence.value(now);
    }
    hide FindBaseline, PendingFrom, SomeAged, Decide;
    TriggersAreExact(cfg, history, st, now);
  }

  lemma BaselineIsBefore(cfg: Config, history: seq<Commit>, st: Store, t: int)
    requires Sound(history, st)
    ensures After(FindBaseline(cfg, history + [Human(t)], st)) <= |history|
  {
    hide Sound, FindBaseline;
    CommitElsewhereKeepsSound(history, st, Human(t));
    BaselineIsCommitted(cfg, history + [Human(t)], st);
    TreeIsHuman(history, st);
  }

  lemma TreeIsHuman(history: seq<Commit>, st: Store)
    requires Sound(history, st)
    ensures forall c :: c in st.tree || c in st.manifests || c in st.proofs ==> IsHuman(history, c)
  {
    hide Faithful, Ledger, Claims;
  }

  lemma LatestIsLast(history: seq<Commit>, from: nat)
    requires from <= |history|
    ensures var pending := PendingFrom(history + [Human(LaterThanAll(history))], from);
            pending != [] && pending[LatestIndex(pending)].source == |history|
  {
    var t := LaterThanAll(history);
    var h := history + [Human(t)];
    assert h[..|history|] == history;
    var pending := PendingFrom(h, from);
    assert pending == PendingFrom(history, from) + [PendingCommit(|history|, t)];
    PendingTimes(history, from);
    assert pending[|pending| - 1].committerTime == t;
    assert LatestIndex(pending) == |pending| - 1;
  }

  /** A commit later than all others, once anything is due, is what an aggregate policy selects. */
  lemma LatestIsSelected(cfg: Config, history: seq<Commit>, st: Store, now: int)
    requires !cfg.policy.everyCommit && Sound(history, st)
    requires Decide(cfg, history + [Human(LaterThanAll(history))], st, now).triggers != {}
    ensures SourcesOf(Decide(cfg, history + [Human(LaterThanAll(history))], st, now).commits) == [|history|]
  {
    hide Sound, FindBaseline, PendingFrom, EvaluatePolicy, After;
    var h := history + [Human(LaterThanAll(history))];
    var b := FindBaseline(cfg, h, st);
    BaselineIsBefore(cfg, history, st, LaterThanAll(history));
    LatestIsLast(history, After(b));
    var lastFixed :=
      if b.Some? && FixedTime in b.value.evidence.triggers then Some(b.value.evidence.submittedAt) else None;
    DecisionShape(PolicyState(now, PendingFrom(h, After(b)), lastFixed, b.Some?, false), cfg.policy);
  }

  /** Nothing that is not committed can be found by the scan: an upgrade has its proof in HEAD. */
  ghost predicate AllStray(st: Store) {
    forall c :: Uncommitted(st, c) ==> c in st.lone
  }

  lemma AllStrayIsOverlooked(history: seq<Commit>, st: Store, selected: seq<Source>)
    requires Recorded(history, st) && Faithful(st) && AllStray(st)
    ensures InFlight(st, selected, |history|) == []
  {
    var r := InFlight(st, selected, |history|);
    if r != [] {
      assert r[0] in r && Uncommitted(st, r[0]);
    }
  }

  lemma FreshIsReady(history: seq<Commit>, from: nat, st: Store, t: int)
    requires Sound(history, st)
    ensures Ready(history + [Human(t)], from, st, |history|)
  {
    TreeIsHuman(history, st);
    CommitElsewhereKeepsSound(history, st, Human(t));
    var h := history + [Human(t)];
    if Claimed(h, from, |history|) {
      hide Sound;
      ClaimedIsCommitted(h, st, from, |history|);
      assert false;
    }
  }

  lemma MainPlanOfOne(history: seq<Commit>, from: nat, st: Store, c: Source, own: Evidence)
    requires Ready(history, from, st, c) && !Complete(st, c) && c !in st.tree
    ensures var mine := own.(proof := c);
            MainPlan(history, from, st, [], [c], own)
            == [Submit(c), WriteProof(c), WriteManifest(c, mine), CommitProofs([c]), CreateTag(Tag(c, mine))]
  {
    var mine := own.(proof := c);
    assert [c][..0] == [] && [c][..1] == [c] && [] + [c] == [c] && c in [c];
    assert Usable(history, from, st, []) == 0;
    assert Usable(history, from, st, [c]) == 1;
    assert Stamping(st, [], own) == [];
    assert Stamping(st, [c], own) == [Submit(c), WriteProof(c), WriteManifest(c, mine)];
    assert Tagging(st, [c], own) == [CreateTag(Tag(c, mine))];
    assert Recording(st, [c], own) == [CommitProofs([c]), CreateTag(Tag(c, mine))];
    hide Recording, Stamping, Usable;
  }

  /** What a run sets out to do that has one new source and nothing to finish. */
  function PlanOfOne(c: Source, own: Evidence): seq<Effect> {
    [Submit(c), WriteProof(c), WriteManifest(c, own), CommitProofs([c]), CreateTag(Tag(c, own))]
  }

  lemma FreshPlan(cfg: Config, history: seq<Commit>, st: Store, now: int)
    requires !cfg.policy.everyCommit && Sound(history, st) && AllStray(st)
    requires Decide(cfg, history + [Human(LaterThanAll(history))], st, now).triggers != {}
    ensures var h := history + [Human(LaterThanAll(history))];
            Plan(cfg, h, st, now, now)
            == PlanOfOne(|history|, Evidence(WholeSeconds(now), Decide(cfg, h, st, now).triggers, |history|))
  {
    var h, c := history + [Human(LaterThanAll(history))], |history|;
    CommitElsewhereKeepsSound(history, st, Human(LaterThanAll(history)));
    assert Recorded(h, st) && Faithful(st);
    TreeIsHuman(history, st);
    hide Sound, Recorded, Faithful, Decide, FindBaseline, InFlight, AllStray, Recording, MainPlan, Ready;
    LatestIsSelected(cfg, history, st, now);
    AllStrayIsOverlooked(h, st, [c]);
    var from := After(FindBaseline(cfg, h, st));
    FreshIsReady(history, from, st, LaterThanAll(history));
    MainPlanOfOne(h, from, st, c, Evidence(WholeSeconds(now), Decide(cfg, h, st, now).triggers, 0));
  }

  /** One more commit and its pair, complete and in nobody's tree; of the rest only the ledger has changed. */
  ghost predicate OneMore(s: System, f: System) {
    && f.run.None? && f.history == s.history + [Human(LaterThanAll(s.history))] && s.clock <= f.clock
    && f.store.paid.None? && f.store.tree == s.store.tree && f.store.lone == s.store.lone
    && |s.history| !in s.store.manifests
    && f.store.proofs == s.store.proofs + {|s.history|} && |s.history| in f.store.manifests
    && f.store.manifests == s.store.manifests[|s.history| := f.store.manifests[|s.history|]]
  }

  lemma ThreeEffects(cfg: Config, s: System, c: Source, own: Evidence)
    requires s.run.Some? && [Submit(c), WriteProof(c), WriteManifest(c, own)] <= s.run.value.todo
    ensures var st := Apply(Apply(Apply(s.store, Submit(c)), WriteProof(c)), WriteManifest(c, own));
            var todo := s.run.value.todo;
            var s1 := s.(store := Apply(s.store, Submit(c)), run := Some(s.run.value.(todo := todo[1..])));
            var s2 := s.(store := Apply(s1.store, WriteProof(c)), run := Some(s.run.value.(todo := todo[2..])));
            var s3 := s.(store := st, run := Some(s.run.value.(todo := todo[3..])));
            Next(cfg, s, Do, s1) && Next(cfg, s1, Do, s2) && Next(cfg, s2, Do, s3)
  {
    var todo := s.run.value.todo;
    assert todo[0] == Submit(c) && todo[1..][0] == WriteProof(c) && todo[2..][0] == WriteManifest(c, own);
    assert todo[1..][1..] == todo[2..] && todo[2..][1..] == todo[3..];
  }

  /** The moment at which the policy fires after one more commit, and what the run then sets out to do. */
  lemma BlockedPlan(cfg: Config, s: System) returns (now: int, own: Evidence)
    requires !cfg.policy.everyCommit && FiresAgain(cfg.policy) && Sound(s.history, s.store) && AllStray(s.store)
    ensures var h, c := s.history + [Human(LaterThanAll(s.history))], |s.history|;
            && s.clock <= now && c !in s.store.proofs && c !in s.store.manifests
            && Plan(cfg, h, s.store, now, now) == PlanOfOne(c, own)
  {
    var t, c := LaterThanAll(s.history), |s.history|;
    var h := s.history + [Human(t)];
    hide FindBaseline, Decide, FiresAgain, AllStray, LaterThanAll, Plan, PendingFrom, WholeSeconds, LatestIndex;
    TreeIsHuman(s.history, s.store);
    hide Sound;
    BaselineIsBefore(cfg, s.history, s.store, t);
    LatestIsLast(s.history, After(FindBaseline(cfg, h, s.store)));
    now := EventuallyDue(cfg, h, s.store, s.clock);
    FreshPlan(cfg, s.history, s.store, now);
    own := Evidence(WholeSeconds(now), Decide(cfg, h, s.store, now).triggers, c);
  }

  lemma StartStep(cfg: Config, s: System, now: int)
    requires s.run.None? && s.history != [] && s.clock <= now
    ensures Next(cfg, s, Start(now, now),
                 s.(clock := now, run := Some(Running(|s.history|, Plan(cfg, s.history, s.store, now, now)))))
  {
    hide Plan;
  }

  /** A blocked run: somebody commits, the policy fires, the run submits and persists, and dies before it commits.
      The scan of that run sees nothing to finish first. */
  lemma Blocked(cfg: Config, s: System) returns (states: seq<System>, events: seq<Event>)
    requires !cfg.policy.everyCommit && FiresAgain(cfg.policy)
    requires Sound(s.history, s.store) && s.store.paid.None? && s.run.None? && AllStray(s.store)
    ensures Path(cfg, states, events) && states[0] == s && forall e :: e in events ==> !e.UpgradeCommit?
    ensures OneMore(s, states[|events|])
  {
    hide FiresAgain, AllStray, LaterThanAll, Plan, Sound, Next, Apply, OneMore, Path;
    var t, c := LaterThanAll(s.history), |s.history|;
    var now, own := BlockedPlan(cfg, s);
    var s1 := s.(history := s.history + [Human(t)]);
    HumanStep(cfg, s, t);
    StartStep(cfg, s1, now);
    var plan := Plan(cfg, s1.history, s1.store, now, now);
    var s2 := s1.(clock := now, run := Some(Running(|s1.history|, plan)));
    ThreeEffects(cfg, s2, c, own);
    var s3 := s2.(store := Apply(s2.store, Submit(c)), run := Some(Running(|s1.history|, plan[1..])));
    var s4 := s2.(store := Apply(s3.store, WriteProof(c)), run := Some(Running(|s1.history|, plan[2..])));
    var s5 := s2.(store := Apply(s4.store, WriteManifest(c, own)), run := Some(Running(|s1.history|, plan[3..])));
    var s6 := s5.(run := None);
    OneMoreHolds(cfg, s, s5, own);
    states, events := [s, s1, s2, s3, s4, s5, s6], [HumanCommit(t), Start(now, now), Do, Do, Do, Die];
    SixSteps(cfg, states, events);
  }

  lemma HumanStep(cfg: Config, s: System, t: int)
    ensures Next(cfg, s, HumanCommit(t), s.(history := s.history + [Human(t)]))
  {
  }

  lemma OneMoreHolds(cfg: Config, s: System, f: System, own: Evidence)
    requires s.store.paid.None? && |s.history| !in s.store.manifests && f.run.Some? && s.clock <= f.clock
    requires f.history == s.history + [Human(LaterThanAll(s.history))]
    requires var c := |s.history|;
             f.store == Apply(Apply(Apply(s.store, Submit(c)), WriteProof(c)), WriteManifest(c, own))
    ensures OneMore(s, f.(run := None)) && Next(cfg, f, Die, f.(run := None))
  {
  }

  lemma SixSteps(cfg: Config, states: seq<System>, events: seq<Event>)
    requires |states| == 7 && |events| == 6
    requires Next(cfg, states[0], events[0], states[1]) && Next(cfg, states[1], events[1], states[2])
    requires Next(cfg, states[2], events[2], states[3]) && Next(cfg, states[3], events[3], states[4])
    requires Next(cfg, states[4], events[4], states[5]) && Next(cfg, states[5], events[5], states[6])
    ensures Path(cfg, states, events)
  {
    hide Next;
  }

  lemma JoinPaths(cfg: Config, a: seq<System>, e: seq<Event>, b: seq<System>, f: seq<Event>)
    requires Path(cfg, a, e) && Path(cfg, b, f) && b[0] == a[|e|]
    ensures Path(cfg, a + b[1..], e + f) && (a + b[1..])[0] == a[0] && (a + b[1..])[|e + f|] == b[|f|]
  {
    hide Next;
    var states, events := a + b[1..], e + f;
    forall i | 0 <= i < |events| ensures Next(cfg, states[i], events[i], states[i + 1]) {
      if i >= |e| {
        assert events[i] == f[i - |e|] && states[i] == b[i - |e|] && states[i + 1] == b[i + 1 - |e|];
      }
    }
  }

  // ----- a run that is left alone -----

  lemma DoStep(cfg: Config, s: System)
    requires Inv(cfg, s) && s.run.Some? && s.run.value.todo != [] && Refuse !in s.run.value.todo
    ensures var e := s.run.value.todo[0];
            Next(cfg, s, Do, s.(history := Extend(s.history, e), store := Apply(s.store, e),
                                run := Some(s.run.value.(todo := s.run.value.todo[1..]))))
  {
    var e := s.run.value.todo[0];
    assert e in s.run.value.todo;
    assert Enabled(cfg, s.history[..s.run.value.frozen], s.store, e) && Faithful(s.store);
    hide Durable, Safe, Timely;
  }

  /** A run that does not set out to refuse, and that nothing kills, carries out all it set out to do. */
  lemma {:induction false} LeftAlone(cfg: Config, s: System) returns (states: seq<System>, events: seq<Event>)
    requires Inv(cfg, s) && s.run.Some? && Refuse !in s.run.value.todo
    ensures Path(cfg, states, events) && states[0] == s && |events| == |s.run.value.todo| + 1
    ensures forall e :: e in events ==> e.Do? || e.Finish?
    ensures states[|events|] == s.(history := ExtendAll(s.history, s.run.value.todo),
                                   store := Exec(s.store, s.run.value.todo), run := None)
    decreases |s.run.value.todo|
  {
    var todo := s.run.value.todo;
    if todo == [] {
      return [s, s.(run := None)], [Finish];
    }
    var next := s.(history := Extend(s.history, todo[0]), store := Apply(s.store, todo[0]),
                   run := Some(s.run.value.(todo := todo[1..])));
    DoStep(cfg, s);
    StepKeepsInv(cfg, s, Do, next);
    hide Inv, Next, Apply, Extend;
    var rest, steps := LeftAlone(cfg, next);
    assert Path(cfg, [s, next], [Do]);
    JoinPaths(cfg, [s, next], [Do], rest, steps);
    states, events := [s, next] + rest[1..], [Do] + steps;
  }
}
