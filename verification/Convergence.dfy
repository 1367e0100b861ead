/** Repeated runs converge: every run that works takes work off a bounded measure. */
module Convergence {
  import opened Wire
  import opened Policy
  import opened Protocol
  import opened Safety
  import opened Planning
  import opened Runs

  // While nobody else commits, every run that does anything and gets through lowers the measure, whatever the clock
  // says and in whatever order committer times are.

  // ----- when a run fails closed -----

  predicate HalfWritten(st: Store, c: Source) {
    c in st.proofs && c !in st.manifests
  }

  lemma ReadyUnlessHalfWritten(history: seq<Commit>, from: nat, st: Store, c: Source)
    requires Recorded(history, st) && Claims(history, st)
    ensures Ready(history, from, st, c) <==> !HalfWritten(st, c)
  {
    if Claimed(history, from, c) {
      ClaimedIsCommitted(history, st, from, c);
    }
  }

  lemma {:induction false} StampingNeverRefuses(st: Store, sources: seq<Source>, own: Evidence)
    ensures Refuse !in Stamping(st, sources, own)
  {
    if sources != [] {
      StampingNeverRefuses(st, sources[..|sources| - 1], own);
    }
  }

  lemma MainPlanRefuses(history: seq<Commit>, from: nat, st: Store, inFlight: seq<Source>, selected: seq<Source>, own: Evidence)
    requires Recorded(history, st) && Claims(history, st)
    ensures Refuse in MainPlan(history, from, st, inFlight, selected, own)
       <==> exists c :: c in Chosen(inFlight, selected) && HalfWritten(st, c)
  {
    var chosen := Chosen(inFlight, selected);
    var n := Usable(history, from, st, chosen);
    StampingNeverRefuses(st, chosen, own);
    forall c ensures Ready(history, from, st, c) <==> !HalfWritten(st, c) {
      ReadyUnlessHalfWritten(history, from, st, c);
    }
    hide Recorded, Claims, Ready, HalfWritten, Stamping;
    if n < |chosen| {
      assert chosen[n] in chosen;
      assert MainPlan(history, from, st, inFlight, selected, own) == Stamping(st, chosen[..n], own) + [Refuse];
    }
  }

  /** A run fails closed in exactly one situation: nothing is in flight and a source it selected has a proof
      without a manifest. In particular it never finds a claim without artifacts. */
  lemma RefusesOnlyHalfWritten(cfg: Config, history: seq<Commit>, st: Store, snapshotAt: int, runAt: int)
    requires Sound(history, st)
    ensures var selected := SourcesOf(Decide(cfg, history, st, snapshotAt).commits);
            Refuse in Plan(cfg, history, st, snapshotAt, runAt)
            <==> (InFlight(st, selected, |history|) == [] && exists c :: c in selected && HalfWritten(st, c))
  {
    var decision := Decide(cfg, history, st, snapshotAt);
    var baseline := FindBaseline(cfg, history, st);
    var selected := SourcesOf(decision.commits);
    var inFlight := InFlight(st, selected, |history|);
    CompletionOnlyTags(history, After(baseline), st,
                       (if baseline.Some? then [baseline.value.source] else []) + Pending(history, After(baseline)));
    MainPlanRefuses(history, After(baseline), st, inFlight, selected, Evidence(WholeSeconds(runAt), decision.triggers, 0));
    hide Sound, Decide, FindBaseline, InFlight, MainPlan, Completion, HalfWritten, Pending, After;
  }

  // ----- the measure -----

  /** Commits still to stamp. */
  function PendingCount(cfg: Config, history: seq<Commit>, st: Store): nat {
    |PendingFrom(history, After(FindBaseline(cfg, history, st)))|
  }

  /** A baseline still to tag. */
  predicate Untagged(cfg: Config, history: seq<Commit>, st: Store) {
    var b := FindBaseline(cfg, history, st);
    b.Some? && !Tagged(st.tags, b.value.source)
  }

  /** One system state before another: fewer pending, or as many and the baseline got its tag. */
  predicate Closer(cfg: Config, history: seq<Commit>, st: Store, history': seq<Commit>, st': Store) {
    || PendingCount(cfg, history', st') < PendingCount(cfg, history, st)
    || (PendingCount(cfg, history', st') == PendingCount(cfg, history, st)
        && Untagged(cfg, history, st) && !Untagged(cfg, history', st'))
  }

  lemma {:induction false} FewerPendingFurtherOn(history: seq<Commit>, from: nat, from': nat)
    requires from <= from'
    ensures |PendingFrom(history, from')| <= |PendingFrom(history, from)|
    ensures (exists c: Source :: from <= c < from' && IsHuman(history, c))
            ==> |PendingFrom(history, from')| < |PendingFrom(history, from)|
  {
    if from < |history| {
      var before := history[..|history| - 1];
      FewerPendingFurtherOn(before, from, from');
      assert forall c: Source :: c < |before| && IsHuman(history, c) ==> IsHuman(before, c);
    }
  }

  lemma {:induction false} ProofCommitsAreNotPending(history: seq<Commit>, effects: seq<Effect>, from: nat)
    ensures PendingFrom(ExtendAll(history, effects), from) == PendingFrom(history, from)
    decreases effects
  {
    if effects != [] {
      ProofCommitsAreNotPending(Extend(history, effects[0]), effects[1..], from);
      if effects[0].CommitProofs? {
        assert (history + [Generated(effects[0].sources)])[..|history|] == history;
      }
    }
  }

  lemma {:induction false} RunKeepsDurable(cfg: Config, history: seq<Commit>, seen: seq<Commit>, st: Store, todo: seq<Effect>)
    requires Durable(cfg, history, st) && seen <= history && Safe(cfg, seen, st, todo) && Refuse !in todo
    ensures Durable(cfg, ExtendAll(history, todo), Exec(st, todo))
    decreases todo
  {
    if todo != [] {
      EffectKeepsDurable(cfg, history, seen, st, todo[0]);
      hide Durable, Enabled, Apply;
      RunKeepsDurable(cfg, Extend(history, todo[0]), seen, Apply(st, todo[0]), todo[1..]);
    }
  }

  // ----- what a run that gets through has done -----

  /** All of these are committed and tagged, and nothing else is newly committed. */
  ghost predicate Processed(st: Store, processed: seq<Source>, next: Store) {
    && (forall c :: c in processed ==> c in next.tree && Tagged(next.tags, c))
    && (forall c :: c in next.tree <==> c in st.tree || c in processed)
  }

  lemma TaggingTags(st: Store, next: Store, processed: seq<Source>, own: Evidence)
    requires forall t :: CreateTag(t) in Tagging(st, processed, own) ==> t in next.tags
    ensures forall c :: c in processed ==> Tagged(next.tags, c)
  {
    forall c | c in processed ensures Tagged(next.tags, c) {
      var i :| 0 <= i < |processed| && processed[i] == c;
      assert Tagging(st, processed, own)[i] == CreateTag(TagFor(st, own, c));
      assert TagFor(st, own, c) in next.tags;
    }
  }

  lemma CommitAdds(st: Store, next: Store, processed: seq<Source>, own: Evidence)
    requires Processing(st, next, processed, own)
    ensures var committed := Apply(next, CommitProofs(processed));
            committed.paid.None? && forall c :: c in committed.tree <==> c in st.tree || c in processed
    ensures Recording(st, processed, own) == [CommitProofs(processed)] + Tagging(st, processed, own)
  {
    assert processed[0] in processed;
  }

  lemma TagsLand(cfg: Config, seen: seq<Commit>, st: Store, next: Store, processed: seq<Source>, own: Evidence)
    requires Processing(st, next, processed, own)
    ensures var committed := Apply(next, CommitProofs(processed));
            var done := Exec(committed, Tagging(st, processed, own));
            done.tree == committed.tree && forall c :: c in processed ==> Tagged(done.tags, c)
  {
    var committed := Apply(next, CommitProofs(processed));
    CommitAdds(st, next, processed, own);
    TagsAreFaithful(st, next, processed, own, committed.tree);
    hide Processing, Recording, Tagging, Tagged, Exec;
    TaggingIsSafe(cfg, seen, committed, Tagging(st, processed, own));
    TaggingTags(st, Exec(committed, Tagging(st, processed, own)), processed, own);
  }

  lemma ExecCons(st: Store, e: Effect, effects: seq<Effect>)
    ensures Exec(st, [e] + effects) == Exec(Apply(st, e), effects)
  {
    assert ([e] + effects)[1..] == effects;
  }

  lemma RecordingProcesses(cfg: Config, seen: seq<Commit>, st: Store, next: Store, processed: seq<Source>, own: Evidence)
    requires Processing(st, next, processed, own)
    ensures Processed(st, processed, Exec(next, Recording(st, processed, own)))
  {
    hide Processing, Recording, Tagging, Tagged, Apply, Exec;
    CommitAdds(st, next, processed, own);
    TagsLand(cfg, seen, st, next, processed, own);
    ExecCons(next, CommitProofs(processed), Tagging(st, processed, own));
  }

  lemma MainPlanProcesses(cfg: Config, history: seq<Commit>, from: nat, st: Store, inFlight: seq<Source>, selected: seq<Source>,
                          own: Evidence)
    requires Durable(cfg, history, st) && st.paid.None? && Selectable(cfg, history, st, selected)
    requires Scanned(st, inFlight, selected)
    requires Timely(st, [], own.submittedAt) && own.submittedAt % 1_000_000 == 0
    requires Usable(history, from, st, Chosen(inFlight, selected)) == |Chosen(inFlight, selected)|
    ensures var processed := inFlight + Chosen(inFlight, selected);
            && Processed(st, processed, Exec(st, MainPlan(history, from, st, inFlight, selected, own)))
            && processed != [] && forall c :: c in processed ==> Beyond(st, c) && IsHuman(history, c)
  {
    var chosen := Chosen(inFlight, selected);
    var stamping, recording := Stamping(st, chosen, own), Recording(st, inFlight + chosen, own);
    assert chosen[..|chosen|] == chosen;
    PrefixIsStampable(cfg, history, st, inFlight, selected, own, |chosen|);
    StampingIsSafe(cfg, history, st, chosen, own);
    ChosenIsProcessing(cfg, history, st, Exec(st, stamping), inFlight, selected, own);
    hide Safe, Stamped, Stamping, Exec, Processing, Recording, Stampable, Processed, Debt, Ledger, Timely;
    RecordingProcesses(cfg, history, st, Exec(st, stamping), inFlight + chosen, own);
    ExecConcat(st, stamping, recording);
  }

  lemma ProcessedIsCloser(cfg: Config, history: seq<Commit>, st: Store, history': seq<Commit>, st': Store, processed: seq<Source>)
    requires Durable(cfg, history, st) && Durable(cfg, history', st') && Processed(st, processed, st')
    requires processed != [] && Beyond(st, processed[0]) && IsHuman(history, processed[0])
    requires forall from :: PendingFrom(history', from) == PendingFrom(history, from)
    ensures PendingCount(cfg, history', st') < PendingCount(cfg, history, st)
  {
    BaselineIsFurthest(cfg, history, st);
    BaselineIsFurthest(cfg, history', st');
    hide Durable, FindBaseline, PendingFrom;
    assert processed[0] in processed;
    var from, from' := After(FindBaseline(cfg, history, st)), After(FindBaseline(cfg, history', st'));
    assert from <= processed[0] < from';
    FewerPendingFurtherOn(history, from, from');
  }

  lemma CompletionIsCloser(cfg: Config, history: seq<Commit>, st: Store, history': seq<Commit>, st': Store, c: Source)
    requires Durable(cfg, history, st) && Durable(cfg, history', st') && st'.tree == st.tree
    requires c in st.tree && After(FindBaseline(cfg, history, st)) <= c + 1 && !Tagged(st.tags, c) && Tagged(st'.tags, c)
    requires forall from :: PendingFrom(history', from) == PendingFrom(history, from)
    ensures Closer(cfg, history, st, history', st')
  {
    BaselineIsFurthest(cfg, history, st);
    BaselineIsFurthest(cfg, history', st');
  }

  /** Only the baseline can be waiting for its tag. */
  lemma CompletionTagsBaseline(cfg: Config, history: seq<Commit>, st: Store, sources: seq<Source>, e: Effect)
    requires Durable(cfg, history, st)
    requires var b := FindBaseline(cfg, history, st);
             sources == (if b.Some? then [b.value.source] else []) + Pending(history, After(b))
    requires e in Completion(history, After(FindBaseline(cfg, history, st)), st, sources)
    ensures e.CreateTag? && e.tag.source in st.tree && !Tagged(st.tags, e.tag.source)
    ensures After(FindBaseline(cfg, history, st)) <= e.tag.source + 1 && e.tag.evidence == st.tree[e.tag.source]
  {
    var b := FindBaseline(cfg, history, st);
    CompletionOnlyTags(history, After(b), st, sources);
    PendingIsMeaningful(history, After(b));
  }

  lemma CompletionRunIsCloser(cfg: Config, history: seq<Commit>, st: Store, sources: seq<Source>, plan: seq<Effect>)
    requires Durable(cfg, history, st) && Durable(cfg, ExtendAll(history, plan), Exec(st, plan)) && st.paid.None?
    requires var b := FindBaseline(cfg, history, st);
             sources == (if b.Some? then [b.value.source] else []) + Pending(history, After(b))
    requires plan == Completion(history, After(FindBaseline(cfg, history, st)), st, sources) && plan != []
    ensures Closer(cfg, history, st, ExtendAll(history, plan), Exec(st, plan))
  {
    forall e | e in plan ensures e.CreateTag? && e.tag.source in st.tree && e.tag.evidence == st.tree[e.tag.source] {
      CompletionTagsBaseline(cfg, history, st, sources, e);
    }
    TaggingIsSafe(cfg, history, st, plan);
    forall from ensures PendingFrom(ExtendAll(history, plan), from) == PendingFrom(history, from) {
      ProofCommitsAreNotPending(history, plan, from);
    }
    assert plan[0] in plan;
    CompletionTagsBaseline(cfg, history, st, sources, plan[0]);
    assert plan[0].tag in Exec(st, plan).tags;
    hide Durable, FindBaseline, PendingFrom, Completion, Exec, ExtendAll, Closer;
    CompletionIsCloser(cfg, history, st, ExtendAll(history, plan), Exec(st, plan), plan[0].tag.source);
  }

  lemma MainRunIsCloser(cfg: Config, history: seq<Commit>, st: Store, inFlight: seq<Source>, selected: seq<Source>,
                        own: Evidence, plan: seq<Effect>)
    requires Durable(cfg, history, st) && st.paid.None? && Selectable(cfg, history, st, selected)
    requires Scanned(st, inFlight, selected)
    requires Timely(st, [], own.submittedAt) && own.submittedAt % 1_000_000 == 0
    requires plan == MainPlan(history, After(FindBaseline(cfg, history, st)), st, inFlight, selected, own)
    requires Refuse !in plan && Durable(cfg, ExtendAll(history, plan), Exec(st, plan))
    ensures Closer(cfg, history, st, ExtendAll(history, plan), Exec(st, plan))
  {
    hide Durable, Timely, Selectable, InFlight, FindBaseline, Safe, Exec, ExtendAll, Uncommitted, Processed, Stamping, Recording;
    var from, chosen := After(FindBaseline(cfg, history, st)), Chosen(inFlight, selected);
    assert Usable(history, from, st, chosen) == |chosen|;
    MainPlanProcesses(cfg, history, from, st, inFlight, selected, own);
    var processed := inFlight + chosen;
    assert processed[0] in processed;
    forall at ensures PendingFrom(ExtendAll(history, plan), at) == PendingFrom(history, at) {
      ProofCommitsAreNotPending(history, plan, at);
    }
    hide MainPlan, PendingFrom, PendingCount, Beyond, IsHuman, Chosen;
    ProcessedIsCloser(cfg, history, st, ExtendAll(history, plan), Exec(st, plan), processed);
  }

  /** The ranking: a run that does something and gets to its end leaves fewer commits pending, or as many
      and a baseline that has its tag at last. */
  lemma RunIsCloser(cfg: Config, history: seq<Commit>, st: Store, clock: int, snapshotAt: int, runAt: int)
    requires Durable(cfg, history, st) && st.paid.None? && Timely(st, [], clock) && clock <= runAt
    requires Plan(cfg, history, st, snapshotAt, runAt) != [] && Refuse !in Plan(cfg, history, st, snapshotAt, runAt)
    ensures var plan := Plan(cfg, history, st, snapshotAt, runAt);
            Closer(cfg, history, st, ExtendAll(history, plan), Exec(st, plan))
  {
    var decision := Decide(cfg, history, st, snapshotAt);
    var baseline := FindBaseline(cfg, history, st);
    var selected := SourcesOf(decision.commits);
    var inFlight := InFlight(st, selected, |history|);
    var plan := Plan(cfg, history, st, snapshotAt, runAt);
    PlanIsSafe(cfg, history, st, clock, snapshotAt, runAt);
    RunKeepsDurable(cfg, history, history, st, plan);
    BaselineIsCommitted(cfg, history, st);
    SelectionIsSelectable(cfg, history, st, snapshotAt);
    ScanFinds(cfg, history, st, selected);
    OwnTimeIsLatest(history, st, clock, runAt);
    hide Durable, Timely, InFlight, Decide, FindBaseline, Pending, After, MainPlan, Completion, Safe, Exec, ExtendAll, Closer,
      Selectable, Uncommitted;
    if selected == [] && inFlight == [] {
      var sources := (if baseline.Some? then [baseline.value.source] else []) + Pending(history, After(baseline));
      CompletionRunIsCloser(cfg, history, st, sources, plan);
    } else {
      var own := Evidence(WholeSeconds(runAt), decision.triggers, 0);
      MainRunIsCloser(cfg, history, st, inFlight, selected, own, plan);
    }
  }

  // ----- over behaviours -----

  function Rank(cfg: Config, history: seq<Commit>, st: Store): nat {
    2 * PendingCount(cfg, history, st) + if Untagged(cfg, history, st) then 1 else 0
  }

  /** The rank a system is heading for: that of its store once the run in progress is through. */
  function Heading(cfg: Config, s: System): nat {
    match s.run
    case None => Rank(cfg, s.history, s.store)
    case Some(r) => Rank(cfg, ExtendAll(s.history, r.todo), Exec(s.store, r.todo))
  }

  /** Nobody else commits meaningfully, no process dies, and a run that starts gets through. */
  predicate Quiet(e: Event, s': System) {
    && !e.HumanCommit? && !e.Die?
    && (e.Start? ==> s'.run.Some? && Refuse !in s'.run.value.todo)
  }

  ghost predicate QuietSpell(states: seq<System>, events: seq<Event>, i: nat, j: nat) {
    j < |states| == |events| + 1 && forall k {:trigger events[k]} :: i <= k < j ==> Quiet(events[k], states[k + 1])
  }

  predicate StartsWork(e: Event, s': System) {
    e.Start? && s'.run.Some? && s'.run.value.todo != []
  }

  lemma UpgradeKeepsRank(cfg: Config, history: seq<Commit>, st: Store, sources: set<Source>)
    requires Durable(cfg, history, st)
    ensures Rank(cfg, history + [Generated([])], st.(lone := st.lone + sources)) == Rank(cfg, history, st)
  {
    var longer, next := history + [Generated([])], st.(lone := st.lone + sources);
    UpgradeKeepsDurable(cfg, history, st, sources);
    BaselineIsFurthest(cfg, history, st);
    BaselineIsFurthest(cfg, longer, next);
    hide Durable, FindBaseline;
    assert longer[..|history|] == history;
    assert forall from :: PendingFrom(longer, from) == PendingFrom(history, from);
  }

  lemma QuietStepKeepsHeading(cfg: Config, s: System, e: Event, s': System)
    requires Inv(cfg, s) && Next(cfg, s, e, s') && Quiet(e, s')
    ensures Heading(cfg, s') + (if StartsWork(e, s') then 1 else 0) <= Heading(cfg, s)
  {
    if e.Start? && s'.run.value.todo != [] {
      RunIsCloser(cfg, s.history, s.store, s.clock, e.snapshotAt, e.runAt);
    } else if e.UpgradeCommit? {
      UpgradeKeepsRank(cfg, s.history, s.store, e.sources);
    }
    hide Durable, Safe, Timely, Plan, Untagged, PendingCount, Stuck, Extend, Apply, FindBaseline;
  }

  /** Runs with something to do among the events from `i` to `j`. */
  function Work(states: seq<System>, events: seq<Event>, i: nat, j: nat): nat
    requires i <= j < |states| == |events| + 1
    decreases j
  {
    if i == j then 0 else Work(states, events, i, j - 1) + if StartsWork(events[j - 1], states[j]) then 1 else 0
  }

  /** From any reachable state, while nobody else commits, at most twice as many runs as there are pending
      commits, and one more for the baseline, find anything to do; every other run is idle. */
  lemma {:induction false} RunsConverge(cfg: Config, states: seq<System>, events: seq<Event>, i: nat, j: nat)
    requires Behaviour(cfg, states, events) && i <= j < |states| && states[i].run.None?
    requires QuietSpell(states, events, i, j)
    ensures Work(states, events, i, j) + Heading(cfg, states[j]) <= Rank(cfg, states[i].history, states[i].store)
    decreases j
  {
    if i < j {
      BehaviourKeepsInv(cfg, states, events, j - 1);
      var s, e := states[j - 1], events[j - 1];
      assert Next(cfg, s, e, states[j]) && Quiet(e, states[j]);
      assert QuietSpell(states, events, i, j - 1);
      hide Behaviour, Path, QuietSpell, Inv, Next, Quiet, StartsWork, Heading, Rank;
      RunsConverge(cfg, states, events, i, j - 1);
      QuietStepKeepsHeading(cfg, s, e, states[j]);
    }
  }
}
