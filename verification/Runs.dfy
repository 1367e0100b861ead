/** The invariant over every behaviour, and what it gives. */
module Runs {
  import opened Wire
  import opened Policy
  import opened Protocol
  import opened Safety
  import opened Planning

  // Stamps advance along history, nothing is paid for twice, tags are faithful, blocked runs do not pile up debt.

  lemma StartKeepsInv(cfg: Config, s: System, snapshotAt: int, runAt: int, s': System)
    requires Inv(cfg, s) && Next(cfg, s, Start(snapshotAt, runAt), s')
    ensures Inv(cfg, s')
  {
    hide Durable, Safe, Timely, Plan;
    assert s.history[..|s.history|] == s.history;
    PlanIsSafe(cfg, s.history, s.store, s.clock, snapshotAt, runAt);
  }

  lemma EffectKeepsTimely(cfg: Config, seen: seq<Commit>, st: Store, todo: seq<Effect>, clock: int)
    requires todo != [] && Timely(st, todo, clock)
    ensures Timely(Apply(st, todo[0]), todo[1..], clock)
  {
    assert todo[0].WriteManifest? ==> todo[0].evidence.submittedAt <= clock;
    assert forall i :: 0 <= i < |todo[1..]| ==> todo[1..][i] == todo[i + 1];
  }

  lemma DoKeepsInv(cfg: Config, s: System, s': System)
    requires Inv(cfg, s) && Next(cfg, s, Do, s')
    ensures Inv(cfg, s')
  {
    var r := s.run.value;
    var seen := s.history[..r.frozen];
    assert Enabled(cfg, seen, s.store, r.todo[0]);
    hide Durable, Timely, Apply, Enabled;
    EffectKeepsDurable(cfg, s.history, seen, s.store, r.todo[0]);
    EffectKeepsTimely(cfg, seen, s.store, r.todo, s.clock);
    assert Extend(s.history, r.todo[0])[..r.frozen] == seen;
  }

  lemma CommitKeepsInv(cfg: Config, s: System, commit: Commit, s': System)
    requires Inv(cfg, s) && (commit.Generated? ==> commit.sources == []) && s' == s.(history := s.history + [commit])
    ensures Inv(cfg, s')
  {
    assert s.run.Some? ==> s'.history[..s.run.value.frozen] == s.history[..s.run.value.frozen];
    hide Sound, Orderly, Safe, Timely;
    CommitElsewhereKeepsSound(s.history, s.store, commit);
    CommitElsewhereKeepsOrder(cfg, s.history, s.store, commit);
  }

  /** The invariant survives every step: whoever commits, whatever an upgrade touches, wherever a run dies. */
  lemma StepKeepsInv(cfg: Config, s: System, e: Event, s': System)
    requires Inv(cfg, s) && Next(cfg, s, e, s')
    ensures Inv(cfg, s')
  {
    hide Durable;
    match e
    case HumanCommit(t) =>
      CommitKeepsInv(cfg, s, Human(t), s');
    case UpgradeCommit(sources) =>
      UpgradeKeepsDurable(cfg, s.history, s.store, sources);
    case Wait(to) =>
    case Start(snapshotAt, runAt) =>
      StartKeepsInv(cfg, s, snapshotAt, runAt, s');
    case Do =>
      DoKeepsInv(cfg, s, s');
    case Die =>
      AbandonKeepsDurable(cfg, s.history, s.store);
    case Finish =>
  }

  // ----- over behaviours -----

  lemma {:induction false} PathKeepsInv(cfg: Config, states: seq<System>, events: seq<Event>, i: nat)
    requires Path(cfg, states, events) && Inv(cfg, states[0]) && i < |states|
    ensures Inv(cfg, states[i])
    decreases i
  {
    if i > 0 {
      PathKeepsInv(cfg, states, events, i - 1);
      assert Next(cfg, states[i - 1], events[i - 1], states[i]);
      hide Inv, Next;
      StepKeepsInv(cfg, states[i - 1], events[i - 1], states[i]);
    }
  }

  lemma BehaviourKeepsInv(cfg: Config, states: seq<System>, events: seq<Event>, i: nat)
    requires Behaviour(cfg, states, events) && i < |states|
    ensures Inv(cfg, states[i])
  {
    PathKeepsInv(cfg, states, events, i);
  }

  /** Nothing durable is ever taken back or changed, and no source that has a proof is submitted again. */
  ghost predicate Keeps(st: Store, st': Store) {
    && st.proofs <= st'.proofs && st.lone <= st'.lone && st.tags <= st'.tags
    && (forall c :: c in st.manifests ==> c in st'.manifests && st'.manifests[c] == st.manifests[c])
    && (forall c :: c in st.tree ==> c in st'.tree && st'.tree[c] == st.tree[c])
    && (forall c :: c in st.proofs ==> st'.submissions[c] == st.submissions[c])
  }

  lemma EffectKeepsRecord(cfg: Config, history: seq<Commit>, seen: seq<Commit>, st: Store, e: Effect)
    requires Recorded(history, st) && Enabled(cfg, seen, st, e)
    ensures Keeps(st, Apply(st, e))
  {
    hide TakesAll;
  }

  lemma StepKeepsRecord(cfg: Config, s: System, e: Event, s': System)
    requires Inv(cfg, s) && Next(cfg, s, e, s')
    ensures Keeps(s.store, s'.store) && s.history <= s'.history && s.clock <= s'.clock
  {
    if e.Do? {
      EffectKeepsRecord(cfg, s.history, s.history[..s.run.value.frozen], s.store, s.run.value.todo[0]);
      hide Apply, Keeps, Enabled, Durable, Timely;
    } else {
      hide Durable, Timely, Safe;
    }
  }

  lemma KeepsIsTransitive(a: Store, b: Store, c: Store)
    requires Keeps(a, b) && Keeps(b, c)
    ensures Keeps(a, c)
  {
  }

  lemma {:induction false} RecordIsPermanent(cfg: Config, states: seq<System>, events: seq<Event>, i: nat, j: nat)
    requires Behaviour(cfg, states, events) && i <= j < |states|
    ensures Keeps(states[i].store, states[j].store)
    ensures states[i].history <= states[j].history && states[i].clock <= states[j].clock
    decreases j
  {
    if i < j {
      assert Next(cfg, states[j - 1], events[j - 1], states[j]);
      hide Inv, Next, Keeps, Behaviour;
      RecordIsPermanent(cfg, states, events, i, j - 1);
      BehaviourKeepsInv(cfg, states, events, j - 1);
      StepKeepsRecord(cfg, states[j - 1], events[j - 1], states[j]);
      KeepsIsTransitive(states[i].store, states[j - 1].store, states[j].store);
    } else {
      assert states[i].history <= states[j].history;
    }
  }

  /** In every reachable state recorded submission times never decrease along the history, and the
      baseline, picked by time, is the furthest source committed. */
  lemma StampsAdvance(cfg: Config, states: seq<System>, events: seq<Event>, i: nat)
    requires Behaviour(cfg, states, events) && i < |states|
    ensures var st := states[i].store;
            && (forall a, b :: a in st.manifests && b in st.manifests && a < b
                  ==> st.manifests[a].submittedAt <= st.manifests[b].submittedAt)
            && var b := FindBaseline(cfg, states[i].history, st);
               && (b.None? <==> st.tree == map[])
               && (b.Some? ==> b.value.source in st.tree && b.value.evidence == st.tree[b.value.source]
                               && forall c :: c in st.tree ==> c <= b.value.source)
  {
    BehaviourKeepsInv(cfg, states, events, i);
    BaselineIsFurthest(cfg, states[i].history, states[i].store);
  }

  /** How many processes died with an unsaved submission for this source. */
  ghost function DeathsHolding(states: seq<System>, events: seq<Event>, c: Source, n: nat): nat
    requires n <= |events| && |states| == |events| + 1
  {
    if n == 0 then 0
    else DeathsHolding(states, events, c, n - 1)
         + if events[n - 1].Die? && states[n - 1].store.paid == Some(c) then 1 else 0
  }

  lemma DeathLoses(cfg: Config, s: System, e: Event, s': System, c: Source)
    requires Next(cfg, s, e, s')
    ensures s'.store.lost[c] == s.store.lost[c] + if e.Die? && s.store.paid == Some(c) then 1 else 0
  {
    hide Plan, Stuck;
  }

  lemma {:induction false} LostIsDeaths(cfg: Config, states: seq<System>, events: seq<Event>, c: Source, n: nat)
    requires Behaviour(cfg, states, events) && n < |states|
    ensures states[n].store.lost[c] == DeathsHolding(states, events, c, n)
  {
    if n > 0 {
      LostIsDeaths(cfg, states, events, c, n - 1);
      DeathLoses(cfg, states[n - 1], events[n - 1], states[n], c);
      hide Next;
    }
  }

  /** The calendars are sent each source at most once, and once more for every process that died between
      the submission and the proof file: a source with a proof file is never submitted again. */
  lemma NothingIsPaidTwice(cfg: Config, states: seq<System>, events: seq<Event>, c: Source, n: nat)
    requires Behaviour(cfg, states, events) && n < |states|
    ensures var st := states[n].store;
            && st.submissions[c] == DeathsHolding(states, events, c, n)
                                    + (if c in st.proofs || st.paid == Some(c) then 1 else 0)
            && (c in st.proofs ==> forall m :: n <= m < |states| ==>
                  states[m].store.submissions[c] == st.submissions[c])
  {
    OwedOnce(cfg, states, events, c, n);
    if c in states[n].store.proofs {
      forall m | n <= m < |states| ensures states[m].store.submissions[c] == states[n].store.submissions[c] {
        RecordIsPermanent(cfg, states, events, n, m);
      }
    }
  }

  lemma OwedOnce(cfg: Config, states: seq<System>, events: seq<Event>, c: Source, n: nat)
    requires Behaviour(cfg, states, events) && n < |states|
    ensures var st := states[n].store;
            && st.submissions[c] == DeathsHolding(states, events, c, n)
                                    + (if c in st.proofs || st.paid == Some(c) then 1 else 0)
            && !(c in st.proofs && st.paid == Some(c))
  {
    BehaviourKeepsInv(cfg, states, events, n);
    LostIsDeaths(cfg, states, events, c, n);
    assert Ledger(states[n].store);
  }

  lemma NewTagIsCommitted(cfg: Config, s: System, e: Event, s': System, k: nat)
    requires Inv(cfg, s) && Next(cfg, s, e, s') && |s.store.tags| <= k < |s'.store.tags|
    ensures s'.store.tags[k].source in s.store.tree
  {
    assert e.Do?;
    assert Enabled(cfg, s.history[..s.run.value.frozen], s.store, s.run.value.todo[0]);
    hide Durable, Safe, Timely;
  }

  /** In every reachable state every tag repeats, to the second, the manifest of its own source, and the
      pair is committed; so it was before the tag. */
  lemma TagsRepeatManifests(cfg: Config, states: seq<System>, events: seq<Event>, i: nat, k: nat)
    requires Behaviour(cfg, states, events) && i < |states| && k < |states[i].store.tags|
    ensures var st, tag := states[i].store, states[i].store.tags[k];
            && tag.source in st.tree && tag.source in st.manifests && tag.source in st.proofs
            && tag.evidence == st.tree[tag.source] == st.manifests[tag.source]
            && tag.evidence.proof == tag.source
    ensures i > 0 && k >= |states[i - 1].store.tags| ==>
              states[i].store.tags[k].source in states[i - 1].store.tree
  {
    BehaviourKeepsInv(cfg, states, events, i);
    if i > 0 {
      BehaviourKeepsInv(cfg, states, events, i - 1);
      var s, e := states[i - 1], events[i - 1];
      assert Next(cfg, s, e, states[i]);
      if k >= |s.store.tags| {
        NewTagIsCommitted(cfg, s, e, states[i], k);
      }
    }
    hide Behaviour, Path, Next, Orderly, Ledger, Claims;
  }

  /** Under an aggregate policy at most one complete pair is ever waiting to be recorded, however often proof
      commits fail and wherever HEAD moves, and it comes after every other: only pairs whose proof an upgrade has
      committed can be left behind. */
  lemma DebtNeverAccumulates(cfg: Config, states: seq<System>, events: seq<Event>, i: nat, a: Source, b: Source)
    requires Behaviour(cfg, states, events) && i < |states| && !cfg.policy.everyCommit
    requires var st := states[i].store; Complete(st, a) && !ProofStored(st, a) && Complete(st, b)
    ensures b <= a
  {
    BehaviourKeepsInv(cfg, states, events, i);
    var st := states[i].store;
    assert Unrecorded(st, a) && LastChosen(states[i].history, st);
  }

  /** No tag a run sets out to create collides with another. */
  lemma TagsNeverCollide(cfg: Config, states: seq<System>, events: seq<Event>, i: nat)
    requires Behaviour(cfg, states, events) && i < |states|
    ensures var s := states[i];
            (s.run.Some? && s.run.value.todo != [] && s.run.value.todo[0].CreateTag?)
            ==> !Collides(s.store, s.run.value.todo[0].tag)
  {
    BehaviourKeepsInv(cfg, states, events, i);
  }
}
