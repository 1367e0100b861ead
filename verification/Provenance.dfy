/** Every stamp was called for by a decision. */
module Provenance {
  import opened Wire
  import opened Policy
  import opened Protocol
  import opened Safety
  import opened Planning
  import opened Runs

  /** The run begun by this step decided to stamp this source, with nothing in flight, and this is what it records of it:
      when it ran, the triggers that fired, and the proof. */
  ghost predicate CalledFor(cfg: Config, s: System, e: Event, c: Source, evidence: Evidence) {
    && e.Start?
    && var d := Decide(cfg, s.history, s.store, e.snapshotAt);
       && c in SourcesOf(d.commits)
       && InFlight(s.store, SourcesOf(d.commits), |s.history|) == []
       && !Complete(s.store, c)
       && evidence == Evidence(WholeSeconds(e.runAt), d.triggers, c)
  }

  ghost predicate Called(cfg: Config, states: seq<System>, events: seq<Event>, n: nat, c: Source, evidence: Evidence)
    requires n <= |events| && |states| == |events| + 1
  {
    exists k: nat :: k < n && CalledFor(cfg, states[k], events[k], c, evidence)
  }

  lemma {:induction false} StampingWrites(st: Store, sources: seq<Source>, own: Evidence, c: Source, evidence: Evidence)
    requires WriteManifest(c, evidence) in Stamping(st, sources, own)
    ensures c in sources && !Complete(st, c) && evidence == own.(proof := c)
    decreases |sources|
  {
    var before, last := sources[..|sources| - 1], sources[|sources| - 1];
    if WriteManifest(c, evidence) in Stamping(st, before, own) {
      StampingWrites(st, before, own, c, evidence);
    }
  }

  lemma RecordingWritesNone(st: Store, processed: seq<Source>, own: Evidence, e: Effect)
    requires e in Recording(st, processed, own)
    ensures !e.WriteManifest?
  {
  }

  lemma MainPlanWrites(history: seq<Commit>, from: nat, st: Store, inFlight: seq<Source>, selected: seq<Source>, own: Evidence,
                       c: Source, evidence: Evidence)
    requires WriteManifest(c, evidence) in MainPlan(history, from, st, inFlight, selected, own)
    ensures inFlight == [] && c in selected && !Complete(st, c) && evidence == own.(proof := c)
  {
    var chosen := Chosen(inFlight, selected);
    var n := Usable(history, from, st, chosen);
    if n < |chosen| {
      StampingWrites(st, chosen[..n], own, c, evidence);
    } else if WriteManifest(c, evidence) in Stamping(st, chosen, own) {
      StampingWrites(st, chosen, own, c, evidence);
    } else {
      RecordingWritesNone(st, inFlight + chosen, own, WriteManifest(c, evidence));
    }
  }

  lemma {:induction false} CompletionWritesNone(history: seq<Commit>, from: nat, st: Store, sources: seq<Source>, e: Effect)
    requires e in Completion(history, from, st, sources)
    ensures !e.WriteManifest?
    decreases |sources|
  {
    hide Claimed, Tagged;
    if e !in CompleteOne(history, from, st, sources[0]) {
      CompletionWritesNone(history, from, st, sources[1..], e);
    }
  }

  lemma PlanWrites(cfg: Config, s: System, snapshotAt: int, runAt: int, c: Source, evidence: Evidence)
    requires WriteManifest(c, evidence) in Plan(cfg, s.history, s.store, snapshotAt, runAt)
    ensures CalledFor(cfg, s, Start(snapshotAt, runAt), c, evidence)
  {
    hide Decide, FindBaseline, MainPlan, Completion, Pending;
    var d, baseline := Decide(cfg, s.history, s.store, snapshotAt), FindBaseline(cfg, s.history, s.store);
    var selected := SourcesOf(d.commits);
    var inFlight := InFlight(s.store, selected, |s.history|);
    if selected == [] && inFlight == [] {
      var sources := (if baseline.Some? then [baseline.value.source] else []) + Pending(s.history, After(baseline));
      if WriteManifest(c, evidence) in Completion(s.history, After(baseline), s.store, sources) {
        CompletionWritesNone(s.history, After(baseline), s.store, sources, WriteManifest(c, evidence));
      }
    } else {
      MainPlanWrites(s.history, After(baseline), s.store, inFlight, selected,
                     Evidence(WholeSeconds(runAt), d.triggers, 0), c, evidence);
    }
  }

  /** All that is recorded, and all that a run in progress has yet to record, was called for. */
  ghost predicate AllCalled(cfg: Config, states: seq<System>, events: seq<Event>, n: nat)
    requires n <= |events| && |states| == |events| + 1
  {
    && (forall c :: c in states[n].store.manifests ==> Called(cfg, states, events, n, c, states[n].store.manifests[c]))
    && (states[n].run.Some? ==>
          forall c, evidence :: WriteManifest(c, evidence) in states[n].run.value.todo ==> Called(cfg, states, events, n, c, evidence))
  }

  lemma StepKeepsCalled(cfg: Config, states: seq<System>, events: seq<Event>, n: nat)
    requires Path(cfg, states, events) && n < |events| && AllCalled(cfg, states, events, n)
    ensures AllCalled(cfg, states, events, n + 1)
  {
    hide CalledFor, Plan, Stuck;
    var s, e, s' := states[n], events[n], states[n + 1];
    assert Next(cfg, s, e, s');
    forall c, evidence | Called(cfg, states, events, n, c, evidence) ensures Called(cfg, states, events, n + 1, c, evidence) {
    }
    if e.Start? {
      forall c, evidence | WriteManifest(c, evidence) in s'.run.value.todo ensures Called(cfg, states, events, n + 1, c, evidence) {
        PlanWrites(cfg, s, e.snapshotAt, e.runAt, c, evidence);
      }
    }
  }

  lemma {:induction false} BehaviourKeepsCalled(cfg: Config, states: seq<System>, events: seq<Event>, n: nat)
    requires Behaviour(cfg, states, events) && n <= |events|
    ensures AllCalled(cfg, states, events, n)
  {
    if n > 0 {
      BehaviourKeepsCalled(cfg, states, events, n - 1);
      hide AllCalled;
      StepKeepsCalled(cfg, states, events, n - 1);
    }
  }

  /** Whatever a manifest or a tag says of a source, some earlier run decided it: that run selected the source when
      it had no pair and nothing was in flight, and the record says, to the second, when that run was and which
      triggers had fired. */
  lemma StampsWereCalledFor(cfg: Config, states: seq<System>, events: seq<Event>, n: nat, c: Source)
    requires Behaviour(cfg, states, events) && n <= |events|
    ensures c in states[n].store.manifests ==> Called(cfg, states, events, n, c, states[n].store.manifests[c])
    ensures forall k: nat :: k < |states[n].store.tags| ==>
              var tag := states[n].store.tags[k]; Called(cfg, states, events, n, tag.source, tag.evidence)
  {
    hide Called;
    BehaviourKeepsCalled(cfg, states, events, n);
    forall k: nat | k < |states[n].store.tags|
      ensures var tag := states[n].store.tags[k]; Called(cfg, states, events, n, tag.source, tag.evidence)
    {
      TagsRepeatManifests(cfg, states, events, n, k);
    }
  }
}
