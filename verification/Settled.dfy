/** What a run leaves behind, and when there is nothing left to do. */
module Settled {
  import opened Wire
  import opened Policy
  import opened Protocol
  import opened Safety
  import opened Planning
  import opened Convergence

  /** What the run that this state calls for processes: what is in flight, or else what the decision selects. */
  function Due(cfg: Config, history: seq<Commit>, st: Store, snapshotAt: int): seq<Source> {
    var selected := SourcesOf(Decide(cfg, history, st, snapshotAt).commits);
    var inFlight := InFlight(st, selected, |history|);
    if inFlight != [] then inFlight else selected
  }

  /** A run that does not refuse and gets through has committed and tagged all that was due, and committed nothing else. */
  lemma RunProcesses(cfg: Config, history: seq<Commit>, st: Store, clock: int, snapshotAt: int, runAt: int)
    requires Durable(cfg, history, st) && st.paid.None? && Timely(st, [], clock) && clock <= runAt
    requires Refuse !in Plan(cfg, history, st, snapshotAt, runAt)
    ensures Processed(st, Due(cfg, history, st, snapshotAt), Exec(st, Plan(cfg, history, st, snapshotAt, runAt)))
  {
    var decision, baseline := Decide(cfg, history, st, snapshotAt), FindBaseline(cfg, history, st);
    var selected := SourcesOf(decision.commits);
    var inFlight := InFlight(st, selected, |history|);
    SelectionIsSelectable(cfg, history, st, snapshotAt);
    ScanFinds(cfg, history, st, selected);
    OwnTimeIsLatest(history, st, clock, runAt);
    BaselineIsFurthest(cfg, history, st);
    hide Durable, Timely, Decide, FindBaseline, InFlight, Pending, Selectable, Scanned, MainPlan, Processed, Exec, Usable;
    if selected == [] && inFlight == [] {
      TidyingProcessesNone(cfg, history, st, baseline);
    } else {
      var own := Evidence(WholeSeconds(runAt), decision.triggers, 0);
      MainProcesses(cfg, history, st, inFlight, selected, own);
    }
  }

  lemma MainProcesses(cfg: Config, history: seq<Commit>, st: Store, inFlight: seq<Source>, selected: seq<Source>, own: Evidence)
    requires Durable(cfg, history, st) && st.paid.None? && Timely(st, [], own.submittedAt) && own.submittedAt % 1_000_000 == 0
    requires Selectable(cfg, history, st, selected) && Scanned(st, inFlight, selected)
    requires Refuse !in MainPlan(history, After(FindBaseline(cfg, history, st)), st, inFlight, selected, own)
    ensures Processed(st, if inFlight != [] then inFlight else selected,
                      Exec(st, MainPlan(history, After(FindBaseline(cfg, history, st)), st, inFlight, selected, own)))
  {
    hide *;
    var from := After(FindBaseline(cfg, history, st));
    WholeIsUsable(history, from, st, inFlight, selected, own);
    MainPlanProcesses(cfg, history, from, st, inFlight, selected, own);
    OneOfTheTwo(inFlight, selected);
  }

  lemma OneOfTheTwo(inFlight: seq<Source>, selected: seq<Source>)
    ensures inFlight + Chosen(inFlight, selected) == if inFlight != [] then inFlight else selected
  {
  }

  lemma WholeIsUsable(history: seq<Commit>, from: nat, st: Store, inFlight: seq<Source>, selected: seq<Source>, own: Evidence)
    requires Refuse !in MainPlan(history, from, st, inFlight, selected, own)
    ensures Usable(history, from, st, Chosen(inFlight, selected)) == |Chosen(inFlight, selected)|
  {
    hide Stamping, Usable, Recording;
  }

  lemma TidyingProcessesNone(cfg: Config, history: seq<Commit>, st: Store, baseline: Option<Baseline>)
    requires Durable(cfg, history, st) && baseline == FindBaseline(cfg, history, st) && st.paid.None?
    ensures Processed(st, [], Exec(st, Tidying(history, st, baseline)))
  {
    var plan := Tidying(history, st, baseline);
    BaselineIsFurthest(cfg, history, st);
    var sources := (if baseline.Some? then [baseline.value.source] else []) + Pending(history, After(baseline));
    forall e | e in plan ensures e.CreateTag? && e.tag.source in st.tree && e.tag.evidence == st.tree[e.tag.source] {
      CompletionTagsBaseline(cfg, history, st, sources, e);
    }
    TaggingIsSafe(cfg, history, st, plan);
    hide Durable, Tidying, Exec;
  }

  lemma RecordingIsWork(st: Store, sources: seq<Source>, own: Evidence, processed: seq<Source>)
    requires processed != []
    ensures Stamping(st, sources, own) + Recording(st, processed, own) != []
  {
    assert |Tagging(st, processed, own)| == |processed|;
  }

  /** A run finds nothing to do exactly when the decision selects nothing, no pair is in flight, and the newest
      stamp has its tag. */
  lemma IdleExactly(cfg: Config, history: seq<Commit>, st: Store, snapshotAt: int, runAt: int)
    requires Durable(cfg, history, st)
    ensures Plan(cfg, history, st, snapshotAt, runAt) == []
       <==> Due(cfg, history, st, snapshotAt) == [] && !Untagged(cfg, history, st)
  {
    var decision, baseline := Decide(cfg, history, st, snapshotAt), FindBaseline(cfg, history, st);
    var selected := SourcesOf(decision.commits);
    var inFlight := InFlight(st, selected, |history|);
    hide Durable, Decide, FindBaseline, InFlight, Pending, Tagged, Stamping, Recording, Usable, Tidying;
    if selected == [] && inFlight == [] {
      TidyingIsIdle(cfg, history, st, baseline);
    } else {
      var own := Evidence(WholeSeconds(runAt), decision.triggers, 0);
      RecordingIsWork(st, Chosen(inFlight, selected), own, inFlight + Chosen(inFlight, selected));
    }
  }

  lemma TidyingIsIdle(cfg: Config, history: seq<Commit>, st: Store, baseline: Option<Baseline>)
    requires Durable(cfg, history, st) && baseline == FindBaseline(cfg, history, st)
    ensures Tidying(history, st, baseline) == [] <==> !Untagged(cfg, history, st)
  {
    BaselineIsFurthest(cfg, history, st);
    var sources := (if baseline.Some? then [baseline.value.source] else []) + Pending(history, After(baseline));
    CompletionOnlyTags(history, After(baseline), st, sources);
    PendingIsMeaningful(history, After(baseline));
    var plan := Completion(history, After(baseline), st, sources);
    hide Durable, FindBaseline, Completion, Tagged;
    assert Tidying(history, st, baseline) == plan;
    if plan != [] {
      assert plan[0] in plan;
    } else if baseline.Some? {
      assert sources[0] == baseline.value.source;
    }
  }
}
