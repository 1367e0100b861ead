/** `run` itself: the loops that carry out a plan one effect at a time, in a process that may die between
    any two. Each is proved to follow its part of the plan exactly as far as it lives. The plan is frozen at
    the snapshot; the loops look at the store as it is when they get there, and what they see agrees with the
    plan because no effect of a run touches what a later one still has to look at. */
module Runner {
  import opened Wire
  import opened Policy
  import opened Protocol
  import opened Safety
  import opened Planning
  import opened Runs
  import opened Paths

  /** What a process sees and how many more effects it lives to carry out. */
  datatype Process = Process(history: seq<Commit>, store: Store, budget: nat)

  datatype RunOutcome = RunOutcome(
    timestamped: seq<Source>, tagged: seq<Source>, committed: seq<Source>, deferred: seq<Source>)
  {
    predicate Changed() {
      timestamped != [] || tagged != [] || committed != []
    }
  }

  /** These effects, and nothing else, lie between the two. */
  ghost predicate Reached(before: Process, done: seq<Effect>, after: Process) {
    && before.budget == after.budget + |done|
    && after.history == ExtendAll(before.history, done) && after.store == Exec(before.store, done)
  }

  /** A plan was followed to its end, or up to the effect at which the process died or had to stop. */
  ghost predicate Followed(before: Process, plan: seq<Effect>, done: seq<Effect>, ok: bool, after: Process) {
    && Reached(before, done, after)
    && if ok then done == plan && Refuse !in plan
       else |done| < |plan| && done <= plan && (after.budget == 0 || Stuck(after.store, plan[|done|]))
  }

  lemma {:induction false} ExtendAllConcat(history: seq<Commit>, a: seq<Effect>, b: seq<Effect>)
    ensures ExtendAll(history, a + b) == ExtendAll(ExtendAll(history, a), b)
    decreases a
  {
    if a == [] {
      assert a + b == b;
    } else {
      assert (a + b)[1..] == a[1..] + b;
      ExtendAllConcat(Extend(history, a[0]), a[1..], b);
    }
  }

  lemma FollowedThen(a: Process, plan: seq<Effect>, b: Process, more: seq<Effect>, done: seq<Effect>, ok: bool, c: Process)
    requires Followed(a, plan, plan, true, b) && Followed(b, more, done, ok, c)
    ensures Followed(a, plan + more, plan + done, ok, c)
  {
    ExecConcat(a.store, plan, done);
    ExtendAllConcat(a.history, plan, done);
  }

  lemma FollowedShort(a: Process, plan: seq<Effect>, done: seq<Effect>, b: Process, longer: seq<Effect>)
    requires Followed(a, plan, done, false, b) && plan <= longer
    ensures Followed(a, longer, done, false, b)
  {
  }

  /** The sources that these effects tag. */
  function TagsIn(effects: seq<Effect>): seq<Source> {
    if effects == [] then []
    else (if effects[0].CreateTag? then [effects[0].tag.source] else []) + TagsIn(effects[1..])
  }

  /** The sources that these effects commit. */
  function CommitsIn(effects: seq<Effect>): seq<Source> {
    if effects == [] then []
    else (if effects[0].CommitProofs? then effects[0].sources else []) + CommitsIn(effects[1..])
  }

  /** The sources that these effects submit. */
  function SubmittedIn(effects: seq<Effect>): seq<Source> {
    if effects == [] then []
    else (if effects[0].Submit? then [effects[0].c] else []) + SubmittedIn(effects[1..])
  }

  lemma {:induction false} TagsInConcat(a: seq<Effect>, b: seq<Effect>)
    ensures TagsIn(a + b) == TagsIn(a) + TagsIn(b)
  {
    if a == [] {
      assert a + b == b;
    } else {
      assert (a + b)[1..] == a[1..] + b && (a + b)[0] == a[0];
      TagsInConcat(a[1..], b);
      var first, rest, more := if a[0].CreateTag? then [a[0].tag.source] else [], TagsIn(a[1..]), TagsIn(b);
      assert TagsIn(a + b) == first + (rest + more) && TagsIn(a) == first + rest;
      hide TagsIn;
    }
  }

  lemma {:induction false} CommitsInConcat(a: seq<Effect>, b: seq<Effect>)
    ensures CommitsIn(a + b) == CommitsIn(a) + CommitsIn(b)
  {
    if a == [] {
      assert a + b == b;
    } else {
      assert (a + b)[1..] == a[1..] + b && (a + b)[0] == a[0];
      CommitsInConcat(a[1..], b);
      var first, rest, more := if a[0].CommitProofs? then a[0].sources else [], CommitsIn(a[1..]), CommitsIn(b);
      assert CommitsIn(a + b) == first + (rest + more) && CommitsIn(a) == first + rest;
      hide CommitsIn;
    }
  }

  lemma {:induction false} SubmittedInConcat(a: seq<Effect>, b: seq<Effect>)
    ensures SubmittedIn(a + b) == SubmittedIn(a) + SubmittedIn(b)
  {
    if a == [] {
      assert a + b == b;
    } else {
      assert (a + b)[1..] == a[1..] + b && (a + b)[0] == a[0];
      SubmittedInConcat(a[1..], b);
      var first, rest, more := if a[0].Submit? then [a[0].c] else [], SubmittedIn(a[1..]), SubmittedIn(b);
      assert SubmittedIn(a + b) == first + (rest + more) && SubmittedIn(a) == first + rest;
      hide SubmittedIn;
    }
  }

  lemma InConcat(a: seq<Effect>, b: seq<Effect>)
    ensures TagsIn(a + b) == TagsIn(a) + TagsIn(b) && CommitsIn(a + b) == CommitsIn(a) + CommitsIn(b)
  {
    TagsInConcat(a, b);
    CommitsInConcat(a, b);
  }

  lemma {:induction false} InStamping(st: Store, sources: seq<Source>, own: Evidence)
    ensures TagsIn(Stamping(st, sources, own)) == [] && CommitsIn(Stamping(st, sources, own)) == []
  {
    if sources != [] {
      var c := sources[|sources| - 1];
      InStamping(st, sources[..|sources| - 1], own);
      InConcat(Stamping(st, sources[..|sources| - 1], own), Stamp(st, c, own));
      if !Complete(st, c) {
        var proof, manifest := WriteProof(c), WriteManifest(c, own.(proof := c));
        assert [Submit(c), proof, manifest][1..] == [proof, manifest] && [proof, manifest][1..] == [manifest];
        assert [manifest][1..] == [] && TagsIn([proof, manifest]) == TagsIn([manifest]) == [];
        assert CommitsIn([proof, manifest]) == CommitsIn([manifest]) == [];
      }
    }
  }

  lemma {:induction false} InTagging(st: Store, sources: seq<Source>, own: Evidence)
    ensures TagsIn(Tagging(st, sources, own)) == sources && CommitsIn(Tagging(st, sources, own)) == []
  {
    if sources != [] {
      assert Tagging(st, sources, own)[1..] == Tagging(st, sources[1..], own);
      InTagging(st, sources[1..], own);
    }
  }

  lemma InRecording(st: Store, processed: seq<Source>, own: Evidence)
    ensures TagsIn(Recording(st, processed, own)) == processed
    ensures CommitsIn(Recording(st, processed, own)) == if forall c | c in processed :: c in st.tree then [] else processed
  {
    InTagging(st, processed, own);
    var commits := if forall c | c in processed :: c in st.tree then [] else [CommitProofs(processed)];
    InConcat(commits, Tagging(st, processed, own));
    assert commits != [] ==> commits[1..] == [];
  }

  // ----- what is newly submitted -----

  lemma {:induction false} SubmitsNothing(effects: seq<Effect>)
    requires forall e :: e in effects ==> !e.Submit?
    ensures SubmittedIn(effects) == []
  {
    if effects != [] {
      assert effects[0] in effects && forall e :: e in effects[1..] ==> e in effects;
      SubmitsNothing(effects[1..]);
    }
  }

  /** The sources among these whose pair is not there yet. */
  function NotRecovered(st: Store, sources: seq<Source>): (r: seq<Source>)
    ensures |r| <= |sources| && forall c :: c in r <==> c in sources && !Complete(st, c)
    ensures r == sources <==> forall c :: c in sources ==> !Complete(st, c)
  {
    if sources == [] then []
    else
      var before, c := NotRecovered(st, sources[..|sources| - 1]), sources[|sources| - 1];
      assert sources == sources[..|sources| - 1] + [c];
      if Complete(st, c) then before else before + [c]
  }

  lemma {:induction false} SubmittedInStamping(st: Store, sources: seq<Source>, own: Evidence)
    ensures SubmittedIn(Stamping(st, sources, own)) == NotRecovered(st, sources)
  {
    if sources != [] {
      var before, c := sources[..|sources| - 1], sources[|sources| - 1];
      SubmittedInStamping(st, before, own);
      SubmittedInStamp(st, c, own);
      SubmittedInConcat(Stamping(st, before, own), Stamp(st, c, own));
      hide SubmittedIn, Stamp;
    }
  }

  lemma SubmittedInStamp(st: Store, c: Source, own: Evidence)
    ensures SubmittedIn(Stamp(st, c, own)) == if Complete(st, c) then [] else [c]
  {
    if !Complete(st, c) {
      var rest := [WriteProof(c), WriteManifest(c, own.(proof := c))];
      assert Stamp(st, c, own)[1..] == rest;
      SubmitsNothing(rest);
    }
  }

  /** A main plan submits, in order, what was chosen and not recovered; so what a run reports as newly submitted is
      that if and only if no chosen source had its pair already. */
  lemma MainPlanSubmits(frozen: seq<Commit>, from: nat, st: Store, inFlight: seq<Source>, selected: seq<Source>, own: Evidence)
    requires Usable(frozen, from, st, Chosen(inFlight, selected)) == |Chosen(inFlight, selected)|
    ensures var submitted := SubmittedIn(MainPlan(frozen, from, st, inFlight, selected, own));
            var chosen := Chosen(inFlight, selected);
            && submitted == NotRecovered(st, chosen)
            && (submitted == chosen <==> forall c :: c in chosen ==> !Complete(st, c))
  {
    var chosen := Chosen(inFlight, selected);
    var stamping, recording := Stamping(st, chosen, own), Recording(st, inFlight + chosen, own);
    SubmitsNothing(recording);
    SubmittedInStamping(st, chosen, own);
    SubmittedInConcat(stamping, recording);
    assert MainPlan(frozen, from, st, inFlight, selected, own) == stamping + recording;
    hide MainPlan, Stamping, Recording, Usable, SubmittedIn, NotRecovered;
    assert SubmittedIn(stamping) + [] == SubmittedIn(stamping);
  }

  lemma {:induction false} TidyingSubmitsNothing(history: seq<Commit>, st: Store, baseline: Option<Baseline>)
    ensures SubmittedIn(Tidying(history, st, baseline)) == []
  {
    CompletionSubmitsNothing(history, After(baseline), st,
                             (if baseline.Some? then [baseline.value.source] else []) + Pending(history, After(baseline)));
    SubmitsNothing(Tidying(history, st, baseline));
  }

  lemma {:induction false} CompletionSubmitsNothing(history: seq<Commit>, from: nat, st: Store, sources: seq<Source>)
    ensures forall e :: e in Completion(history, from, st, sources) ==> !e.Submit?
  {
    if sources != [] {
      CompletionSubmitsNothing(history, from, st, sources[1..]);
    }
  }

  lemma RecoveringSubmitsNothing(history: seq<Commit>, from: nat, st: Store, c: Source, own: Evidence)
    requires Complete(st, c)
    ensures SubmittedIn(MainPlan(history, from, st, [], [c], own)) == [] && Refuse !in MainPlan(history, from, st, [], [c], own)
  {
    assert [c][..0] == [] && [c][..1] == [c] && Chosen([], [c]) == [c];
    assert Usable(history, from, st, []) == 0 && Usable(history, from, st, [c]) == 1;
    assert Stamping(st, [], own) == [] && Stamping(st, [c], own) == [];
    MainPlanSubmits(history, from, st, [], [c], own);
    assert NotRecovered(st, [c]) == NotRecovered(st, []) == [];
  }

  lemma NothingButTheOne(st: Store)
    ensures InFlight(st, [0], 1) == []
  {
    assert InFlight(st, [0], 0) == [];
  }

  lemma SelectsTheOne(cfg: Config, history: seq<Commit>, st: Store, now: int)
    requires !cfg.policy.everyCommit && Sound(history, st) && |history| == 1
    requires Decide(cfg, history, st, now).triggers != {}
    ensures SourcesOf(Decide(cfg, history, st, now).commits) == [0]
  {
    hide Sound, Decide, FindBaseline, PendingFrom, LatestIndex, After;
    var from := After(FindBaseline(cfg, history, st));
    DecisionSelects(cfg, history, st, now);
    PendingIsMeaningful(history, from);
    var pending := PendingFrom(history, from);
    assert Pending(history, from)[LatestIndex(pending)] == pending[LatestIndex(pending)].source;
  }

  /** What a run does in a repository with one commit whose pair is there, once anything is due. */
  lemma RecoversTheOne(cfg: Config, history: seq<Commit>, st: Store, now: int)
    requires !cfg.policy.everyCommit && Sound(history, st) && |history| == 1 && Complete(st, 0)
    requires Decide(cfg, history, st, now).triggers != {}
    ensures var selected := SourcesOf(Decide(cfg, history, st, now).commits);
            selected == [0] && InFlight(st, selected, 1) == []
    ensures SubmittedIn(Plan(cfg, history, st, now, now)) == [] && Refuse !in Plan(cfg, history, st, now, now)
  {
    hide Sound, Decide, FindBaseline, PendingFrom, MainPlan, InFlight, LatestIndex, After, SubmittedIn, Complete;
    SelectsTheOne(cfg, history, st, now);
    NothingButTheOne(st);
    var from, own := After(FindBaseline(cfg, history, st)), Evidence(WholeSeconds(now), Decide(cfg, history, st, now).triggers, 0);
    RecoveringSubmitsNothing(history, from, st, 0, own);
    hide WholeSeconds;
    assert Plan(cfg, history, st, now, now) == MainPlan(history, from, st, [], [0], own);
  }

  /** A run dies after its manifest, and the next one recovers the pair: it reports as newly submitted what it did
      not submit. */
  lemma RecoveredIsReported(cfg: Config) returns (states: seq<System>, events: seq<Event>, now: int)
    requires !cfg.policy.everyCommit && FiresAgain(cfg.policy)
    ensures Behaviour(cfg, states, events)
    ensures var s := states[|events|];
            var selected := SourcesOf(Decide(cfg, s.history, s.store, now).commits);
            && s.run.None? && s.clock <= now && Refuse !in Plan(cfg, s.history, s.store, now, now)
            && Chosen(InFlight(s.store, selected, |s.history|), selected) == [0]
            && SubmittedIn(Plan(cfg, s.history, s.store, now, now)) == []
  {
    hide FiresAgain, Decide, FindBaseline, LaterThanAll, Plan, SubmittedIn, InFlight, AllStray;
    assert AllStray(START.store) by { FromStart(); }
    assert Sound(START.history, START.store);
    hide Sound;
    states, events := Blocked(cfg, START);
    var s := states[|events|];
    assert Behaviour(cfg, states, events) && s.store.manifests.Keys == {0};
    DueAfterOne(cfg, states, events);
    now := EventuallyDue(cfg, s.history, s.store, s.clock);
    RecoversTheOne(cfg, s.history, s.store, now);
  }

  lemma FromStart()
    ensures AllStray(START.store)
  {
  }

  lemma DueAfterOne(cfg: Config, states: seq<System>, events: seq<Event>)
    requires Behaviour(cfg, states, events)
    requires var s := states[|events|]; s.store.tree == map[] && |s.history| == 1 && s.history[0].Human?
    ensures var s := states[|events|];
            Sound(s.history, s.store) && PendingFrom(s.history, After(FindBaseline(cfg, s.history, s.store))) != []
  {
    var s := states[|events|];
    BehaviourKeepsInv(cfg, states, events, |events|);
    hide Behaviour, Path, FindBaseline;
    SoundOf(cfg, s.history, s.store);
    BaselineIsCommitted(cfg, s.history, s.store);
    PendingIsMeaningful(s.history, 0);
    assert IsHuman(s.history, 0) && 0 in Pending(s.history, 0);
  }

  // ----- what stamping leaves alone -----

  lemma {:induction false} StampingLeaves(history: seq<Commit>, st: Store, sources: seq<Source>, own: Evidence)
    ensures var next := Exec(st, Stamping(st, sources, own));
            && next.tree == st.tree && next.tags == st.tags
            && ExtendAll(history, Stamping(st, sources, own)) == history
            && forall c: Source :: c !in sources ==>
                 && (c in next.proofs <==> c in st.proofs)
                 && (c in next.manifests <==> c in st.manifests)
                 && (c in st.manifests ==> next.manifests[c] == st.manifests[c])
  {
    if sources != [] {
      var before, c := sources[..|sources| - 1], sources[|sources| - 1];
      var a, b := Stamping(st, before, own), Stamp(st, c, own);
      StampingLeaves(history, st, before, own);
      ExecConcat(st, a, b);
      ExtendAllConcat(history, a, b);
      var mid := Exec(st, a);
      if b != [] {
        Unfold3(history, mid, b[0], b[1], b[2]);
      }
      assert sources == before + [c];
    } else {
      assert Stamping(st, sources, own) == [];
    }
  }

  lemma Unfold3(history: seq<Commit>, st: Store, a: Effect, b: Effect, c: Effect)
    ensures Exec(st, [a, b, c]) == Apply(Apply(Apply(st, a), b), c)
    ensures ExtendAll(history, [a, b, c]) == Extend(Extend(Extend(history, a), b), c)
  {
    assert [a, b, c][1..] == [b, c] && [b, c][1..] == [c] && [c][1..] == [];
    assert Exec(Apply(Apply(st, a), b), [c]) == Apply(Apply(Apply(st, a), b), c);
    assert Exec(Apply(st, a), [b, c]) == Exec(Apply(Apply(st, a), b), [c]);
    assert ExtendAll(Extend(Extend(history, a), b), [c]) == Extend(Extend(Extend(history, a), b), c);
    assert ExtendAll(Extend(history, a), [b, c]) == ExtendAll(Extend(Extend(history, a), b), [c]);
  }

  lemma {:induction false} StampingGrows(st: Store, sources: seq<Source>, i: nat, own: Evidence)
    requires i <= |sources|
    ensures Stamping(st, sources[..i], own) <= Stamping(st, sources, own)
    decreases |sources|
  {
    if i < |sources| {
      var before := sources[..|sources| - 1];
      assert sources[..i] == before[..i];
      StampingGrows(st, before, i, own);
    } else {
      assert sources[..i] == sources;
    }
  }

  /** The stamping part of a main plan, with the refusal that may end it. */
  function Selecting(frozen: seq<Commit>, from: nat, st: Store, selected: seq<Source>, own: Evidence): seq<Effect> {
    var n := Usable(frozen, from, st, selected);
    if n < |selected| then Stamping(st, selected[..n], own) + [Refuse] else Stamping(st, selected, own)
  }

  /** What the loop does with one source. */
  function Settle(frozen: seq<Commit>, from: nat, st: Store, c: Source, own: Evidence): seq<Effect> {
    if Ready(frozen, from, st, c) then Stamp(st, c, own) else [Refuse]
  }

  lemma SelectingStarts(frozen: seq<Commit>, from: nat, st: Store, selected: seq<Source>, own: Evidence, i: nat)
    requires i <= Usable(frozen, from, st, selected) && i < |selected|
    ensures Stamping(st, selected[..i], own) + Settle(frozen, from, st, selected[i], own)
            <= Selecting(frozen, from, st, selected, own)
    ensures Ready(frozen, from, st, selected[i]) ==>
              i < Usable(frozen, from, st, selected)
              && Stamping(st, selected[..i], own) + Stamp(st, selected[i], own) == Stamping(st, selected[..i + 1], own)
  {
    var n := Usable(frozen, from, st, selected);
    assert selected[..i + 1][..i] == selected[..i];
    assert n == |selected| ==> selected[..n] == selected;
    if i < n {
      assert selected[..n][..i + 1] == selected[..i + 1];
      StampingGrows(st, selected[..n], i + 1, own);
    }
  }

  /** A source not yet stamped by this run still looks as it did at the snapshot. */
  lemma NotYetTouched(frozen: seq<Commit>, from: nat, history: seq<Commit>, st: Store, sources: seq<Source>, own: Evidence, c: Source)
    requires c !in sources
    ensures var next := Exec(st, Stamping(st, sources, own));
            && Settle(frozen, from, next, c, own) == Settle(frozen, from, st, c, own)
            && (Complete(next, c) <==> Complete(st, c)) && (Ready(frozen, from, next, c) <==> Ready(frozen, from, st, c))
            && (Complete(st, c) ==> next.manifests[c] == st.manifests[c])
  {
    StampingLeaves(history, st, sources, own);
  }

  function RecoveredFrom(st: Store, sources: seq<Source>): map<Source, Evidence> {
    map c | c in sources && Complete(st, c) :: st.manifests[c]
  }

  lemma RecoveredNext(st: Store, sources: seq<Source>, c: Source)
    ensures RecoveredFrom(st, sources + [c])
         == if Complete(st, c) then RecoveredFrom(st, sources)[c := st.manifests[c]] else RecoveredFrom(st, sources)
  {
  }

  /** At the `i`-th source the process sees what the snapshot saw, and its next effects continue the plan. */
  lemma SettleNext(frozen: seq<Commit>, from: nat, start: Process, selected: seq<Source>, own: Evidence, i: nat, mid: Process)
    requires Ascending(selected) && i < |selected| && i <= Usable(frozen, from, start.store, selected)
    requires mid.store == Exec(start.store, Stamping(start.store, selected[..i], own))
    ensures var c, st := selected[i], start.store;
            var settle, done := Settle(frozen, from, mid.store, c, own), Stamping(st, selected[..i], own);
            && done + settle <= Selecting(frozen, from, st, selected, own)
            && (Ready(frozen, from, mid.store, c) ==>
                  i < Usable(frozen, from, st, selected) && done + settle == Stamping(st, selected[..i + 1], own))
            && (if Complete(mid.store, c)
                then RecoveredFrom(st, selected[..i + 1]) == RecoveredFrom(st, selected[..i])[c := mid.store.manifests[c]]
                else RecoveredFrom(st, selected[..i + 1]) == RecoveredFrom(st, selected[..i]))
  {
    var c := selected[i];
    assert c !in selected[..i] && selected[..i + 1] == selected[..i] + [c];
    NotYetTouched(frozen, from, start.history, start.store, selected[..i], own, c);
    SelectingStarts(frozen, from, start.store, selected, own, i);
    RecoveredNext(start.store, selected[..i], c);
    assert Settle(frozen, from, start.store, c, own)
        == if Ready(frozen, from, start.store, c) then Stamp(start.store, c, own) else [Refuse];
    hide Exec, Stamping, Selecting, Usable, RecoveredFrom, Settle, Stamp, Ready;
  }

  lemma TaggingNext(st: Store, processed: seq<Source>, i: nat, own: Evidence)
    requires i < |processed|
    ensures Tagging(st, processed[..i], own) + [CreateTag(TagFor(st, own, processed[i]))] == Tagging(st, processed[..i + 1], own)
    ensures Tagging(st, processed[..i + 1], own) <= Tagging(st, processed, own)
  {
  }

  /** The files and the tree are as they were. */
  predicate OnlyTagsDiffer(st: Store, next: Store) {
    next.proofs == st.proofs && next.manifests == st.manifests && next.tree == st.tree
  }

  lemma OneTag(before: Process, tag: Tag, done: seq<Effect>, ok: bool, after: Process)
    requires Followed(before, [CreateTag(tag)], done, ok, after)
    ensures OnlyTagsDiffer(before.store, after.store) && (ok <==> done != [])
  {
    if done != [] {
      assert done == [CreateTag(tag)] && done[1..] == [];
      assert Exec(before.store, done) == Apply(before.store, CreateTag(tag));
    }
  }

  lemma CompletionNext(frozen: seq<Commit>, from: nat, st: Store, sources: seq<Source>, i: nat, done: seq<Effect>)
    requires i < |sources| && done + Completion(frozen, from, st, sources[i..]) == Completion(frozen, from, st, sources)
    ensures var step := CompleteOne(frozen, from, st, sources[i]);
            && done + step <= Completion(frozen, from, st, sources)
            && (Refuse !in step ==>
                  done + step + Completion(frozen, from, st, sources[i + 1..]) == Completion(frozen, from, st, sources))
  {
    hide CompleteOne;
    assert sources[i..][0] == sources[i] && sources[i..][1..] == sources[i + 1..];
    var step, rest := CompleteOne(frozen, from, st, sources[i]), Completion(frozen, from, st, sources[i + 1..]);
    assert Completion(frozen, from, st, sources[i..]) == if Refuse in step then step else step + rest;
    hide Completion;
    assert done + step + rest == done + (step + rest);
  }

  /** Every source that a proof commit at or after `from` names. */
  function ClaimsFrom(history: seq<Commit>, from: nat): (r: set<Source>)
    ensures forall c: Source :: c in r <==> Claimed(history, from, c)
  {
    set i, c | from <= i < |history| && history[i].Generated? && c in history[i].sources :: c
  }

  lemma SelectedAscends(cfg: Config, history: seq<Commit>, st: Store, now: int)
    ensures Ascending(SourcesOf(Decide(cfg, history, st, now).commits))
  {
    var baseline := FindBaseline(cfg, history, st);
    PendingIsMeaningful(history, After(baseline));
    var lastFixed :=
      if baseline.Some? && FixedTime in baseline.value.evidence.triggers
      then Some(baseline.value.evidence.submittedAt) else None;
    DecisionShape(PolicyState(now, PendingFrom(history, After(baseline)), lastFixed, baseline.Some?, false), cfg.policy);
    hide EvaluatePolicy, FindBaseline;
  }

  lemma MainPlanRecords(frozen: seq<Commit>, from: nat, st: Store, inFlight: seq<Source>, selected: seq<Source>, own: Evidence)
    requires Usable(frozen, from, st, Chosen(inFlight, selected)) == |Chosen(inFlight, selected)|
    ensures var processed := inFlight + Chosen(inFlight, selected);
            var plan := MainPlan(frozen, from, st, inFlight, selected, own);
            && TagsIn(plan) == processed
            && CommitsIn(plan) == if forall c | c in processed :: c in st.tree then [] else processed
  {
    var chosen := Chosen(inFlight, selected);
    var stamping, recording := Stamping(st, chosen, own), Recording(st, inFlight + chosen, own);
    assert MainPlan(frozen, from, st, inFlight, selected, own) == stamping + recording;
    hide MainPlan, Stamping, Recording, Usable;
    InStamping(st, chosen, own);
    InRecording(st, inFlight + chosen, own);
    InConcat(stamping, recording);
  }

  lemma MainPlanStartsSelecting(frozen: seq<Commit>, from: nat, st: Store, inFlight: seq<Source>, selected: seq<Source>,
                                own: Evidence)
    ensures var chosen := Chosen(inFlight, selected);
            var selecting, plan := Selecting(frozen, from, st, chosen, own), MainPlan(frozen, from, st, inFlight, selected, own);
            && selecting <= plan
            && (Usable(frozen, from, st, chosen) == |chosen| ==>
                  plan == selecting + Recording(st, inFlight + chosen, own))
  {
    hide Recording, Stamping, Usable;
  }

  /** Stamping what was chosen leaves the tree as it was, and what was recovered before still stands. */
  lemma ThenRecord(st: Store, mid: Process, start: Process, inFlight: seq<Source>, chosen: seq<Source>, own: Evidence)
    requires start.store == st && mid.store == Exec(st, Stamping(st, chosen, own))
    ensures mid.store.tree == st.tree
    ensures RecoveredFrom(st, inFlight) + RecoveredFrom(st, chosen) == RecoveredFrom(st, inFlight + chosen)
  {
    StampingLeaves(start.history, st, chosen, own);
  }

  /** A run that gets through had anything to do exactly when its outcome names anything. */
  lemma WorkMeansChanged(cfg: Config, history: seq<Commit>, st: Store, snapshotAt: int, runAt: int)
    requires Refuse !in Plan(cfg, history, st, snapshotAt, runAt)
    ensures var plan := Plan(cfg, history, st, snapshotAt, runAt);
            var selected := SourcesOf(Decide(cfg, history, st, snapshotAt).commits);
            plan != [] <==> TagsIn(plan) != [] || CommitsIn(plan) != [] || Chosen(InFlight(st, selected, |history|), selected) != []
  {
    var decision := Decide(cfg, history, st, snapshotAt);
    var baseline := FindBaseline(cfg, history, st);
    var selected := SourcesOf(decision.commits);
    var inFlight := InFlight(st, selected, |history|);
    hide Decide, FindBaseline, InFlight, Recording, Stamping;
    if selected == [] && inFlight == [] {
      CompletionTagsFirst(history, After(baseline), st,
                          (if baseline.Some? then [baseline.value.source] else []) + Pending(history, After(baseline)));
    } else {
      var own := Evidence(WholeSeconds(runAt), decision.triggers, 0);
      MainPlanRecords(history, After(baseline), st, inFlight, selected, own);
    }
  }

  lemma {:induction false} CompletionTagsFirst(history: seq<Commit>, from: nat, st: Store, sources: seq<Source>)
    ensures var plan := Completion(history, from, st, sources);
            plan != [] ==> plan[0].CreateTag? || plan[0].Refuse?
  {
    if sources != [] {
      CompletionTagsFirst(history, from, st, sources[1..]);
    }
  }

  class Run {
    const cfg: Config
    var history: seq<Commit>
    var store: Store
    var budget: nat

    constructor (cfg: Config, history: seq<Commit>, store: Store, budget: nat)
      ensures this.cfg == cfg && State() == Process(history, store, budget)
    {
      this.cfg, this.history, this.store, this.budget := cfg, history, store, budget;
    }

    function State(): Process
      reads this
    {
      Process(history, store, budget)
    }

    method Perform(e: Effect) returns (ok: bool, ghost done: seq<Effect>)
      modifies this
      ensures Followed(old(State()), [e], done, ok, State())
    {
      if budget == 0 || Stuck(store, e) {
        assert ExtendAll(history, []) == history;
        return false, [];
      }
      store, history, budget := Apply(store, e), Extend(history, e), budget - 1;
      ok, done := true, [e];
      assert [e][1..] == [];
    }

    /** `_submit` and `_default_persist`. */
    method SubmitAndPersist(c: Source, own: Evidence) returns (ok: bool, ghost done: seq<Effect>)
      modifies this
      ensures Followed(old(State()), [Submit(c), WriteProof(c), WriteManifest(c, own.(proof := c))], done, ok, State())
    {
      ghost var start, plan := State(), [Submit(c), WriteProof(c), WriteManifest(c, own.(proof := c))];
      ok, done := Perform(Submit(c));
      if !ok {
        FollowedShort(start, [Submit(c)], done, State(), plan);
        return;
      }
      ghost var submitted := State();
      ghost var last;
      ok, last := Perform(WriteProof(c));
      FollowedThen(start, [Submit(c)], submitted, [WriteProof(c)], last, ok, State());
      done := [Submit(c)] + last;
      if !ok {
        FollowedShort(start, [Submit(c)] + [WriteProof(c)], done, State(), plan);
        return;
      }
      ghost var proved := State();
      ok, last := Perform(WriteManifest(c, own.(proof := c)));
      FollowedThen(start, [Submit(c)] + [WriteProof(c)], proved, [WriteManifest(c, own.(proof := c))], last, ok, State());
      done := [Submit(c)] + [WriteProof(c)] + last;
      assert [Submit(c)] + [WriteProof(c)] + [WriteManifest(c, own.(proof := c))] == plan;
    }

    /** One selected source: recover a complete pair, fail closed on a half-written one or on a claim without
        artifacts, and otherwise submit and persist. */
    method SettleOne(frozen: seq<Commit>, from: nat, c: Source, own: Evidence)
      returns (ok: bool, evidence: Option<Evidence>, ghost done: seq<Effect>)
      modifies this
      ensures Followed(old(State()), Settle(frozen, from, old(store), c, own), done, ok, State())
      ensures ok ==> done == Settle(frozen, from, old(store), c, own)
      ensures ok ==> Ready(frozen, from, old(store), c)
      ensures ok ==> evidence == if Complete(old(store), c) then Some(old(store).manifests[c]) else None
    {
      evidence, done := None, [];
      if c in store.proofs && c in store.manifests {
        return true, Some(store.manifests[c]), [];
      }
      if c in store.proofs || c in store.manifests || Claimed(frozen, from, c) {
        return false, None, [];
      }
      ok, done := SubmitAndPersist(c, own);
    }

    /** The loop over what the decision selected. */
    method StampSelected(frozen: seq<Commit>, from: nat, selected: seq<Source>, own: Evidence)
      returns (ok: bool, recovered: map<Source, Evidence>, ghost done: seq<Effect>)
      requires Ascending(selected)
      modifies this
      ensures Followed(old(State()), Selecting(frozen, from, old(store), selected, own), done, ok, State())
      ensures ok ==> Usable(frozen, from, old(store), selected) == |selected| && recovered == RecoveredFrom(old(store), selected)
    {
      ghost var start := State();
      ok, recovered, done := true, map[], [];
      assert selected[..0] == [];
      for i := 0 to |selected|
        invariant ok && i <= Usable(frozen, from, start.store, selected)
        invariant done == Stamping(start.store, selected[..i], own) && Followed(start, done, done, true, State())
        invariant recovered == RecoveredFrom(start.store, selected[..i])
      {
        ghost var mid := State();
        SettleNext(frozen, from, start, selected, own, i, mid);
        hide Stamping, Selecting, Settle, Usable, RecoveredFrom, Followed;
        var evidence;
        ghost var last;
        ok, evidence, last := SettleOne(frozen, from, selected[i], own);
        ghost var settle := Settle(frozen, from, mid.store, selected[i], own);
        FollowedThen(start, done, mid, settle, last, ok, State());
        if !ok {
          FollowedShort(start, done + settle, done + last, State(), Selecting(frozen, from, start.store, selected, own));
          done := done + last;
          return;
        }
        if evidence.Some? {
          recovered := recovered[selected[i] := evidence.value];
        }
        done := done + last;
      }
      assert selected[..|selected|] == selected;
    }

    /** `_in_flight_sources`, in the order of history; and what it recovered. */
    method FindInFlight(exclude: seq<Source>, n: nat) returns (found: seq<Source>, recovered: map<Source, Evidence>)
      ensures found == InFlight(store, exclude, n) && recovered == RecoveredFrom(store, found)
    {
      var tagged := set t | t in store.tags :: t.source;
      assert forall c :: c in tagged <==> Tagged(store.tags, c);
      found, recovered := [], map[];
      for c := 0 to n
        invariant found == InFlight(store, exclude, c) && recovered == RecoveredFrom(store, found)
      {
        if c in exclude || c in tagged || ProofStored(store, c) || c !in store.proofs || c !in store.manifests {
          continue;
        }
        RecoveredNext(store, found, c);
        found, recovered := found + [c], recovered[c := store.manifests[c]];
      }
    }

    /** The tagging loop: what was recovered is tagged as it was recorded, the rest with this run's own. */
    method TagAll(ghost st: Store, processed: seq<Source>, recovered: map<Source, Evidence>, own: Evidence)
      returns (ok: bool, ghost done: seq<Effect>)
      requires recovered == RecoveredFrom(st, processed)
      modifies this
      ensures Followed(old(State()), Tagging(st, processed, own), done, ok, State())
    {
      ghost var start := State();
      ok, done := true, [];
      assert processed[..0] == [] && Tagging(st, [], own) == [];
      for i := 0 to |processed|
        invariant ok && done == Tagging(st, processed[..i], own) && Followed(start, done, done, true, State())
      {
        var c := processed[i];
        var tag := Tag(c, if c in recovered then recovered[c] else own.(proof := c));
        assert tag == TagFor(st, own, c);
        TaggingNext(st, processed, i, own);
        hide Followed, Tagging, TagFor;
        ghost var mid := State();
        ghost var last;
        ok, last := Perform(CreateTag(tag));
        FollowedThen(start, done, mid, [CreateTag(tag)], last, ok, State());
        if !ok {
          FollowedShort(start, done + [CreateTag(tag)], done + last, State(), Tagging(st, processed, own));
          done := done + last;
          return;
        }
        done := done + last;
      }
      assert processed[..|processed|] == processed;
    }

    /** One source of the completion path; the claims of each search range are read once. */
    method CompleteOne(frozen: seq<Commit>, from: nat, ghost st: Store, c: Source, tagged: set<Source>,
                       cache: map<nat, set<Source>>)
      returns (ok: bool, cache': map<nat, set<Source>>, completed: seq<Source>, ghost done: seq<Effect>)
      requires OnlyTagsDiffer(st, store) && (c in tagged <==> Tagged(st.tags, c))
      requires forall k :: k in cache ==> cache[k] == ClaimsFrom(frozen, k)
      modifies this
      ensures forall k :: k in cache' ==> cache'[k] == ClaimsFrom(frozen, k)
      ensures Followed(old(State()), Protocol.CompleteOne(frozen, from, st, c), done, ok, State())
      ensures OnlyTagsDiffer(st, store)
      ensures ok ==> done == Protocol.CompleteOne(frozen, from, st, c) && Refuse !in done
      ensures ok ==> completed == TagsIn(done) && CommitsIn(done) == []
    {
      ok, cache', completed, done := true, cache, [], [];
      if c in tagged {
        return;
      }
      var range: nat := if c + 1 == from then 0 else from;
      if range !in cache {
        cache' := cache[range := ClaimsFrom(frozen, range)];
      }
      var evidence :=
        if c in store.tree then Some(store.tree[c])
        else if c in cache'[range] && c in store.proofs && c in store.manifests then Some(store.manifests[c])
        else None;
      if evidence.Some? {
        ok, done := Perform(CreateTag(Tag(c, evidence.value)));
        OneTag(old(State()), Tag(c, evidence.value), done, ok, State());
        completed := [c];
        assert ok ==> done == [CreateTag(Tag(c, evidence.value))] && done[1..] == [];
      } else {
        ok := c !in cache'[range];
      }
    }

    /** The completion path: tags for what is committed without one. */
    method CompleteTags(frozen: seq<Commit>, from: nat, sources: seq<Source>)
      returns (ok: bool, completed: seq<Source>, ghost done: seq<Effect>)
      modifies this
      ensures Followed(old(State()), Completion(frozen, from, old(store), sources), done, ok, State())
      ensures ok ==> completed == TagsIn(done) && CommitsIn(done) == []
    {
      ghost var start := State();
      ghost var st := store;
      var tagged := set t | t in store.tags :: t.source;
      assert forall c :: c in tagged <==> Tagged(st.tags, c);
      var cache: map<nat, set<Source>> := map[];
      ok, completed, done := true, [], [];
      for i := 0 to |sources|
        invariant ok && completed == TagsIn(done) && CommitsIn(done) == [] && OnlyTagsDiffer(st, store)
        invariant Followed(start, done, done, true, State())
        invariant done + Completion(frozen, from, st, sources[i..]) == Completion(frozen, from, st, sources)
        invariant forall k :: k in cache ==> cache[k] == ClaimsFrom(frozen, k)
      {
        var c := sources[i];
        ghost var mid, step := State(), Protocol.CompleteOne(frozen, from, st, c);
        CompletionNext(frozen, from, st, sources, i, done);
        hide Followed, Completion, Protocol.CompleteOne, Tagged, ClaimsFrom;
        ghost var last;
        var named;
        ok, cache, named, last := CompleteOne(frozen, from, st, c, tagged, cache);
        FollowedThen(start, done, mid, step, last, ok, State());
        if !ok {
          FollowedShort(start, done + step, done + last, State(), Completion(frozen, from, st, sources));
          done := done + last;
          return;
        }
        InConcat(done, last);
        done, completed := done + last, completed + named;
      }
    }

    /** The proof commit, unless all of it is there, and then the tags. */
    method Record(ghost st: Store, processed: seq<Source>, recovered: map<Source, Evidence>, own: Evidence)
      returns (ok: bool, committed: seq<Source>, ghost done: seq<Effect>)
      requires recovered == RecoveredFrom(st, processed) && store.tree == st.tree
      modifies this
      ensures Followed(old(State()), Recording(st, processed, own), done, ok, State())
      ensures ok ==> committed == if forall c | c in processed :: c in st.tree then [] else processed
    {
      ghost var start, commits := State(), [];
      ok, committed, done := true, [], [];
      if !(forall c | c in processed :: c in store.tree) {
        commits := [CommitProofs(processed)];
        ok, done := Perform(CommitProofs(processed));
        if !ok {
          FollowedShort(start, commits, done, State(), Recording(st, processed, own));
          return;
        }
        committed := processed;
      }
      assert Recording(st, processed, own) == commits + Tagging(st, processed, own);
      ghost var mid, last := State(), [];
      ok, last := TagAll(st, processed, recovered, own);
      FollowedThen(start, commits, mid, Tagging(st, processed, own), last, ok, State());
      done := commits + last;
    }

    /** The main path. */
    method Proceed(frozen: seq<Commit>, from: nat, inFlight: seq<Source>, found: map<Source, Evidence>,
                   selected: seq<Source>, own: Evidence)
      returns (outcome: Option<RunOutcome>, ghost done: seq<Effect>)
      requires found == RecoveredFrom(store, inFlight) && Ascending(selected)
      modifies this
      ensures Followed(old(State()), MainPlan(frozen, from, old(store), inFlight, selected, own), done, outcome.Some?, State())
      ensures outcome.Some? ==>
                && outcome.value.deferred == (if inFlight != [] then selected else [])
                && outcome.value.timestamped == Chosen(inFlight, selected)
                && SubmittedIn(done) == NotRecovered(old(store), Chosen(inFlight, selected))
                && outcome.value.tagged == TagsIn(done) && outcome.value.committed == CommitsIn(done)
    {
      ghost var start, st := State(), store;
      var chosen := Chosen(inFlight, selected);
      var processed := inFlight + chosen;
      ghost var selecting, recording := Selecting(frozen, from, st, chosen, own), Recording(st, processed, own);
      ghost var plan := MainPlan(frozen, from, st, inFlight, selected, own);
      MainPlanStartsSelecting(frozen, from, st, inFlight, selected, own);
      hide MainPlan, Recording, RecoveredFrom, TagsIn, CommitsIn, SubmittedIn, NotRecovered;
      var ok, recovered;
      ok, recovered, done := StampSelected(frozen, from, chosen, own);
      if !ok {
        FollowedShort(start, selecting, done, State(), plan);
        return None, done;
      }
      ghost var mid, last := State(), [];
      assert done == selecting == Stamping(st, chosen, own);
      ThenRecord(st, mid, start, inFlight, chosen, own);
      MainPlanRecords(frozen, from, st, inFlight, selected, own);
      MainPlanSubmits(frozen, from, st, inFlight, selected, own);
      hide Followed, Selecting, Usable, Stamping;
      var committed;
      ok, committed, last := Record(st, processed, found + recovered, own);
      FollowedThen(start, selecting, mid, recording, last, ok, State());
      done := selecting + last;
      outcome := if ok then Some(RunOutcome(chosen, processed, committed, if inFlight != [] then selected else [])) else None;
    }

    /** Nothing was due: finish what an earlier run left. */
    method Tidy(frozen: seq<Commit>, baseline: Option<Baseline>) returns (outcome: Option<RunOutcome>, ghost done: seq<Effect>)
      modifies this
      ensures Followed(old(State()), Tidying(frozen, old(store), baseline), done, outcome.Some?, State())
      ensures outcome.Some? ==> outcome.value == RunOutcome([], TagsIn(done), CommitsIn(done), []) && SubmittedIn(done) == []
    {
      var ok;
      if baseline.Some? && Complete(store, baseline.value.source) && baseline.value.source !in store.tree
         && !HasGenerated(frozen)
      {
        var source := baseline.value.source;
        ok, done := Perform(CommitProofs([source]));
        assert ok ==> done == [CommitProofs([source])] && done[1..] == [];
        TidyingSubmitsNothing(frozen, old(store), baseline);
        return if ok then Some(RunOutcome([], [], [source], [])) else None, done;
      }
      var completed;
      var sources := (if baseline.Some? then [baseline.value.source] else []) + Pending(frozen, After(baseline));
      TidyingSubmitsNothing(frozen, store, baseline);
      ok, completed, done := CompleteTags(frozen, After(baseline), sources);
      outcome := if ok then Some(RunOutcome([], completed, [], [])) else None;
    }

    /** `build_snapshot` and `run`: whatever the process lives to do is a prefix of the plan, and it reports
        an outcome exactly when it carried out the whole of it. */
    method Go(snapshotAt: int, runAt: int) returns (outcome: Option<RunOutcome>, ghost done: seq<Effect>)
      modifies this
      ensures Followed(old(State()), Plan(cfg, old(history), old(store), snapshotAt, runAt), done, outcome.Some?, State())
      ensures outcome.Some? ==>
                && outcome.value.tagged == TagsIn(done) && outcome.value.committed == CommitsIn(done)
                && var selected := SourcesOf(Decide(cfg, old(history), old(store), snapshotAt).commits);
                   var inFlight := InFlight(old(store), selected, |old(history)|);
                   && outcome.value.timestamped == Chosen(inFlight, selected)
                   && outcome.value.deferred == (if inFlight != [] then selected else [])
      ensures outcome.Some? ==>
                && SubmittedIn(done) == NotRecovered(old(store), outcome.value.timestamped)
                && (outcome.value.timestamped == SubmittedIn(done)
                    <==> forall c :: c in outcome.value.timestamped ==> !Complete(old(store), c))
                && (outcome.value.Changed() <==> done != [])
    {
      ghost var plan := Plan(cfg, history, store, snapshotAt, runAt);
      if Refuse !in plan {
        WorkMeansChanged(cfg, history, store, snapshotAt, runAt);
      }
      var frozen, decision := history, Decide(cfg, history, store, snapshotAt);
      var baseline := FindBaseline(cfg, frozen, store);
      var selected := SourcesOf(decision.commits);
      SelectedAscends(cfg, frozen, store, snapshotAt);
      assert forall before, done, ok, after :: Followed(before, plan, done, ok, after) && ok ==> done == plan && Refuse !in plan;
      hide Followed, MainPlan, Tidying, Decide, FindBaseline, TagsIn, CommitsIn, SubmittedIn, NotRecovered;
      var inFlight, found := FindInFlight(selected, |frozen|);
      if selected == [] && inFlight == [] {
        outcome, done := Tidy(frozen, baseline);
      } else {
        var own := Evidence(WholeSeconds(runAt), decision.triggers, 0);
        outcome, done := Proceed(frozen, After(baseline), inFlight, found, selected, own);
      }
    }
  }
}
