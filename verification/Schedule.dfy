/** A schedule that was served: when it fires again for the same occurrence. */
module Schedule {
  import opened Wire
  import opened Policy
  import opened Protocol
  import opened Safety
  import opened Planning
  import opened Runs
  import opened Paths

  /** The last scheduled instant at or before `now` was stamped for by this committed source, and after it. */
  predicate Serves(cfg: Config, st: Store, a: Source, now: int) {
    a in st.tree && FixedTime in st.tree[a].triggers
    && cfg.policy.occurrence.Some? && cfg.policy.occurrence.value(now) <= st.tree[a].submittedAt
  }

  /** In every reachable state with commits pending, a schedule that some stamp has served fires again for the very
      same instant exactly when the baseline of the moment was stamped for another reason. */
  lemma ServedFiresAgain(cfg: Config, states: seq<System>, events: seq<Event>, i: nat, a: Source, now: int)
    requires Behaviour(cfg, states, events) && i < |states| && !cfg.policy.everyCommit
    requires Serves(cfg, states[i].store, a, now)
    requires PendingFrom(states[i].history, After(FindBaseline(cfg, states[i].history, states[i].store))) != []
    ensures var s := states[i];
            var b := FindBaseline(cfg, s.history, s.store);
            b.Some? && (FixedTime in Decide(cfg, s.history, s.store, now).triggers
                        <==> FixedTime !in b.value.evidence.triggers)
  {
    var s := states[i];
    BehaviourKeepsInv(cfg, states, events, i);
    hide Behaviour, Path, FindBaseline, PendingFrom, Decide, After;
    BaselineIsFurthest(cfg, s.history, s.store);
    TriggersAreExact(cfg, s.history, s.store, now);
  }

  // ----- a schedule that fires twice -----

  const DAY := 86_400_000_000

  /** Stamp ten microseconds after a commit, and once a day at midnight. */
  ghost predicate Daily(cfg: Config) {
    !cfg.policy.everyCommit && cfg.policy.maxAge == Some(10) && cfg.policy.occurrence == Some((t: int) => t - t % DAY)
  }

  lemma Unfold(history: seq<Commit>, st: Store, e: Effect, rest: seq<Effect>)
    ensures Exec(st, [e] + rest) == Exec(Apply(st, e), rest)
    ensures ExtendAll(history, [e] + rest) == ExtendAll(Extend(history, e), rest)
  {
    assert ([e] + rest)[1..] == rest;
  }

  lemma ExecOfOne(history: seq<Commit>, st: Store, c: Source, own: Evidence)
    requires own.proof == c
    ensures var plan := PlanOfOne(c, own);
            && Exec(st, plan).tree == st.tree[c := own] && Exec(st, plan).manifests == st.manifests[c := own]
            && Exec(st, plan).lone == st.lone && Refuse !in plan
            && ExtendAll(history, plan) == history + [Generated([c])]
  {
    var submit, proof, manifest, commit, tag :=
      Submit(c), WriteProof(c), WriteManifest(c, own), CommitProofs([c]), CreateTag(Tag(c, own));
    var s1 := Apply(st, submit);
    var s2 := Apply(s1, proof);
    var s3 := Apply(s2, manifest);
    var s4 := Apply(s3, commit);
    assert PairsOf(s3, [c]) == map[c := own] && s4.tree == st.tree[c := own];
    assert Apply(s4, tag).tree == s4.tree && Apply(s4, tag).manifests == s3.manifests && Apply(s4, tag).lone == st.lone;
    assert Extend(history, commit) == history + [Generated([c])];
    hide Exec, ExtendAll, Apply;
    assert PlanOfOne(c, own) == [submit] + ([proof] + ([manifest] + ([commit] + ([tag] + []))));
    Unfold(history, st, submit, [proof] + ([manifest] + ([commit] + ([tag] + []))));
    Unfold(history, s1, proof, [manifest] + ([commit] + ([tag] + [])));
    Unfold(history, s2, manifest, [commit] + ([tag] + []));
    Unfold(history, s3, commit, [tag] + []);
    Unfold(history + [Generated([c])], s4, tag, []);
    assert Exec(Apply(s4, tag), []) == Apply(s4, tag) && ExtendAll(history + [Generated([c])], [])
        == history + [Generated([c])] by {
      Nothing(history + [Generated([c])], Apply(s4, tag));
    }
  }

  lemma Nothing(history: seq<Commit>, st: Store)
    ensures Exec(st, []) == st && ExtendAll(history, []) == history
  {
  }

  lemma StillAllStray(st: Store, next: Store, c: Source, own: Evidence)
    requires AllStray(st) && next.tree == st.tree[c := own] && next.manifests == st.manifests[c := own]
    requires next.lone == st.lone
    ensures AllStray(next)
  {
    forall d | Uncommitted(next, d) ensures d in next.lone {
      assert Uncommitted(st, d);
    }
  }

  /** Somebody commits, and a run at this time stamps that commit. */
  lemma CommitAndStamp(cfg: Config, states: seq<System>, events: seq<Event>, now: int)
    returns (states': seq<System>, events': seq<Event>)
    requires Behaviour(cfg, states, events) && !cfg.policy.everyCommit
    requires var s := states[|events|];
             && s.run.None? && s.clock <= now && AllStray(s.store)
             && Decide(cfg, s.history + [Human(LaterThanAll(s.history))], s.store, now).triggers != {}
    ensures Behaviour(cfg, states', events')
    ensures var s, s', c := states[|events|], states'[|events'|], |states[|events|].history|;
            var h := s.history + [Human(LaterThanAll(s.history))];
            && s'.run.None? && s'.clock == now && AllStray(s'.store) && s'.history == h + [Generated([c])]
            && s'.store.tree == s.store.tree[c := Evidence(WholeSeconds(now), Decide(cfg, h, s.store, now).triggers, c)]
  {
    hide AllStray, Decide, LaterThanAll, Next, Plan, PlanOfOne, WholeSeconds;
    var s, t, c := states[|events|], LaterThanAll(states[|events|].history), |states[|events|].history|;
    BehaviourKeepsInv(cfg, states, events, |events|);
    var s1 := s.(history := s.history + [Human(t)]);
    HumanStep(cfg, s, t);
    StartStep(cfg, s1, now);
    FreshPlan(cfg, s.history, s.store, now);
    var own := Evidence(WholeSeconds(now), Decide(cfg, s1.history, s.store, now).triggers, c);
    var s2 := s1.(clock := now, run := Some(Running(|s1.history|, PlanOfOne(c, own))));
    ExecOfOne(s1.history, s.store, c, own);
    StillAllStray(s.store, Exec(s.store, PlanOfOne(c, own)), c, own);
    StepKeepsInv(cfg, s, HumanCommit(t), s1);
    StepKeepsInv(cfg, s1, Start(now, now), s2);
    hide Inv;
    var rest, steps := LeftAlone(cfg, s2);
    assert Path(cfg, [s, s1, s2], [HumanCommit(t), Start(now, now)]);
    JoinPaths(cfg, states, events, [s, s1, s2], [HumanCommit(t), Start(now, now)]);
    states', events' := states + [s, s1, s2][1..], events + [HumanCommit(t), Start(now, now)];
    JoinPaths(cfg, states', events', rest, steps);
    states', events' := states' + rest[1..], events' + steps;
  }

  lemma FreshIsAged(history: seq<Commit>, from: nat, age: nat, now: int)
    requires from <= |history| && LaterThanAll(history) + age <= now
    ensures SomeAged(PendingFrom(history + [Human(LaterThanAll(history))], from), age, now)
  {
    var pending := PendingFrom(history + [Human(LaterThanAll(history))], from);
    LatestIsLast(history, from);
    PendingTimes(history + [Human(LaterThanAll(history))], from);
    hide PendingFrom, LaterThanAll, LatestIndex;
    assert pending[LatestIndex(pending)] in pending;
  }

  /** What a daily policy decides on the first day about a commit newer than all others. */
  lemma DailyDecides(cfg: Config, history: seq<Commit>, st: Store, now: int)
    requires !cfg.policy.everyCommit && cfg.policy.maxAge == Some(10)
    requires cfg.policy.occurrence.Some? && cfg.policy.occurrence.value(now) == 0
    requires Sound(history, st)
    ensures var h := history + [Human(LaterThanAll(history))];
            var b, d := FindBaseline(cfg, h, st), Decide(cfg, h, st, now);
            && (LaterThanAll(history) + 10 <= now ==> MaxAge in d.triggers)
            && (FixedTime in d.triggers <==>
                  b.None? || FixedTime !in b.value.evidence.triggers || 0 > b.value.evidence.submittedAt)
  {
    hide Sound, FindBaseline, PendingFrom, LaterThanAll, Decide, After, SomeAged, LatestIndex;
    var h := history + [Human(LaterThanAll(history))];
    BaselineIsBefore(cfg, history, st, LaterThanAll(history));
    var from := After(FindBaseline(cfg, h, st));
    LatestIsLast(history, from);
    if LaterThanAll(history) + 10 <= now {
      FreshIsAged(history, from, 10, now);
    }
    TriggersAreExact(cfg, h, st, now);
  }

  lemma FirstDay(cfg: Config, now: int)
    requires Daily(cfg) && 0 <= now < DAY
    ensures !cfg.policy.everyCommit && cfg.policy.maxAge == Some(10)
    ensures cfg.policy.occurrence.Some? && cfg.policy.occurrence.value(now) == 0
  {
  }

  lemma Times()
    ensures LaterThanAll([]) == 0 && LaterThanAll([Human(0), Generated([0])]) == 1
    ensures LaterThanAll([Human(0), Generated([0]), Human(1), Generated([2])]) == 2
  {
    var a, b := [Human(0)], [Human(0), Generated([0])];
    var c, d := b + [Human(1)], b + [Human(1), Generated([2])];
    assert a[..0] == [] && b[..1] == a && c[..2] == b && d[..3] == c;
    assert LaterThanAll(a) == 1 && LaterThanAll(b) == 1 && LaterThanAll(c) == 2;
    assert d == [Human(0), Generated([0]), Human(1), Generated([2])];
  }

  lemma DurableNext(cfg: Config, states: seq<System>, events: seq<Event>, t: int)
    requires Behaviour(cfg, states, events)
    ensures var s := states[|events|];
            Sound(s.history, s.store) && Durable(cfg, s.history + [Human(t)], s.store)
  {
    BehaviourKeepsInv(cfg, states, events, |events|);
    var s := states[|events|];
    hide Behaviour, Path, Sound, Orderly;
    CommitElsewhereKeepsSound(s.history, s.store, Human(t));
    CommitElsewhereKeepsOrder(cfg, s.history, s.store, Human(t));
  }

  /** One more stamp on the first day: for the schedule exactly when the furthest source committed was not. */
  lemma DailyStamp(cfg: Config, states: seq<System>, events: seq<Event>, now: int)
    returns (states': seq<System>, events': seq<Event>)
    requires Daily(cfg) && Behaviour(cfg, states, events) && 0 <= now < DAY
    requires var s := states[|events|];
             && s.run.None? && s.clock <= now && AllStray(s.store)
             && (s.store.tree == map[] || LaterThanAll(s.history) + 10 <= now)
    ensures Behaviour(cfg, states', events')
    ensures var s, s', c := states[|events|], states'[|events'|], |states[|events|].history|;
            var b := FindBaseline(cfg, s.history + [Human(LaterThanAll(s.history))], s.store);
            && s'.run.None? && s'.clock == now && AllStray(s'.store)
            && s'.history == s.history + [Human(LaterThanAll(s.history)), Generated([c])]
            && c in s'.store.tree && s'.store.tree == s.store.tree[c := s'.store.tree[c]]
            && s'.store.tree[c].submittedAt == WholeSeconds(now)
            && (FixedTime in s'.store.tree[c].triggers <==>
                  b.None? || FixedTime !in b.value.evidence.triggers || 0 > b.value.evidence.submittedAt)
  {
    assert |states| == |events| + 1;
    hide Daily, LaterThanAll, FindBaseline, Decide, Durable, Sound, Behaviour, AllStray, WholeSeconds;
    var s := states[|events|];
    var h := s.history + [Human(LaterThanAll(s.history))];
    FirstDay(cfg, now);
    DurableNext(cfg, states, events, LaterThanAll(s.history));
    SoundOf(cfg, h, s.store);
    BaselineIsCommitted(cfg, h, s.store);
    DailyDecides(cfg, s.history, s.store, now);
    states', events' := CommitAndStamp(cfg, states, events, now);
    assert s.history + [Human(LaterThanAll(s.history)), Generated([|s.history|])] == h + [Generated([|s.history|])];
  }

  lemma FromStart(cfg: Config)
    ensures Behaviour(cfg, [START], []) && AllStray(START.store)
  {
  }

  /** The first commit of the day is stamped for the schedule. */
  lemma MorningStamp(cfg: Config) returns (states: seq<System>, events: seq<Event>)
    requires Daily(cfg)
    ensures Behaviour(cfg, states, events)
    ensures var s := states[|events|];
            && s.run.None? && s.clock == 0 && AllStray(s.store) && s.history == [Human(0), Generated([0])]
            && s.store.tree.Keys == {0} && s.store.tree[0].submittedAt == 0 && FixedTime in s.store.tree[0].triggers
  {
    hide Daily, LaterThanAll, FindBaseline, Behaviour, AllStray, Durable;
    FromStart(cfg);
    Times();
    DurableNext(cfg, [START], [], 0);
    SoundOf(cfg, [] + [Human(0)], EMPTY_STORE);
    hide Sound;
    BaselineIsCommitted(cfg, [] + [Human(0)], EMPTY_STORE);
    states, events := DailyStamp(cfg, [START], [], 0);
    assert [] + [Human(0), Generated([0])] == [Human(0), Generated([0])];
  }

  /** The second is stamped for age. */
  lemma AgeStamp(cfg: Config) returns (states: seq<System>, events: seq<Event>)
    requires Daily(cfg)
    ensures Behaviour(cfg, states, events)
    ensures var s := states[|events|];
            && s.run.None? && s.clock == 11 && s.history == [Human(0), Generated([0]), Human(1), Generated([2])]
            && s.store.tree.Keys == {0, 2} && s.store.tree[0].submittedAt == 0 && FixedTime in s.store.tree[0].triggers
            && FixedTime !in s.store.tree[2].triggers
  {
    hide Daily, LaterThanAll, FindBaseline, AllStray, Durable, WholeSeconds, Next;
    states, events := MorningStamp(cfg);
    var s := states[|events|];
    Times();
    DurableNext(cfg, states, events, 1);
    BaselineIsFurthest(cfg, s.history + [Human(1)], s.store);
    states, events := DailyStamp(cfg, states, events, 11);
    assert [Human(0), Generated([0])] + [Human(1), Generated([2])]
        == [Human(0), Generated([0]), Human(1), Generated([2])];
  }

  /** Three commits on the first day. The first is stamped for the schedule, the second for age; and then the
      schedule, which the first had served, fires again. */
  lemma ScheduleFiresTwice(cfg: Config) returns (states: seq<System>, events: seq<Event>)
    requires Daily(cfg)
    ensures Behaviour(cfg, states, events)
    ensures var s := states[|events|];
            Serves(cfg, s.store, 0, s.clock) && FixedTime in Decide(cfg, s.history, s.store, s.clock).triggers
  {
    hide Daily, LaterThanAll, FindBaseline, Decide, Durable, Sound, Next;
    states, events := AgeStamp(cfg);
    var s := states[|events|];
    var s' := s.(history := s.history + [Human(2)]);
    Times();
    FirstDay(cfg, 11);
    DurableNext(cfg, states, events, 2);
    HumanStep(cfg, s, 2);
    DailyDecides(cfg, s.history, s.store, 11);
    BaselineIsFurthest(cfg, s'.history, s.store);
    assert Path(cfg, [s, s'], [HumanCommit(2)]);
    JoinPaths(cfg, states, events, [s, s'], [HumanCommit(2)]);
    states, events := states + [s, s'][1..], events + [HumanCommit(2)];
  }
}
