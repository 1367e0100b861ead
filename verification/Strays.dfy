/** Upgrades that commit a proof without its manifest, and what they cost. */
module Strays {
  import opened Wire
  import opened Policy
  import opened Protocol
  import opened Safety
  import opened Planning
  import opened Runs
  import opened Paths

  // What the scan then overlooks, and exactly when it overlooks nothing.

  // ----- what is overlooked -----

  ghost predicate UpgradedBefore(events: seq<Event>, i: nat, c: Source) {
    exists k :: 0 <= k < i && k < |events| && events[k].UpgradeCommit? && c in events[k].sources
  }

  lemma {:induction false} LoneIsUpgraded(cfg: Config, states: seq<System>, events: seq<Event>, i: nat, c: Source)
    requires Behaviour(cfg, states, events) && i < |states|
    ensures c in states[i].store.lone <==> UpgradedBefore(events, i, c)
    decreases i
  {
    if i > 0 {
      LoneIsUpgraded(cfg, states, events, i - 1, c);
      assert Next(cfg, states[i - 1], events[i - 1], states[i]);
      assert UpgradedBefore(events, i, c) <==>
          UpgradedBefore(events, i - 1, c) || (events[i - 1].UpgradeCommit? && c in events[i - 1].sources);
      hide UpgradedBefore, Plan, Behaviour;
    }
  }

  /** In every reachable state a complete pair that is not committed is selected, or in flight, or overlooked;
      it is overlooked exactly when an upgrade has put its proof into HEAD and the decision leaves it out. */
  lemma OverlookedExactly(cfg: Config, states: seq<System>, events: seq<Event>, i: nat, selected: seq<Source>, c: Source)
    requires Behaviour(cfg, states, events) && i < |states|
    requires Complete(states[i].store, c) && c !in states[i].store.tree
    ensures c in InFlight(states[i].store, selected, |states[i].history|)
       <==> c !in selected && !UpgradedBefore(events, i, c)
  {
    LoneIsUpgraded(cfg, states, events, i, c);
    BehaviourKeepsInv(cfg, states, events, i);
    hide Behaviour, UpgradedBefore, Ledger, Claims;
  }

  // ----- the debt -----

  /** A history of nothing but blocked runs, with an upgrade after each, leaves as many complete pairs uncommitted
      as there were runs: under every aggregate policy that fires again, debt is unbounded. */
  lemma {:induction false} DebtIsUnbounded(cfg: Config, n: nat) returns (states: seq<System>, events: seq<Event>)
    requires !cfg.policy.everyCommit && FiresAgain(cfg.policy)
    ensures Behaviour(cfg, states, events)
    ensures var st := states[|events|].store;
            states[|events|].run.None? && st.tree == map[] && |st.manifests| == n
            && forall c :: c in st.manifests ==> Complete(st, c) && c in st.lone
    ensures forall selected :: InFlight(states[|events|].store, selected, |states[|events|].history|) == []
  {
    if n == 0 {
      ScanFindsNothing(cfg, [START], []);
      return [START], [];
    }
    states, events := DebtIsUnbounded(cfg, n - 1);
    var s := states[|events|];
    BehaviourKeepsInv(cfg, states, events, |events|);
    assert Behaviour(cfg, states, events);
    hide Next, FiresAgain;
    var more, steps := Blocked(cfg, s);
    var f := more[|steps|];
    JoinPaths(cfg, states, events, more, steps);
    var u := UpgradeCommit({|s.history|});
    var g := f.(history := f.history + [Generated([])], store := f.store.(lone := f.store.lone + {|s.history|}));
    assert Next(cfg, f, u, g) by {
      UpgradeStep(cfg, f, |s.history|);
    }
    assert Path(cfg, [f, g], [u]);
    JoinPaths(cfg, states + more[1..], events + steps, [f, g], [u]);
    states, events := states + more[1..] + [f, g][1..], events + steps + [u];
    ScanFindsNothing(cfg, states, events);
  }

  lemma ScanFindsNothing(cfg: Config, states: seq<System>, events: seq<Event>)
    requires Behaviour(cfg, states, events)
    requires forall c :: c in states[|events|].store.manifests ==> c in states[|events|].store.lone
    ensures forall selected :: InFlight(states[|events|].store, selected, |states[|events|].history|) == []
  {
    var s := states[|events|];
    BehaviourKeepsInv(cfg, states, events, |events|);
    assert AllStray(s.store);
    forall selected ensures InFlight(s.store, selected, |s.history|) == [] {
      AllStrayIsOverlooked(s.history, s.store, selected);
    }
  }

  lemma UpgradeStep(cfg: Config, f: System, c: Source)
    requires f.run.None? && Complete(f.store, c)
    ensures Next(cfg, f, UpgradeCommit({c}),
                 f.(history := f.history + [Generated([])], store := f.store.(lone := f.store.lone + {c})))
  {
  }

  /** Among these events no upgrade touches a pair that is not committed. */
  ghost predicate Clean(states: seq<System>, events: seq<Event>) {
    && |events| <= |states|
    && forall i {:trigger events[i]} :: 0 <= i < |events| && events[i].UpgradeCommit? ==>
         forall c :: c in events[i].sources ==> c in states[i].store.tree
  }

  lemma CleanStep(cfg: Config, s: System, e: Event, s': System)
    requires Next(cfg, s, e, s') && s.store.lone <= s.store.tree.Keys
    requires e.UpgradeCommit? ==> forall c :: c in e.sources ==> c in s.store.tree
    ensures s'.store.lone <= s'.store.tree.Keys
  {
    hide Plan, Stuck;
  }

  lemma {:induction false} CleanPathShelters(cfg: Config, states: seq<System>, events: seq<Event>)
    requires Path(cfg, states, events) && Clean(states, events) && states[0].store.lone <= states[0].store.tree.Keys
    ensures states[|events|].store.lone <= states[|events|].store.tree.Keys
    decreases |events|
  {
    if events != [] {
      var n := |events| - 1;
      CleanPathShelters(cfg, states[..n + 1], events[..n]);
      var s, e := states[n], events[n];
      assert e.UpgradeCommit? ==> forall c :: c in e.sources ==> c in s.store.tree;
      assert Next(cfg, s, e, states[n + 1]);
      hide Path, Clean, Next;
      CleanStep(cfg, s, e, states[n + 1]);
    }
  }

  lemma ShelteredOwesOne(cfg: Config, s: System)
    requires !cfg.policy.everyCommit && Inv(cfg, s) && s.store.lone <= s.store.tree.Keys
    ensures AtMostOne(s.store)
  {
    assert LastChosen(s.history, s.store);
    hide Inv, NoEarlierIsNewer;
    assert forall c :: Uncommitted(s.store, c) ==> Unrecorded(s.store, c);
  }

  /** After an upgrade in a clean past, every clean future of an aggregate policy keeps to one uncommitted pair if
      and only if the upgrade touched committed pairs alone. */
  lemma DebtStaysBoundedExactly(cfg: Config, states: seq<System>, events: seq<Event>, sources: set<Source>, s': System)
    requires !cfg.policy.everyCommit && FiresAgain(cfg.policy)
    requires Behaviour(cfg, states, events) && Clean(states, events)
    requires Next(cfg, states[|events|], UpgradeCommit(sources), s')
    ensures (forall more: seq<System>, steps: seq<Event> :: Path(cfg, more, steps) && more[0] == s' && Clean(more, steps)
                ==> AtMostOne(more[|steps|].store))
       <==> forall c :: c in sources ==> c in states[|events|].store.tree
  {
    var s := states[|events|];
    BehaviourKeepsInv(cfg, states, events, |events|);
    CleanPathShelters(cfg, states, events);
    if forall c :: c in sources ==> c in s.store.tree {
      CleanStep(cfg, s, UpgradeCommit(sources), s');
      forall more: seq<System>, steps: seq<Event> | Path(cfg, more, steps) && more[0] == s' && Clean(more, steps)
        ensures AtMostOne(more[|steps|].store)
      {
        hide Inv, Next, Clean;
        StepKeepsInv(cfg, s, UpgradeCommit(sources), s');
        PathKeepsInv(cfg, more, steps, |steps|);
        CleanPathShelters(cfg, more, steps);
        ShelteredOwesOne(cfg, more[|steps|]);
      }
    } else {
      var c :| c in sources && c !in s.store.tree;
      ShelteredOwesOne(cfg, s);
      hide FiresAgain, Behaviour, Inv, Next;
      var more, steps := StrayThenBlocked(cfg, s, sources, c, s');
    }
  }

  lemma StrayThenBlocked(cfg: Config, s: System, sources: set<Source>, c: Source, s': System)
    returns (more: seq<System>, steps: seq<Event>)
    requires !cfg.policy.everyCommit && FiresAgain(cfg.policy) && Inv(cfg, s) && AtMostOne(s.store)
    requires Next(cfg, s, UpgradeCommit(sources), s') && c in sources && c !in s.store.tree
    ensures Path(cfg, more, steps) && more[0] == s' && Clean(more, steps) && !AtMostOne(more[|steps|].store)
  {
    assert Uncommitted(s.store, c);
    forall d | Uncommitted(s'.store, d) ensures d in s'.store.lone {
      assert Uncommitted(s.store, d);
    }
    assert Sound(s'.history, s'.store) by {
      CommitElsewhereKeepsSound(s.history, s.store, Generated([]));
      LoneKeepsSound(s'.history, s.store, s'.store);
    }
    TreeIsHuman(s'.history, s'.store);
    hide Inv, Next, Sound, FiresAgain, AllStray;
    more, steps := Blocked(cfg, s');
    var st := more[|steps|].store;
    assert Uncommitted(st, c) && c in s'.store.manifests && |s'.history| in st.manifests;
    assert Uncommitted(st, |s'.history|);
  }

  lemma LoneKeepsSound(history: seq<Commit>, st: Store, next: Store)
    requires Sound(history, st) && next == st.(lone := next.lone)
    ensures Sound(history, next)
  {
    assert Ledger(next) && Claims(history, next) && Recorded(history, next) && Faithful(next);
  }
}
