/** `RepositoryLock` under every interleaving of threads, instances and processes. */
module Lock {
  import opened Wire

  // Each step between two points where another thread may run is one transition. An instance is used by one thread
  // at a time.

  type Instance = nat
  type Pid = nat

  /** A file descriptor: a number in a process. Numbers are reused once closed. */
  datatype Descriptor = Descriptor(pid: Pid, number: nat)

  /** Where the thread using an instance stands inside `acquire` or `release`. */
  datatype At =
    | Outside
    | Looking                              // about to take the guard and read the shared entry
    | Opening                              // about to open the lock file
    | Locking(d: Descriptor)               // about to ask for the lock
    | Recording(d: Descriptor)             // about to take the guard and write the shared entry
    | Leaving(d: Descriptor)               // `_fd` is cleared; about to take the guard
    | Unlocking(d: Descriptor)
    | Closing(d: Descriptor)

  /** An instance, its process, and its `_fd`. */
  datatype User = User(pid: Pid, fd: Option<Descriptor>, at: At)

  datatype Entry = Entry(count: nat, d: Descriptor)

  /** `entries` is each process's `_LOCK_STATE` for this path; `live` and `locked`, the open descriptors and
      those with the lock, are the operating system's. */
  datatype World = World(
    users: map<Instance, User>,
    entries: map<Pid, Entry>,
    live: set<Descriptor>,
    locked: set<Descriptor>)
  {
    function Put(i: Instance, u: User): World {
      this.(users := users[i := u])
    }
  }

  datatype Event =
    | Create(i: Instance, pid: Pid)
    | Acquire(i: Instance)
    | Look(i: Instance)
    | Open(i: Instance, number: nat)
    | Flock(i: Instance)
    | Record(i: Instance)
    | Release(i: Instance)
    | Guard(i: Instance)
    | Unlock(i: Instance)
    | Close(i: Instance)
    | Exit(pid: Pid)

  const EMPTY := World(map[], map[], {}, {})

  /** One step of an instance. `flock` grants the lock when no other descriptor has it. */
  predicate Moves(w: World, i: Instance, e: Event, w': World) {
    && i in w.users
    && var u := w.users[i];
    match e
    case Acquire(_) =>
      u.at == Outside && w' == if u.fd.Some? then w else w.Put(i, u.(at := Looking))
    case Look(_) =>
      && u.at == Looking
      && if u.pid in w.entries then
           var entry := w.entries[u.pid];
           w' == w.Put(i, u.(at := Outside, fd := Some(entry.d)))
                  .(entries := w.entries[u.pid := Entry(entry.count + 1, entry.d)])
         else w' == w.Put(i, u.(at := Opening))
    case Open(_, number) =>
      && u.at == Opening
      && var d := Descriptor(u.pid, number);
         d !in w.live && w' == w.Put(i, u.(at := Locking(d))).(live := w.live + {d})
    case Flock(_) =>
      && u.at.Locking?
      && if w.locked <= {u.at.d}
         then w' == w.Put(i, u.(at := Recording(u.at.d))).(locked := w.locked + {u.at.d})
         else w' == w.Put(i, u.(at := Outside)).(live := w.live - {u.at.d})
    case Record(_) =>
      && u.at.Recording?
      && w' == w.Put(i, u.(at := Outside, fd := Some(u.at.d))).(entries := w.entries[u.pid := Entry(1, u.at.d)])
    case Release(_) =>
      u.at == Outside && w' == if u.fd.None? then w else w.Put(i, u.(at := Leaving(u.fd.value), fd := None))
    case Guard(_) =>
      && u.at.Leaving?
      && if u.pid !in w.entries || w.entries[u.pid].d != u.at.d then w' == w.Put(i, u.(at := Outside))
         else if w.entries[u.pid].count > 1 then
           w' == w.Put(i, u.(at := Outside))
                  .(entries := w.entries[u.pid := Entry(w.entries[u.pid].count - 1, u.at.d)])
         else w' == w.Put(i, u.(at := Unlocking(u.at.d))).(entries := w.entries - {u.pid})
    case Unlock(_) =>
      u.at.Unlocking? && w' == w.Put(i, u.(at := Closing(u.at.d))).(locked := w.locked - {u.at.d})
    case Close(_) =>
      && u.at.Closing?
      && w' == w.Put(i, u.(at := Outside)).(live := w.live - {u.at.d}, locked := w.locked - {u.at.d})
    case _ => false
  }

  predicate Next(w: World, e: Event, w': World) {
    match e
    case Create(i, pid) => i !in w.users && w' == w.Put(i, User(pid, None, Outside))
    case Exit(pid) =>
      w' == World(map i | i in w.users && w.users[i].pid != pid :: w.users[i],
                  w.entries - {pid},
                  set d | d in w.live && d.pid != pid,
                  set d | d in w.locked && d.pid != pid)
    case _ => Moves(w, e.i, e, w')
  }

  ghost predicate Behaviour(worlds: seq<World>, events: seq<Event>) {
    && |worlds| == |events| + 1 && worlds[0] == EMPTY
    && forall k {:trigger events[k]} :: 0 <= k < |events| ==> Next(worlds[k], events[k], worlds[k + 1])
  }

  // ----- the invariant -----

  /** An instance that the shared count covers: `acquire` is complete, and `release` has not passed its
      guard. */
  predicate Counted(u: User) {
    u.fd.Some? || u.at.Leaving?
  }

  /** The descriptor that a counted instance remembers. */
  function Remembered(u: User): Descriptor
    requires Counted(u)
  {
    if u.fd.Some? then u.fd.value else u.at.d
  }

  function Covered(w: World, pid: Pid): set<Instance> {
    set i | i in w.users && w.users[i].pid == pid && Counted(w.users[i])
  }

  /** The thread has a descriptor to itself. */
  predicate Alone(u: User) {
    u.at.Locking? || u.at.Recording? || u.at.Unlocking? || u.at.Closing?
  }

  /** What counted instances remember is the shared entry, and its count is exact. */
  ghost predicate Shared(w: World) {
    && (forall i :: i in w.users && Counted(w.users[i]) ==>
          var u := w.users[i]; u.pid in w.entries && w.entries[u.pid].d == Remembered(u))
    && (forall p :: p in w.entries ==> w.entries[p].count == |Covered(w, p)| > 0)
  }

  /** What an instance in the middle of something has: a live descriptor of its own process, that nobody
      else has, locked or not according to where it stands. */
  predicate Placed(w: World, u: User) {
    && (u.fd.Some? ==> u.at == Outside)
    && (Alone(u) ==> u.at.d in w.live && u.at.d.pid == u.pid
                     && (u.pid in w.entries ==> w.entries[u.pid].d != u.at.d)
                     && (u.at.d in w.locked <==> u.at.Recording? || u.at.Unlocking?))
  }

  ghost predicate Owned(w: World) {
    && (forall p :: p in w.entries ==>
          w.entries[p].d.pid == p && w.entries[p].d in w.live && w.entries[p].d in w.locked)
    && (forall i :: i in w.users ==> Placed(w, w.users[i]))
    && (forall i, j :: i in w.users && j in w.users && i != j && Alone(w.users[i]) && Alone(w.users[j])
          ==> w.users[i].at.d != w.users[j].at.d)
    && w.locked <= w.live
    && (forall a, b :: a in w.locked && b in w.locked ==> a == b)
  }

  ghost predicate Inv(w: World) {
    Shared(w) && Owned(w)
  }

  // ----- each step keeps it -----

  lemma CoveredElsewhere(w: World, i: Instance, u: User, w': World)
    requires w'.users == w.users[i := u] && (i in w.users ==> w.users[i].pid == u.pid)
    ensures forall p :: Covered(w', p) == if p != u.pid then Covered(w, p)
                                          else if Counted(u) then Covered(w, p) + {i} else Covered(w, p) - {i}
  {
    forall p ensures Covered(w', p) == if p != u.pid then Covered(w, p)
                                       else if Counted(u) then Covered(w, p) + {i} else Covered(w, p) - {i}
    {
      forall j ensures j in Covered(w', p)
                  <==> j in (if p != u.pid then Covered(w, p)
                             else if Counted(u) then Covered(w, p) + {i} else Covered(w, p) - {i})
      {
      }
    }
  }

  /** The count goes up by one, down by one, or stays, with whether the instance is counted. */
  lemma CountedMoves(w: World, i: Instance, u: User, w': World)
    requires w'.users == w.users[i := u] && (i in w.users ==> w.users[i].pid == u.pid)
    ensures forall p :: p != u.pid ==> Covered(w', p) == Covered(w, p)
    ensures var before, after := i in w.users && Counted(w.users[i]), Counted(u);
            |Covered(w', u.pid)| == |Covered(w, u.pid)| + (if after then 1 else 0) - (if before then 1 else 0)
  {
    CoveredElsewhere(w, i, u, w');
    assert i in Covered(w, u.pid) <==> i in w.users && Counted(w.users[i]);
  }

  lemma LookKeepsShared(w: World, i: Instance, w': World)
    requires Inv(w) && Next(w, Look(i), w')
    ensures Shared(w')
  {
    hide Covered;
    CountedMoves(w, i, w'.users[i], w');
  }

  lemma RecordKeepsShared(w: World, i: Instance, w': World)
    requires Inv(w) && Next(w, Record(i), w')
    ensures Shared(w') && w.users[i].pid !in w.entries
  {
    var u := w.users[i];
    assert u.pid !in w.entries;
    assert Covered(w, u.pid) == {};
    hide Covered;
    CountedMoves(w, i, w'.users[i], w');
  }

  /** The guard of `release` always finds the entry there, with the descriptor it expects; and it removes it
      exactly when no other instance is counted. */
  lemma GuardKeepsShared(w: World, i: Instance, w': World)
    requires Inv(w) && Next(w, Guard(i), w')
    ensures Shared(w')
    ensures var u := w.users[i];
            u.pid in w.entries && w.entries[u.pid].d == u.at.d && (u.pid !in w'.entries <==> |Covered(w', u.pid)| == 0)
  {
    hide Covered;
    var u := w.users[i];
    CountedMoves(w, i, w'.users[i], w');
    if u.pid !in w'.entries {
      assert |Covered(w', u.pid)| == 0;
      NobodyCounted(w', u.pid);
    }
  }

  lemma NobodyCounted(w: World, pid: Pid)
    requires |Covered(w, pid)| == 0
    ensures forall i :: i in w.users && w.users[i].pid == pid ==> !Counted(w.users[i])
  {
    forall i | i in w.users && w.users[i].pid == pid ensures !Counted(w.users[i]) {
      assert i !in Covered(w, pid);
    }
  }

  lemma OtherwiseShared(w: World, i: Instance, w': World)
    requires Inv(w) && i in w'.users && w'.users == w.users[i := w'.users[i]] && w'.entries == w.entries
    requires if i in w.users
             then w'.users[i].pid == w.users[i].pid && (Counted(w'.users[i]) <==> Counted(w.users[i]))
                  && (Counted(w.users[i]) ==> Remembered(w'.users[i]) == Remembered(w.users[i]))
             else !Counted(w'.users[i])
    ensures Shared(w')
  {
    hide Covered;
    CountedMoves(w, i, w'.users[i], w');
    assert forall p :: p in w.entries ==> |Covered(w', p)| == |Covered(w, p)|;
  }

  lemma ExitKeepsShared(w: World, pid: Pid, w': World)
    requires Inv(w) && Next(w, Exit(pid), w')
    ensures Shared(w')
  {
    forall q | q != pid ensures Covered(w', q) == Covered(w, q) {
      assert forall i :: i in Covered(w', q) <==> i in Covered(w, q);
    }
    hide Covered;
  }

  lemma ExitKeepsOwned(w: World, pid: Pid, w': World)
    requires Inv(w) && Next(w, Exit(pid), w')
    ensures Owned(w')
  {
    hide Covered, Shared;
  }

  lemma StepKeepsShared(w: World, e: Event, w': World)
    requires Inv(w) && Next(w, e, w') && !e.Exit?
    ensures Shared(w')
  {
    if e.Look? {
      LookKeepsShared(w, e.i, w');
    } else if e.Record? {
      RecordKeepsShared(w, e.i, w');
    } else if e.Guard? {
      GuardKeepsShared(w, e.i, w');
    } else if w' != w {
      OtherwiseShared(w, e.i, w');
    }
  }

  lemma RecordKeepsOwned(w: World, i: Instance, w': World)
    requires Inv(w) && Next(w, Record(i), w')
    ensures Owned(w')
  {
    hide Covered;
    RecordKeepsShared(w, i, w');
  }

  lemma GuardKeepsOwned(w: World, i: Instance, w': World)
    requires Inv(w) && Next(w, Guard(i), w')
    ensures Owned(w')
  {
    hide Covered;
    GuardKeepsShared(w, i, w');
    var u := w.users[i];
    assert w.entries[u.pid].d == u.at.d;
  }

  lemma FlockKeepsOwned(w: World, i: Instance, w': World)
    requires Inv(w) && Next(w, Flock(i), w')
    ensures Owned(w')
  {
    hide Covered, Shared;
  }

  lemma StepKeepsOwned(w: World, e: Event, w': World)
    requires Inv(w) && Next(w, e, w') && !e.Exit?
    ensures Owned(w')
  {
    if e.Record? {
      RecordKeepsOwned(w, e.i, w');
    } else if e.Guard? {
      GuardKeepsOwned(w, e.i, w');
    } else if e.Flock? {
      FlockKeepsOwned(w, e.i, w');
    } else if e.Look? {
      LookKeepsOwned(w, e.i, w');
    } else if e.Create? || e.Acquire? || e.Release? {
      UsersOnly(w, e, w');
    } else {
      DescriptorsOnly(w, e, w');
    }
  }

  lemma LookKeepsOwned(w: World, i: Instance, w': World)
    requires Inv(w) && Next(w, Look(i), w')
    ensures Owned(w')
  {
    hide Covered, Shared;
  }

  lemma UsersOnly(w: World, e: Event, w': World)
    requires Inv(w) && Next(w, e, w') && (e.Create? || e.Acquire? || e.Release?)
    ensures Owned(w')
  {
    hide Covered, Shared;
    assert w' == w.(users := w'.users);
  }

  lemma DescriptorsOnly(w: World, e: Event, w': World)
    requires Inv(w) && Next(w, e, w') && (e.Open? || e.Unlock? || e.Close?)
    ensures Owned(w')
  {
    hide Covered, Shared;
    assert w'.entries == w.entries;
  }

  lemma StepKeepsInv(w: World, e: Event, w': World)
    requires Inv(w) && Next(w, e, w')
    ensures Inv(w')
  {
    hide Owned, Shared, Next;
    if e.Exit? {
      ExitKeepsShared(w, e.pid, w');
      ExitKeepsOwned(w, e.pid, w');
    } else {
      StepKeepsShared(w, e, w');
      StepKeepsOwned(w, e, w');
    }
  }

  // ----- over behaviours -----

  lemma {:induction false} BehaviourKeepsInv(worlds: seq<World>, events: seq<Event>, k: nat)
    requires Behaviour(worlds, events) && k < |worlds|
    ensures Inv(worlds[k])
  {
    if k > 0 {
      assert Next(worlds[k - 1], events[k - 1], worlds[k]);
      BehaviourKeepsInv(worlds, events, k - 1);
      hide Inv, Next;
      StepKeepsInv(worlds[k - 1], events[k - 1], worlds[k]);
    }
  }

  /** Mutual exclusion: at most one descriptor in the system has the lock; any two counted instances are in
      one process and share it. */
  lemma OneHolder(worlds: seq<World>, events: seq<Event>, k: nat)
    requires Behaviour(worlds, events) && k < |worlds|
    ensures var w := worlds[k];
            && (forall a, b :: a in w.locked && b in w.locked ==> a == b)
            && (forall i :: i in w.users && Counted(w.users[i]) ==>
                  w.locked == {Remembered(w.users[i])} && Remembered(w.users[i]).pid == w.users[i].pid)
            && (forall i, j :: i in w.users && j in w.users && Counted(w.users[i]) && Counted(w.users[j])
                  ==> w.users[i].pid == w.users[j].pid)
  {
    BehaviourKeepsInv(worlds, events, k);
    hide Covered, Behaviour;
  }

  /** The shared count is exact, and the entry is there exactly while anything is counted. */
  lemma CountIsExact(worlds: seq<World>, events: seq<Event>, k: nat, pid: Pid)
    requires Behaviour(worlds, events) && k < |worlds|
    ensures var w := worlds[k];
            && (pid in w.entries <==> |Covered(w, pid)| > 0)
            && (pid in w.entries ==> w.entries[pid].count == |Covered(w, pid)|)
  {
    BehaviourKeepsInv(worlds, events, k);
    var w := worlds[k];
    if pid !in w.entries {
      assert Covered(w, pid) == {};
    }
  }

  /** A living process gives the lock up only in the unlock after its last counted instance. */
  lemma UnlockedByTheLast(worlds: seq<World>, events: seq<Event>, k: nat, d: Descriptor)
    requires Behaviour(worlds, events) && k < |events|
    requires d in worlds[k].locked && d !in worlds[k + 1].locked && events[k] != Exit(d.pid)
    ensures events[k].Unlock? && |Covered(worlds[k], d.pid)| == 0
  {
    BehaviourKeepsInv(worlds, events, k);
    CountIsExact(worlds, events, k, d.pid);
    var w, e := worlds[k], events[k];
    assert Next(w, e, worlds[k + 1]);
    hide Covered, Behaviour;
    assert e.Unlock? && w.users[e.i].at.d == d;
  }

  // ----- nothing is held that nobody is about to give up -----

  /** An instance in the middle of something with this descriptor to itself. */
  ghost predicate SomeoneAlone(w: World, d: Descriptor) {
    exists i :: i in w.users && Alone(w.users[i]) && w.users[i].at.d == d
  }

  /** Every open descriptor is its process's entry, or in the hands of one instance. */
  ghost predicate Accounted(w: World) {
    forall d :: d in w.live ==> (d.pid in w.entries && w.entries[d.pid].d == d) || SomeoneAlone(w, d)
  }

  /** Whoever else was alone with a descriptor still is. */
  lemma OthersStayAlone(w: World, i: Instance, w': World, d: Descriptor)
    requires SomeoneAlone(w, d) && i in w'.users && w'.users == w.users[i := w'.users[i]]
    requires i in w.users && Alone(w.users[i]) && w.users[i].at.d == d ==> Alone(w'.users[i]) && w'.users[i].at.d == d
    ensures SomeoneAlone(w', d)
  {
    var j :| j in w.users && Alone(w.users[j]) && w.users[j].at.d == d;
    assert Alone(w'.users[j]) && w'.users[j].at.d == d;
  }

  lemma MoveKeepsAccounted(w: World, i: Instance, e: Event, w': World)
    requires Inv(w) && Accounted(w) && Next(w, e, w') && !e.Exit? && !e.Create? && e.i == i
    ensures Accounted(w')
  {
    var u := w.users[i];
    if e.Guard? {
      GuardKeepsShared(w, i, w');
    }
    if e.Record? {
      RecordKeepsShared(w, i, w');
    }
    hide Covered, Inv;
    forall d | d in w'.live ensures (d.pid in w'.entries && w'.entries[d.pid].d == d) || SomeoneAlone(w', d) {
      if Alone(w'.users[i]) && w'.users[i].at.d == d {
        assert SomeoneAlone(w', d);
      } else if d in w.live && SomeoneAlone(w, d) && !(Alone(u) && u.at.d == d) {
        OthersStayAlone(w, i, w', d);
      }
    }
  }

  lemma CreateKeepsAccounted(w: World, i: Instance, pid: Pid, w': World)
    requires Accounted(w) && Next(w, Create(i, pid), w')
    ensures Accounted(w')
  {
    forall d | d in w'.live ensures (d.pid in w'.entries && w'.entries[d.pid].d == d) || SomeoneAlone(w', d) {
      if SomeoneAlone(w, d) {
        OthersStayAlone(w, i, w', d);
      }
    }
  }

  lemma ExitKeepsAccounted(w: World, pid: Pid, w': World)
    requires Inv(w) && Accounted(w) && Next(w, Exit(pid), w')
    ensures Accounted(w')
  {
    hide Covered, Shared;
    forall d | d in w'.live ensures (d.pid in w'.entries && w'.entries[d.pid].d == d) || SomeoneAlone(w', d) {
      if SomeoneAlone(w, d) {
        var i :| i in w.users && Alone(w.users[i]) && w.users[i].at.d == d;
        assert Placed(w, w.users[i]);
        assert i in w'.users && w'.users[i] == w.users[i];
      }
    }
  }

  lemma {:induction false} BehaviourKeepsAccounted(worlds: seq<World>, events: seq<Event>, k: nat)
    requires Behaviour(worlds, events) && k < |worlds|
    ensures Accounted(worlds[k])
  {
    if k > 0 {
      var w, e := worlds[k - 1], events[k - 1];
      assert Next(w, e, worlds[k]);
      BehaviourKeepsInv(worlds, events, k - 1);
      BehaviourKeepsAccounted(worlds, events, k - 1);
      hide Inv, Next, Accounted;
      if e.Exit? {
        ExitKeepsAccounted(w, e.pid, worlds[k]);
      } else if e.Create? {
        CreateKeepsAccounted(w, e.i, e.pid, worlds[k]);
      } else {
        MoveKeepsAccounted(w, e.i, e, worlds[k]);
      }
    }
  }

  /** The instance has the lock, or is between having asked for it and having given it up. */
  predicate Holding(u: User, d: Descriptor) {
    || (Counted(u) && Remembered(u) == d)
    || ((u.at.Recording? || u.at.Unlocking?) && u.at.d == d)
  }

  /** A descriptor has the lock exactly when some instance has it so; in particular the last one to leave takes it
      away. And it is open exactly when some instance has it so or is about to ask or to close. */
  lemma LockedExactly(worlds: seq<World>, events: seq<Event>, k: nat, d: Descriptor)
    requires Behaviour(worlds, events) && k < |worlds|
    ensures var w := worlds[k];
            && (d in w.locked <==> exists i :: i in w.users && Holding(w.users[i], d))
            && (d in w.live <==> exists i :: i in w.users
                                  && (Holding(w.users[i], d) || (Alone(w.users[i]) && w.users[i].at.d == d)))
  {
    BehaviourKeepsInv(worlds, events, k);
    BehaviourKeepsAccounted(worlds, events, k);
    hide Behaviour;
    var w := worlds[k];
    if d in w.live {
      SomeoneHas(w, d);
    }
  }

  lemma SomeoneHas(w: World, d: Descriptor)
    requires Inv(w) && Accounted(w) && d in w.live
    ensures exists i :: i in w.users && (Holding(w.users[i], d) || (Alone(w.users[i]) && w.users[i].at.d == d))
    ensures d in w.locked ==> exists i :: i in w.users && Holding(w.users[i], d)
  {
    if d.pid in w.entries && w.entries[d.pid].d == d {
      assert |Covered(w, d.pid)| > 0;
      var i :| i in Covered(w, d.pid);
      assert Holding(w.users[i], d);
    } else {
      var i :| i in w.users && Alone(w.users[i]) && w.users[i].at.d == d;
      assert Placed(w, w.users[i]);
      assert d in w.locked ==> Holding(w.users[i], d);
    }
  }

  predicate Idle(u: User) {
    u.at == Outside && u.fd.None?
  }

  /** When every instance has released and left, nothing is locked and no descriptor is open; and then the next acquire
      of any instance, left alone, gets the lock. */
  lemma AllReleased(worlds: seq<World>, events: seq<Event>, i: Instance)
    returns (more: seq<World>, steps: seq<Event>)
    requires Behaviour(worlds, events)
    requires var w := worlds[|events|]; i in w.users && forall j :: j in w.users ==> Idle(w.users[j])
    ensures worlds[|events|].locked == {} && worlds[|events|].live == {}
    ensures Behaviour(worlds + more, events + steps) && steps == [Acquire(i), Look(i), Open(i, 0), Flock(i), Record(i)]
    ensures var w' := (worlds + more)[|events + steps|];
            i in w'.users && w'.users[i].fd.Some? && w'.locked == {w'.users[i].fd.value}
  {
    var w := worlds[|events|];
    NothingHeld(worlds, events);
    var u, d := w.users[i], Descriptor(w.users[i].pid, 0);
    var w1 := w.Put(i, u.(at := Looking));
    var w2 := w1.Put(i, u.(at := Opening));
    var w3 := w2.Put(i, u.(at := Locking(d))).(live := {d});
    var w4 := w3.Put(i, u.(at := Recording(d))).(locked := {d});
    var w5 := w4.Put(i, u.(fd := Some(d))).(entries := w.entries[u.pid := Entry(1, d)]);
    steps, more := [Acquire(i), Look(i), Open(i, 0), Flock(i), Record(i)], [w1, w2, w3, w4, w5];
    assert Next(w, steps[0], w1) && Next(w1, steps[1], w2) && Next(w2, steps[2], w3);
    assert Next(w3, steps[3], w4) && Next(w4, steps[4], w5);
    GoesOn(worlds, events, more, steps);
  }

  lemma NothingHeld(worlds: seq<World>, events: seq<Event>)
    requires Behaviour(worlds, events)
    requires var w := worlds[|events|]; forall j :: j in w.users ==> Idle(w.users[j])
    ensures var w := worlds[|events|]; w.locked == {} && w.live == {} && w.entries == map[]
  {
    var w := worlds[|events|];
    BehaviourKeepsInv(worlds, events, |events|);
    forall d ensures d !in w.live && d !in w.locked {
      LockedExactly(worlds, events, |events|, d);
    }
    forall p ensures p !in w.entries {
      CountIsExact(worlds, events, |events|, p);
      assert Covered(w, p) == {};
    }
  }

  lemma GoesOn(worlds: seq<World>, events: seq<Event>, more: seq<World>, steps: seq<Event>)
    requires Behaviour(worlds, events) && |more| == |steps| == 5
    requires Next(worlds[|events|], steps[0], more[0]) && Next(more[0], steps[1], more[1])
    requires Next(more[1], steps[2], more[2]) && Next(more[2], steps[3], more[3]) && Next(more[3], steps[4], more[4])
    ensures Behaviour(worlds + more, events + steps) && (worlds + more)[|events + steps|] == more[4]
  {
    hide Next;
    var all, each := worlds + more, events + steps;
    forall k {:trigger each[k]} | 0 <= k < |each| ensures Next(all[k], each[k], all[k + 1]) {
      if k < |events| {
        assert each[k] == events[k] && all[k] == worlds[k] && all[k + 1] == worlds[k + 1];
      } else {
        assert each[k] == steps[k - |events|] && all[k + 1] == more[k - |events|];
        assert all[k] == if k == |events| then worlds[k] else more[k - |events| - 1];
      }
    }
  }
}
