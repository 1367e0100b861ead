/** The order of the report: anchors by place, calendars by first promise. */
module AnchorOrder {
  import opened Wire
  import opened Tree
  import opened Skip
  import opened Anchors
  import opened AnchorLaws
  import opened AnchorPlaces

  // ----- each Bitcoin attestation once, in the order of the proof -----

  /** One place comes before another in the proof. */
  predicate Before(p: Place, q: Place)
    decreases |p|
  {
    p != [] && q != [] && (p[0] < q[0] || (p[0] == q[0] && Before(p[1..], q[1..])))
  }

  predicate InOrder(places: seq<Place>) {
    forall i, j :: 0 <= i < j < |places| ==> Before(places[i], places[j])
  }

  lemma BelowKeepsOrder(k: nat, p: Place, q: Place)
    ensures Before([k] + p, [k] + q) <==> Before(p, q)
  {
    assert ([k] + p)[1..] == p && ([k] + q)[1..] == q;
  }

  function Under(k: nat, places: seq<Place>): (r: seq<Place>)
    ensures |r| == |places| && forall i :: 0 <= i < |r| ==> r[i] == [k] + places[i]
  {
    seq(|places|, i requires 0 <= i < |places| => [k] + places[i])
  }

  /** What lies under item `k` comes after all that lies under earlier items, in the order it has below. */
  lemma UnderInOrder(before: seq<Place>, k: nat, below: seq<Place>)
    requires InOrder(before) && InOrder(below)
    requires forall i :: 0 <= i < |before| ==> before[i] != [] && before[i][0] < k
    ensures InOrder(before + Under(k, below))
  {
    var all := before + Under(k, below);
    forall i, j | 0 <= i < j < |all| ensures Before(all[i], all[j]) {
      if i >= |before| {
        var x, y := below[i - |before|], below[j - |before|];
        BelowKeepsOrder(k, x, y);
      } else if j >= |before| {
        assert all[i] == before[i] && all[j] == [k] + below[j - |before|];
      }
    }
  }

  /** These places show these anchors, one each. */
  ghost predicate Shown<A>(h: Host, items: seq<Item<A>>, st: State, places: seq<Place>, anchors: seq<Anchor>) {
    |places| == |anchors| && forall i :: 0 <= i < |places| ==> Shows(h, items, st, places[i], anchors[i])
  }

  /** These places, in order and no others, show these anchors. */
  ghost predicate Listing<A>(h: Host, items: seq<Item<A>>, st: State, places: seq<Place>, anchors: seq<Anchor>) {
    && InOrder(places) && Shown(h, items, st, places, anchors)
    && forall place, a :: Shows(h, items, st, place, a) ==> place in places
  }

  lemma EarlierShows<A>(h: Host, items: seq<Item<A>>, n: nat, st: State, place: Place, a: Anchor)
    requires n <= |items| && place != [] && place[0] < n
    ensures Shows(h, items[..n], st, place, a) <==> Shows(h, items, st, place, a)
  {
    assert items[..n][..place[0]] == items[..place[0]];
  }

  /** This place below branch `n` shows the anchor, if the branch can be executed at all. */
  ghost predicate ShowsBelow<A>(h: Host, items: seq<Item<A>>, n: nat, st: State, below: Place, a: Anchor)
    requires n < |items| && items[n].Branch?
  {
    var before := RunItems(h, items[..n], st).1;
    match Execute(h, items[n].operation, before.message)
    case None => false
    case Some(m) => Shows(h, items[n].child.items, Enter(h, before.(message := m)), below, a)
  }

  lemma BelowShows<A>(h: Host, items: seq<Item<A>>, n: nat, st: State, below: Place, a: Anchor)
    requires n < |items| && items[n].Branch?
    ensures Shows(h, items, st, [n] + below, a) <==> ShowsBelow(h, items, n, st, below, a)
  {
    hide RunItems, Execute, Enter, ReadVaruint;
    var place := [n] + below;
    assert place[1..] == below;
  }

  /** What its last item adds to the report of a node, with the places that show it. */
  ghost predicate LastListing<A>(h: Host, items: seq<Item<A>>, st: State, below: seq<Place>, added: seq<Anchor>) {
    && items != [] && InOrder(below)
    && Shown(h, items, st, Under(|items| - 1, below), added)
    && forall place, a :: Shows(h, items, st, place, a) && place != [] && place[0] == |items| - 1
         ==> place in Under(|items| - 1, below)
  }

  lemma AttestationListing<A>(h: Host, items: seq<Item<A>>, st: State) returns (below: seq<Place>)
    requires items != [] && items[|items| - 1].Attestation?
    ensures LastListing(h, items, st, below, RunItem(h, items[|items| - 1], RunItems(h, items[..|items| - 1], st).1).0.anchors)
  {
    hide RunItems, Execute, Enter, ReadVaruint;
    var last := |items| - 1;
    below := if RunItem(h, items[last], RunItems(h, items[..last], st).1).0.anchors == [] then [] else [[]];
    forall place, a | Shows(h, items, st, place, a) && place != [] && place[0] == last ensures place in Under(last, below) {
      assert place == [last] == Under(last, below)[0];
    }
  }

  lemma BranchListing<A>(h: Host, items: seq<Item<A>>, st: State, below: seq<Place>)
    requires items != [] && items[|items| - 1].Branch?
    requires var last, before := items[|items| - 1], RunItems(h, items[..|items| - 1], st).1;
             match Execute(h, last.operation, before.message)
             case None => below == []
             case Some(m) =>
               var entered := Enter(h, before.(message := m));
               Listing(h, last.child.items, entered, below, RunItems(h, last.child.items, entered).0.anchors)
    ensures LastListing(h, items, st, below, RunItem(h, items[|items| - 1], RunItems(h, items[..|items| - 1], st).1).0.anchors)
  {
    hide RunItems, Execute, Enter, Shows;
    var last := |items| - 1;
    forall p: Place, a ensures Shows(h, items, st, [last] + p, a) <==> ShowsBelow(h, items, last, st, p, a) {
      BelowShows(h, items, last, st, p, a);
    }
    forall place, a | Shows(h, items, st, place, a) && place != [] && place[0] == last ensures place in Under(last, below) {
      var p := place[1..];
      assert place == [last] + p;
      var i :| 0 <= i < |below| && below[i] == p;
      assert Under(last, below)[i] == place;
    }
  }

  /** What the earlier items show, seen from the whole node. */
  lemma EarlierListing<A>(h: Host, items: seq<Item<A>>, n: nat, st: State, first: seq<Place>, anchors: seq<Anchor>)
    requires n <= |items| && Listing(h, items[..n], st, first, anchors)
    ensures Shown(h, items, st, first, anchors)
    ensures forall i :: 0 <= i < |first| ==> first[i] != [] && first[i][0] < n
    ensures forall place, a :: Shows(h, items, st, place, a) && place != [] && place[0] < n ==> place in first
  {
    hide Shows, InOrder;
    forall i | 0 <= i < |first| ensures first[i] != [] && first[i][0] < n && Shows(h, items, st, first[i], anchors[i]) {
      ShowsAnItem(h, items[..n], st, first[i], anchors[i]);
      EarlierShows(h, items, n, st, first[i], anchors[i]);
    }
    forall place, a | Shows(h, items, st, place, a) && place != [] && place[0] < n ensures place in first {
      EarlierShows(h, items, n, st, place, a);
    }
  }

  lemma ShownTogether<A>(h: Host, items: seq<Item<A>>, st: State, p: seq<Place>, q: seq<Place>, a: seq<Anchor>, b: seq<Anchor>)
    requires Shown(h, items, st, p, a) && Shown(h, items, st, q, b)
    ensures Shown(h, items, st, p + q, a + b)
  {
    hide Shows;
  }

  lemma JoinListings<A>(h: Host, items: seq<Item<A>>, st: State, first: seq<Place>, below: seq<Place>, anchors: seq<Anchor>, added: seq<Anchor>)
    requires items != [] && LastListing(h, items, st, below, added)
    requires Listing(h, items[..|items| - 1], st, first, anchors)
    ensures Listing(h, items, st, first + Under(|items| - 1, below), anchors + added)
  {
    hide Shows, InOrder, Shown;
    var last := |items| - 1;
    EarlierListing(h, items, last, st, first, anchors);
    UnderInOrder(first, last, below);
    ShownTogether(h, items, st, first, Under(last, below), anchors, added);
    forall place, a | Shows(h, items, st, place, a) ensures place in first + Under(last, below) {
      ShowsAnItem(h, items, st, place, a);
    }
  }

  lemma ShowsAnItem<A>(h: Host, items: seq<Item<A>>, st: State, place: Place, a: Anchor)
    requires Shows(h, items, st, place, a)
    ensures place != [] && place[0] < |items|
  {
    hide RunItems, Execute, Enter, ReadVaruint, StateAt;
  }

  /** A proof has one anchor in its report for each Bitcoin attestation with a readable height on an executable path, in
      the order in which the proof has them. */
  lemma {:induction false} AnchorsInOrder<A>(h: Host, items: seq<Item<A>>, st: State) returns (places: seq<Place>)
    ensures Listing(h, items, st, places, RunItems(h, items, st).0.anchors)
    decreases items
  {
    hide Listing, LastListing, Execute, Enter;
    if items == [] {
      places := [];
      EmptyListing<A>(h, st);
    } else {
      var init, last := items[..|items| - 1], items[|items| - 1];
      var before := RunItems(h, init, st);
      var first := AnchorsInOrder(h, init, st);
      var below: seq<Place> := [];
      if last.Attestation? {
        below := AttestationListing(h, items, st);
      } else {
        var made := Execute(h, last.operation, before.1.message);
        if made.Some? {
          below := AnchorsInOrder(h, last.child.items, Enter(h, before.1.(message := made.value)));
        }
        BranchListing(h, items, st, below);
      }
      places := first + Under(|items| - 1, below);
      JoinListings(h, items, st, first, below, before.0.anchors, RunItem(h, last, before.1).0.anchors);
    }
  }

  lemma EmptyListing<A>(h: Host, st: State)
    ensures Listing<A>(h, [], st, [], [])
  {
    hide Execute, Enter, ReadVaruint;
  }

  // ----- each calendar once, by its first promise -----

  /** The calendar that this item promises, if it does and can be decoded. */
  function PromiseOf<A>(h: Host, item: Item<A>): seq<string> {
    if item.Attestation? && item.tag == PENDING && CalendarUri(h, item.payload).Some?
    then [CalendarUri(h, item.payload).value] else []
  }

  /** The calendars that these items promise, in order. */
  function PromisesOf<A>(h: Host, items: seq<Item<A>>): seq<string> {
    if items == [] then [] else PromisesOf(h, items[..|items| - 1]) + PromiseOf(h, items[|items| - 1])
  }

  /** All calendars promised before the item at this place, from the top of its path to the bottom. */
  ghost function PromisesTo<A>(h: Host, items: seq<Item<A>>, place: Place): seq<string>
    requires IsItem(items, place)
    decreases |place|
  {
    PromisesOf(h, items[..place[0]])
      + if |place| == 1 then [] else PromisesTo(h, items[place[0]].child.items, place[1..])
  }

  /** `known`, then each name that is new at its first occurrence. */
  function FirstTimes(known: seq<string>, names: seq<string>): seq<string>
    decreases |names|
  {
    if names == [] then known
    else FirstTimes(if names[0] in known then known else known + [names[0]], names[1..])
  }

  lemma {:induction false} FirstTimesOfConcat(known: seq<string>, a: seq<string>, b: seq<string>)
    ensures FirstTimes(known, a + b) == FirstTimes(FirstTimes(known, a), b)
    decreases |a|
  {
    if a == [] {
      assert a + b == b;
    } else {
      assert (a + b)[1..] == a[1..] + b;
      FirstTimesOfConcat(if a[0] in known then known else known + [a[0]], a[1..], b);
    }
  }

  predicate NoRepeats(names: seq<string>) {
    forall i, j :: 0 <= i < j < |names| ==> names[i] != names[j]
  }

  /** No calendar is named twice, and those known before stay in front. */
  lemma {:induction false} FirstTimesHasNoRepeats(known: seq<string>, names: seq<string>)
    requires NoRepeats(known)
    ensures NoRepeats(FirstTimes(known, names)) && known <= FirstTimes(known, names)
    decreases |names|
  {
    if names != [] {
      FirstTimesHasNoRepeats(if names[0] in known then known else known + [names[0]], names[1..]);
    }
  }

  lemma {:induction false} CalendarsOfNodeInOrder<A>(h: Host, items: seq<Item<A>>, st: State)
    ensures RunItems(h, items, st).1.calendars == FirstTimes(st.calendars, PromisesOf(h, items))
    decreases |items|
  {
    if items != [] {
      var init, last := items[..|items| - 1], items[|items| - 1];
      CalendarsOfNodeInOrder(h, init, st);
      FirstTimesOfConcat(st.calendars, PromisesOf(h, init), PromiseOf(h, last));
      FirstTimesOfOne(RunItems(h, init, st).1.calendars, PromiseOf(h, last));
    }
  }

  lemma FirstTimesOfOne(known: seq<string>, names: seq<string>)
    requires |names| <= 1
    ensures FirstTimes(known, names) == if names == [] || names[0] in known then known else known + names
  {
    if names != [] {
      assert names[1..] == [] && [names[0]] == names;
    }
  }

  /** The calendars shown with an anchor stand in the order of their first promises on its path, each once. */
  lemma {:induction false} CalendarsInOrder<A>(h: Host, items: seq<Item<A>>, st: State, place: Place)
    requires IsItem(items, place) && StateAt(h, items, st, place).Some?
    ensures StateAt(h, items, st, place).value.calendars == FirstTimes(st.calendars, PromisesTo(h, items, place))
    ensures NoRepeats(st.calendars) ==> NoRepeats(StateAt(h, items, st, place).value.calendars)
    decreases |place|
  {
    CalendarsOfNodeInOrder(h, items[..place[0]], st);
    if NoRepeats(st.calendars) {
      FirstTimesHasNoRepeats(st.calendars, PromisesTo(h, items, place));
    }
    if |place| > 1 {
      var before, branch := RunItems(h, items[..place[0]], st).1, items[place[0]];
      var next := before.(message := Execute(h, branch.operation, before.message).value);
      EnterKeepsRest(h, next);
      CalendarsInOrder(h, branch.child.items, Enter(h, next), place[1..]);
      FirstTimesOfConcat(st.calendars, PromisesOf(h, items[..place[0]]), PromisesTo(h, branch.child.items, place[1..]));
    } else {
      assert PromisesTo(h, items, place) == PromisesOf(h, items[..place[0]]);
    }
  }
}
