/** Where each reported anchor comes from, item by item. */
module AnchorPlaces {
  import opened Wire
  import opened Tree
  import opened Skip
  import opened Transaction
  import opened Anchors
  import opened AnchorLaws

  // Its calendars are the promises that precede it on its path, its transaction the first message there that is one.

  /** The position of an item: the branch taken at each node, and its own place at the last. */
  type Place = seq<nat>

  ghost predicate IsItem<A>(items: seq<Item<A>>, place: Place)
    decreases |place|
  {
    && place != [] && place[0] < |items|
    && (|place| > 1 ==> items[place[0]].Branch? && IsItem(items[place[0]].child.items, place[1..]))
  }

  ghost function ItemAt<A>(items: seq<Item<A>>, place: Place): Item<A>
    requires IsItem(items, place)
    decreases |place|
  {
    if |place| == 1 then items[place[0]] else ItemAt(items[place[0]].child.items, place[1..])
  }

  /** The state in which the item at this place is come to, unless an operation on the way cannot be executed. */
  ghost function StateAt<A>(h: Host, items: seq<Item<A>>, st: State, place: Place): Option<State>
    requires IsItem(items, place)
    decreases |place|
  {
    var before := RunItems(h, items[..place[0]], st).1;
    if |place| == 1 then Some(before)
    else
      var branch := items[place[0]];
      match Execute(h, branch.operation, before.message)
      case None => None
      case Some(message) => StateAt(h, branch.child.items, Enter(h, before.(message := message)), place[1..])
  }

  /** The item here is a Bitcoin attestation, come to in this state, that this anchor shows. */
  ghost predicate Shows<A>(h: Host, items: seq<Item<A>>, st: State, place: Place, a: Anchor) {
    && IsItem(items, place) && StateAt(h, items, st, place).Some?
    && var item, s := ItemAt(items, place), StateAt(h, items, st, place).value;
       item.Attestation? && item.tag == BITCOIN && ReadVaruint(item.payload, 0).Ok?
       && a == Anchor(ReadVaruint(item.payload, 0).value, Reverse(s.message), s.transactionId, s.opReturn, s.calendars)
  }

  // ----- every anchor is shown by one such item, and every such item shows one -----

  lemma PrefixPlace<A>(h: Host, items: seq<Item<A>>, n: nat, st: State, place: Place, a: Anchor)
    requires n <= |items| && Shows(h, items[..n], st, place, a)
    ensures Shows(h, items, st, place, a)
  {
    assert items[..n][..place[0]] == items[..place[0]];
  }

  lemma {:induction false} AnchorHasPlace<A>(h: Host, items: seq<Item<A>>, st: State, a: Anchor) returns (place: Place)
    requires a in RunItems(h, items, st).0.anchors
    ensures Shows(h, items, st, place, a)
    decreases items
  {
    var last := |items| - 1;
    var before := RunItems(h, items[..last], st);
    if a in before.0.anchors {
      place := AnchorHasPlace(h, items[..last], st, a);
      PrefixPlace(h, items, last, st, place, a);
    } else {
      match items[last]
      case Attestation(tag, payload) =>
        place := [last];
      case Branch(operation, child) =>
        var message := Execute(h, operation, before.1.message).value;
        var below := AnchorHasPlace(h, child.items, Enter(h, before.1.(message := message)), a);
        place := [last] + below;
        assert place[1..] == below;
    }
  }

  lemma {:induction false} PlaceHasAnchor<A>(h: Host, items: seq<Item<A>>, st: State, place: Place, a: Anchor)
    requires Shows(h, items, st, place, a)
    ensures a in RunItems(h, items, st).0.anchors
    decreases items
  {
    var last := |items| - 1;
    var before := RunItems(h, items[..last], st);
    if place[0] < last {
      assert items[..last][..place[0]] == items[..place[0]];
      PlaceHasAnchor(h, items[..last], st, place, a);
    } else if |place| > 1 {
      var branch := items[last];
      var message := Execute(h, branch.operation, before.1.message).value;
      PlaceHasAnchor(h, branch.child.items, Enter(h, before.1.(message := message)), place[1..], a);
    }
  }

  /** An anchor is reported exactly when some Bitcoin attestation shows it: its height, and of the state in which that
      item is come to, the message, the transaction and the calendars. */
  lemma AnchorsExactly<A>(h: Host, items: seq<Item<A>>, st: State, a: Anchor)
    ensures a in RunItems(h, items, st).0.anchors <==> exists place :: Shows(h, items, st, place, a)
  {
    if a in RunItems(h, items, st).0.anchors {
      var place := AnchorHasPlace(h, items, st, a);
    }
    if exists place :: Shows(h, items, st, place, a) {
      var place :| Shows(h, items, st, place, a);
      PlaceHasAnchor(h, items, st, place, a);
    }
  }

  // ----- calendars -----

  /** A decodable promise of this calendar. */
  predicate IsPromise<A>(h: Host, item: Item<A>, uri: string) {
    item.Attestation? && item.tag == PENDING && CalendarUri(h, item.payload) == Some(uri)
  }

  ghost predicate SomePromise<A>(h: Host, items: seq<Item<A>>, uri: string) {
    exists i :: 0 <= i < |items| && IsPromise(h, items[i], uri)
  }

  /** This calendar is promised before the item at this place, at its own node or at one above. */
  ghost predicate PromisedBefore<A>(h: Host, items: seq<Item<A>>, place: Place, uri: string)
    requires IsItem(items, place)
    decreases |place|
  {
    || SomePromise(h, items[..place[0]], uri)
    || (|place| > 1 && PromisedBefore(h, items[place[0]].child.items, place[1..], uri))
  }

  lemma {:induction false} CalendarsOfNode<A>(h: Host, items: seq<Item<A>>, st: State, uri: string)
    ensures var after := RunItems(h, items, st).1;
            && after == st.(calendars := after.calendars)
            && (uri in after.calendars <==> uri in st.calendars || SomePromise(h, items, uri))
    decreases |items|
  {
    if items != [] {
      var init, last := items[..|items| - 1], items[|items| - 1];
      CalendarsOfNode(h, init, st, uri);
      assert SomePromise(h, items, uri) <==> SomePromise(h, init, uri) || IsPromise(h, last, uri) by {
        assert forall i :: 0 <= i < |init| ==> items[i] == init[i];
        if SomePromise(h, init, uri) {
          var i :| 0 <= i < |init| && IsPromise(h, init[i], uri);
          assert IsPromise(h, items[i], uri);
        }
      }
    }
  }

  lemma EnterKeepsRest(h: Host, st: State)
    ensures Enter(h, st).message == st.message && Enter(h, st).calendars == st.calendars
  {
    hide OutputScripts, OpReturn;
  }

  /** The calendars shown with an anchor are exactly those promised before it on its path. */
  lemma {:induction false} CalendarsAreThePromises<A>(h: Host, items: seq<Item<A>>, st: State, place: Place, uri: string)
    requires IsItem(items, place) && StateAt(h, items, st, place).Some?
    ensures uri in StateAt(h, items, st, place).value.calendars
       <==> uri in st.calendars || PromisedBefore(h, items, place, uri)
    decreases |place|
  {
    CalendarsOfNode(h, items[..place[0]], st, uri);
    if |place| > 1 {
      var before, branch := RunItems(h, items[..place[0]], st).1, items[place[0]];
      var next := before.(message := Execute(h, branch.operation, before.message).value);
      EnterKeepsRest(h, next);
      CalendarsAreThePromises(h, branch.child.items, Enter(h, next), place[1..], uri);
    }
  }

  // ----- the transaction -----

  /** The messages of the nodes entered below this one on the way to a place. */
  ghost function MessagesTo<A>(h: Host, items: seq<Item<A>>, message: Bytes, place: Place): seq<Bytes>
    requires IsItem(items, place)
    decreases |place|
  {
    if |place| == 1 then []
    else
      var branch := items[place[0]];
      match Execute(h, branch.operation, message)
      case None => []
      case Some(next) => [next] + MessagesTo(h, branch.child.items, next, place[1..])
  }

  /** The first of these messages that is a transaction. */
  function FirstTransaction(messages: seq<Bytes>): (r: Option<Bytes>)
    ensures r.Some? ==> r.value in messages && OutputScripts(r.value).Some?
    ensures r.None? ==> forall i :: 0 <= i < |messages| ==> OutputScripts(messages[i]).None?
  {
    if messages == [] then None
    else if OutputScripts(messages[0]).Some? then Some(messages[0])
    else FirstTransaction(messages[1..])
  }

  /** The transaction shown with an anchor, with the data of its OP_RETURN, is the first one met on its path. */
  lemma {:induction false} TransactionIsTheFirst<A>(h: Host, items: seq<Item<A>>, st: State, place: Place)
    requires IsItem(items, place) && StateAt(h, items, st, place).Some?
    ensures var s := StateAt(h, items, st, place).value;
            if st.transactionId.Some? then s.transactionId == st.transactionId && s.opReturn == st.opReturn
            else
              match FirstTransaction(MessagesTo(h, items, st.message, place))
              case None => s.transactionId == None && s.opReturn == st.opReturn
              case Some(transaction) =>
                && s.transactionId == Some(Reverse(h.sha256(h.sha256(transaction))))
                && s.opReturn == OpReturn(OutputScripts(transaction).value)
    decreases |place|
  {
    CalendarsOfNode(h, items[..place[0]], st, "");
    if |place| > 1 {
      var before, branch := RunItems(h, items[..place[0]], st).1, items[place[0]];
      var message := Execute(h, branch.operation, before.message).value;
      var below := MessagesTo(h, branch.child.items, message, place[1..]);
      EnterKeepsRest(h, before.(message := message));
      TransactionIsTheFirst(h, branch.child.items, Enter(h, before.(message := message)), place[1..]);
      assert ([message] + below)[1..] == below;
    }
  }

  // ----- what is pending -----

  /** An executable path leads to a promise of this calendar. */
  ghost predicate Reaches<A>(h: Host, items: seq<Item<A>>, st: State, place: Place, uri: string) {
    IsItem(items, place) && StateAt(h, items, st, place).Some? && IsPromise(h, ItemAt(items, place), uri)
  }

  ghost predicate PromisedOnPath<A>(h: Host, items: seq<Item<A>>, st: State, uri: string) {
    exists place :: Reaches(h, items, st, place, uri)
  }

  lemma ReachesPrefix<A>(h: Host, items: seq<Item<A>>, n: nat, st: State, place: Place, uri: string)
    requires n <= |items| && IsItem(items, place) && place[0] < n
    ensures Reaches(h, items[..n], st, place, uri) <==> Reaches(h, items, st, place, uri)
  {
    assert items[..n][..place[0]] == items[..place[0]];
  }

  lemma {:induction false} PendingIsPromised<A>(h: Host, items: seq<Item<A>>, st: State, uri: string) returns (place: Place)
    requires uri in RunItems(h, items, st).0.pending
    ensures uri !in st.calendars && Reaches(h, items, st, place, uri)
    decreases items
  {
    var last := |items| - 1;
    var before := RunItems(h, items[..last], st);
    CalendarsOfNode(h, items[..last], st, uri);
    if uri in before.0.pending {
      place := PendingIsPromised(h, items[..last], st, uri);
      ReachesPrefix(h, items, last, st, place, uri);
    } else {
      match items[last]
      case Attestation(tag, payload) =>
        place := [last];
      case Branch(operation, child) =>
        var next := before.1.(message := Execute(h, operation, before.1.message).value);
        EnterKeepsRest(h, next);
        var below := PendingIsPromised(h, child.items, Enter(h, next), uri);
        place := [last] + below;
        assert place[1..] == below;
    }
  }

  /** A promise among a node's own items is pending, unless the calendar was in scope already. */
  lemma {:induction false} OwnPromiseIsPending<A>(h: Host, items: seq<Item<A>>, st: State, uri: string)
    requires SomePromise(h, items, uri) && uri !in st.calendars
    ensures uri in RunItems(h, items, st).0.pending
    decreases |items|
  {
    var init, last := items[..|items| - 1], items[|items| - 1];
    CalendarsOfNode(h, init, st, uri);
    var i :| 0 <= i < |items| && IsPromise(h, items[i], uri);
    if i < |init| {
      assert IsPromise(h, init[i], uri);
      OwnPromiseIsPending(h, init, st, uri);
    } else if SomePromise(h, init, uri) {
      OwnPromiseIsPending(h, init, st, uri);
    }
  }

  lemma {:induction false} PromisedIsPending<A>(h: Host, items: seq<Item<A>>, st: State, place: Place, uri: string)
    requires Reaches(h, items, st, place, uri) && uri !in st.calendars
    ensures uri in RunItems(h, items, st).0.pending
    decreases items
  {
    var last := |items| - 1;
    var before := RunItems(h, items[..last], st);
    CalendarsOfNode(h, items[..last], st, uri);
    if place[0] < last {
      ReachesPrefix(h, items, last, st, place, uri);
      PromisedIsPending(h, items[..last], st, place, uri);
    } else if uri in before.1.calendars {
      OwnPromiseIsPending(h, items[..last], st, uri);
    } else if |place| > 1 {
      var branch := items[last];
      var next := before.1.(message := Execute(h, branch.operation, before.1.message).value);
      EnterKeepsRest(h, next);
      PromisedIsPending(h, branch.child.items, Enter(h, next), place[1..], uri);
    }
  }

  /** A calendar is recorded as pending exactly when it is promised on an executable path, whatever stands before. */
  lemma PendingExactly<A>(h: Host, items: seq<Item<A>>, st: State, uri: string)
    requires uri !in st.calendars
    ensures uri in RunItems(h, items, st).0.pending <==> PromisedOnPath(h, items, st, uri)
  {
    if uri in RunItems(h, items, st).0.pending {
      var place := PendingIsPromised(h, items, st, uri);
    }
    if PromisedOnPath(h, items, st, uri) {
      var place :| Reaches(h, items, st, place, uri);
      PromisedIsPending(h, items, st, place, uri);
    }
  }

  /** Of a whole proof, a calendar is outstanding exactly when it is promised on an executable path and no Bitcoin
      attestation shows an anchor of it. */
  lemma OutstandingExactly<A>(h: Host, t: Tree<A>, digest: Bytes, uri: string)
    ensures var st := RootState(h, digest);
            var run := RunItems(h, t.items, st).0;
            uri in (set u | u in run.pending) - AnchoringCalendars(run.anchors)
            <==> PromisedOnPath(h, t.items, st, uri)
                 && forall place, a :: Shows(h, t.items, st, place, a) ==> uri !in a.calendars
  {
    var st := RootState(h, digest);
    EnterKeepsRest(h, State(digest, [], None, None));
    assert st.calendars == [];
    hide RootState, Shows, PromisedOnPath;
    PendingExactly(h, t.items, st, uri);
    var run := RunItems(h, t.items, st).0;
    forall a ensures a in run.anchors <==> exists place :: Shows(h, t.items, st, place, a) {
      AnchorsExactly(h, t.items, st, a);
    }
    if uri in AnchoringCalendars(run.anchors) {
      var i :| 0 <= i < |run.anchors| && uri in run.anchors[i].calendars;
      assert run.anchors[i] in run.anchors;
    }
    if place, a :| Shows(h, t.items, st, place, a) && uri in a.calendars {
      assert a in run.anchors;
      var i :| 0 <= i < |run.anchors| && run.anchors[i] == a;
    }
  }
}
