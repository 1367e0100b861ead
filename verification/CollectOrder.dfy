/** The order in which calendars are asked: promise by promise. */
module CollectOrder {
  import opened Wire
  import opened Tree
  import opened Skip
  import opened Anchors
  import opened AnchorPlaces
  import opened AnchorOrder
  import opened Promises

  /** The target that the item at this place calls for: it is a promise, executing the way to its node gives the
      commitment, and nothing at or below that node reaches Bitcoin. */
  function TargetAt<A>(h: Host, t: Tree<A>, message: Bytes, place: Place): Option<Target<A>>
    decreases |place|
  {
    if place == [] || place[0] >= |t.items| then None
    else
      match t.items[place[0]]
      case Attestation(tag, payload) =>
        if |place| > 1 || tag != PENDING || BITCOIN in Tags(t.items) then None
        else (match CalendarUri(h, payload)
              case None => None
              case Some(url) => Some(Target(url, message, t.site)))
      case Branch(operation, child) =>
        match Execute(h, operation, message)
        case None => None
        case Some(next) => TargetAt(h, child, next, place[1..])
  }

  ghost predicate AllCall<A>(h: Host, t: Tree<A>, message: Bytes, places: seq<Place>, targets: seq<Target<A>>) {
    |places| == |targets| && forall i :: 0 <= i < |places| ==> TargetAt(h, t, message, places[i]) == Some(targets[i])
  }

  /** These places among items `from` to `to`, in order and no others, call for these targets. */
  ghost predicate Lists<A>(h: Host, t: Tree<A>, message: Bytes, from: nat, to: nat, places: seq<Place>, targets: seq<Target<A>>) {
    && InOrder(places) && AllCall(h, t, message, places, targets)
    && (forall i :: 0 <= i < |places| ==> places[i] != [] && from <= places[i][0] < to)
    && (forall place :: TargetAt(h, t, message, place).Some? && place != [] && from <= place[0] < to ==> place in places)
  }

  lemma TargetBelow<A>(h: Host, t: Tree<A>, message: Bytes, n: nat, below: Place)
    requires n < |t.items| && t.items[n].Branch?
    ensures TargetAt(h, t, message, [n] + below) ==
              match Execute(h, t.items[n].operation, message)
              case None => None
              case Some(next) => TargetAt(h, t.items[n].child, next, below)
  {
    var place := [n] + below;
    assert place[1..] == below;
  }

  lemma BranchLists<A>(h: Host, t: Tree<A>, message: Bytes, n: nat, below: seq<Place>)
    requires n < |t.items| && t.items[n].Branch?
    requires match Execute(h, t.items[n].operation, message)
             case None => below == []
             case Some(next) =>
               var child := t.items[n].child;
               Lists(h, child, next, 0, |child.items|, below, Collectible(h, child, Some(next)))
    ensures Lists(h, t, message, n, n + 1, Under(n, below), CollectItem(h, t, n, message))
  {
    hide Execute, TargetAt, Tags, CollectPrefix;
    forall i | 0 <= i < |below|
      ensures TargetAt(h, t, message, Under(n, below)[i]) == Some(CollectItem(h, t, n, message)[i])
    {
      TargetBelow(h, t, message, n, below[i]);
    }
    UnderInOrder([], n, below);
    assert [] + Under(n, below) == Under(n, below);
    forall place | TargetAt(h, t, message, place).Some? && place != [] && n <= place[0] < n + 1 ensures place in Under(n, below) {
      TargetIsUnder(h, t, message, n, below, place);
    }
  }

  lemma TargetIsUnder<A>(h: Host, t: Tree<A>, message: Bytes, n: nat, below: seq<Place>, place: Place)
    requires n < |t.items| && t.items[n].Branch? && place != [] && place[0] == n && TargetAt(h, t, message, place).Some?
    requires match Execute(h, t.items[n].operation, message)
             case None => true
             case Some(next) =>
               var child := t.items[n].child;
               forall p: Place :: TargetAt(h, child, next, p).Some? && p != [] && p[0] < |child.items| ==> p in below
    ensures place in Under(n, below)
  {
    hide Execute, TargetAt, Tags;
    var p := place[1..];
    assert place == [n] + p;
    TargetBelow(h, t, message, n, p);
    TargetIsAnItem(h, t.items[n].child, Execute(h, t.items[n].operation, message).value, p);
    var i :| 0 <= i < |below| && below[i] == p;
    assert Under(n, below)[i] == place;
  }

  lemma TargetIsAnItem<A>(h: Host, t: Tree<A>, message: Bytes, place: Place)
    requires TargetAt(h, t, message, place).Some?
    ensures place != [] && place[0] < |t.items|
  {
  }

  lemma AttestationLists<A>(h: Host, t: Tree<A>, message: Bytes, n: nat) returns (places: seq<Place>)
    requires n < |t.items| && t.items[n].Attestation?
    ensures Lists(h, t, message, n, n + 1, places, CollectItem(h, t, n, message))
  {
    hide Execute, Tags, CalendarUri;
    places := if CollectItem(h, t, n, message) == [] then [] else [[n]];
    forall place | TargetAt(h, t, message, place).Some? && place != [] && n <= place[0] < n + 1 ensures place in places {
      assert place == [n];
    }
  }

  lemma JoinLists<A>(h: Host, t: Tree<A>, message: Bytes, n: nat, p: seq<Place>, q: seq<Place>, a: seq<Target<A>>, b: seq<Target<A>>)
    requires Lists(h, t, message, 0, n, p, a) && Lists(h, t, message, n, n + 1, q, b)
    ensures Lists(h, t, message, 0, n + 1, p + q, a + b)
  {
    hide TargetAt;
    forall i: nat, j: nat | i < j < |p + q| ensures Before((p + q)[i], (p + q)[j]) {
    }
  }

  lemma {:induction false} PrefixInOrder<A>(h: Host, t: Tree<A>, n: nat, message: Bytes) returns (places: seq<Place>)
    requires n <= |t.items|
    ensures Lists(h, t, message, 0, n, places, CollectPrefix(h, t, n, message))
    decreases t, n
  {
    hide Lists, Execute;
    if n == 0 {
      places := [];
      NothingLists(h, t, message);
    } else {
      var first := PrefixInOrder(h, t, n - 1, message);
      var last: seq<Place>;
      if t.items[n - 1].Attestation? {
        last := AttestationLists(h, t, message, n - 1);
      } else {
        var made := Execute(h, t.items[n - 1].operation, message);
        var below: seq<Place> := [];
        if made.Some? {
          below := PromisesInOrder(h, t.items[n - 1].child, made.value);
        }
        BranchLists(h, t, message, n - 1, below);
        last := Under(n - 1, below);
      }
      places := first + last;
      JoinLists(h, t, message, n - 1, first, last, CollectPrefix(h, t, n - 1, message), CollectItem(h, t, n - 1, message));
    }
  }

  lemma NothingLists<A>(h: Host, t: Tree<A>, message: Bytes)
    ensures Lists(h, t, message, 0, 0, [], [])
  {
  }

  /** Each unfulfilled promise on an executable path is listed once, in the order in which the proof has them. */
  lemma {:induction false} PromisesInOrder<A>(h: Host, t: Tree<A>, message: Bytes) returns (places: seq<Place>)
    ensures Lists(h, t, message, 0, |t.items|, places, Collectible(h, t, Some(message)))
    decreases t, |t.items| + 1
  {
    hide Lists;
    places := PrefixInOrder(h, t, |t.items|, message);
  }
}
