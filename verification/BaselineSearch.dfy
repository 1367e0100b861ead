/** The early-exit search for a proof-commit baseline, against the greatest of all. */
module BaselineSearch {
  import opened Wire
  import opened Protocol

  // Manifests are taken in groups of one submission time, newest group first, newest source first within a group,
  // until one validates.

  type CommitId = nat

  /** A manifest in the source's tree, in path order: its submission time, if it parses, the source it claims,
      and whether schema, proof binding and the rest would validate. */
  datatype Manifest = Manifest(submittedAt: Option<int>, claimed: Option<CommitId>, sound: bool)

  /** The position of a commit in the walk from the source, newest first; past the end if it is not there. */
  function Position(walk: seq<CommitId>, c: CommitId): (p: nat)
    ensures p <= |walk| && (p < |walk| ==> walk[p] == c) && (p == |walk| <==> c !in walk)
    ensures forall q :: 0 <= q < |walk| && walk[q] == c ==> p <= q
  {
    if walk == [] then 0 else if walk[0] == c then 0 else 1 + Position(walk[1..], c)
  }

  /** `_validate_proof_commit_manifest_content`: among the rest, the claimed source is an ancestor. */
  predicate Validates(walk: seq<CommitId>, m: Manifest) {
    m.submittedAt.Some? && m.claimed.Some? && m.claimed.value in walk && m.sound
  }

  /** `a` is a newer stamp than `b`: by submission time, then by the position of its source. */
  predicate Newer(walk: seq<CommitId>, a: Manifest, b: Manifest) {
    && Validates(walk, a) && Validates(walk, b)
    && (a.submittedAt.value > b.submittedAt.value
        || (a.submittedAt == b.submittedAt && Position(walk, a.claimed.value) < Position(walk, b.claimed.value)))
  }

  /** Two manifests of one source and one time. */
  predicate Same(a: Manifest, b: Manifest) {
    a.submittedAt == b.submittedAt && a.claimed == b.claimed
  }

  /** A later manifest, in path order, claims the same source at the same time. */
  ghost predicate Shadowed(ms: seq<Manifest>, i: nat) {
    exists j :: i < j < |ms| && Same(ms[j], ms[i])
  }

  ghost predicate Eligible(walk: seq<CommitId>, ms: seq<Manifest>, i: nat) {
    i < |ms| && Validates(walk, ms[i]) && !Shadowed(ms, i)
  }

  /** The reference: nothing that validates is newer. */
  ghost predicate Greatest(walk: seq<CommitId>, ms: seq<Manifest>, i: nat) {
    && i < |ms| && Validates(walk, ms[i])
    && forall j :: 0 <= j < |ms| && Validates(walk, ms[j]) ==> !Newer(walk, ms[j], ms[i])
  }

  // ----- sorting, newest first and stable -----

  predicate Precedes(ms: seq<Manifest>, a: nat, b: nat) {
    && a < |ms| && b < |ms| && ms[a].submittedAt.Some? && ms[b].submittedAt.Some?
    && (ms[a].submittedAt.value > ms[b].submittedAt.value || (ms[a].submittedAt == ms[b].submittedAt && a < b))
  }

  /** Dated manifests of the list, each before those that come after it. */
  ghost predicate InOrder(ms: seq<Manifest>, s: seq<nat>) {
    && (forall k :: 0 <= k < |s| ==> s[k] < |ms| && ms[s[k]].submittedAt.Some?)
    && (forall k, l :: 0 <= k < l < |s| ==> Precedes(ms, s[k], s[l]))
  }

  function Insert(ms: seq<Manifest>, s: seq<nat>, k: nat): (r: seq<nat>)
    requires k < |ms| && ms[k].submittedAt.Some?
    requires forall l :: 0 <= l < |s| ==> s[l] < |ms| && ms[s[l]].submittedAt.Some?
    ensures forall i :: i in r <==> i in s || i == k
  {
    if s == [] then [k]
    else if ms[k].submittedAt.value > ms[s[0]].submittedAt.value then [k] + s
    else [s[0]] + Insert(ms, s[1..], k)
  }

  lemma Prepend(ms: seq<Manifest>, k: nat, s: seq<nat>)
    requires k < |ms| && ms[k].submittedAt.Some? && InOrder(ms, s)
    requires forall i :: i in s ==> i < |ms| && ms[i].submittedAt.Some? && Precedes(ms, k, i)
    ensures InOrder(ms, [k] + s)
  {
  }

  /** Whatever the head of the list precedes and what precedes the head. */
  lemma HeadPrecedes(ms: seq<Manifest>, s: seq<nat>)
    requires InOrder(ms, s) && s != []
    ensures InOrder(ms, s[1..]) && forall i :: i in s[1..] ==> i in s && Precedes(ms, s[0], i)
  {
    forall i | i in s[1..] ensures i in s && Precedes(ms, s[0], i) {
      var l :| 0 <= l < |s[1..]| && s[1..][l] == i;
      assert s[l + 1] == i;
    }
  }

  lemma {:induction false} InsertKeepsOrder(ms: seq<Manifest>, s: seq<nat>, k: nat)
    requires k < |ms| && ms[k].submittedAt.Some? && InOrder(ms, s) && forall i :: i in s ==> i < k
    ensures InOrder(ms, Insert(ms, s, k))
  {
    if s != [] {
      HeadPrecedes(ms, s);
      assert s == [s[0]] + s[1..] && s[0] in s;
      assert forall i :: i in s ==> i == s[0] || i in s[1..];
      hide InOrder;
      if ms[k].submittedAt.value > ms[s[0]].submittedAt.value {
        Prepend(ms, k, s);
      } else {
        assert Precedes(ms, s[0], k);
        hide Precedes;
        InsertKeepsOrder(ms, s[1..], k);
        Prepend(ms, s[0], Insert(ms, s[1..], k));
      }
    }
  }

  function SortNewestFirst(ms: seq<Manifest>, n: nat): (s: seq<nat>)
    requires n <= |ms|
    ensures forall l :: 0 <= l < |s| ==> s[l] < n && ms[s[l]].submittedAt.Some?
  {
    if n == 0 then []
    else if ms[n - 1].submittedAt.None? then SortNewestFirst(ms, n - 1)
    else
      var s := SortNewestFirst(ms, n - 1);
      var r := Insert(ms, s, n - 1);
      assert forall l :: 0 <= l < |r| ==> r[l] in r;
      r
  }

  lemma {:induction false} SortIsSorted(ms: seq<Manifest>, n: nat)
    requires n <= |ms|
    ensures InOrder(ms, SortNewestFirst(ms, n))
    ensures forall i: nat :: i in SortNewestFirst(ms, n) <==> i < n && ms[i].submittedAt.Some?
  {
    if n > 0 {
      SortIsSorted(ms, n - 1);
      if ms[n - 1].submittedAt.Some? {
        InsertKeepsOrder(ms, SortNewestFirst(ms, n - 1), n - 1);
      }
    }
  }

  // ----- the walk -----

  /** Of this group, the first, newest source first, that validates. A source that the walk does not find
      sorts last, and does not validate. */
  method FirstValid(ms: seq<Manifest>, walk: seq<CommitId>, group: map<CommitId, nat>) returns (r: Option<nat>)
    requires forall c :: c in group ==> group[c] < |ms| && ms[group[c]].claimed == Some(c) && ms[group[c]].submittedAt.Some?
    ensures match r
            case None => forall c :: c in group ==> !Validates(walk, ms[group[c]])
            case Some(i) =>
              && i < |ms| && ms[i].claimed.Some? && ms[i].claimed.value in group && group[ms[i].claimed.value] == i
              && Validates(walk, ms[i])
              && forall c :: c in group && Validates(walk, ms[group[c]]) ==>
                   Position(walk, ms[i].claimed.value) <= Position(walk, c)
  {
    for p := 0 to |walk|
      invariant forall c :: c in group && Position(walk, c) < p ==> !Validates(walk, ms[group[c]])
    {
      var c := walk[p];
      if c in group && Validates(walk, ms[group[c]]) {
        return Some(group[c]);
      }
    }
    forall c | c in group ensures !Validates(walk, ms[group[c]]) {
      assert c in walk ==> Position(walk, c) < |walk|;
    }
    return None;
  }

  /** For each source claimed by these, the last in path order that claims it. */
  ghost predicate Grouped(ms: seq<Manifest>, part: seq<nat>, group: map<CommitId, nat>) {
    && (forall k :: 0 <= k < |part| ==> part[k] < |ms|)
    && (forall c :: c in group ==> group[c] in part && ms[group[c]].claimed == Some(c))
    && (forall k :: 0 <= k < |part| && ms[part[k]].claimed.Some? ==>
          ms[part[k]].claimed.value in group && part[k] <= group[ms[part[k]].claimed.value])
  }

  lemma GroupedNext(ms: seq<Manifest>, part: seq<nat>, group: map<CommitId, nat>, i: nat)
    requires Grouped(ms, part, group) && i < |ms| && forall k :: 0 <= k < |part| ==> part[k] < i
    ensures Grouped(ms, part + [i], if ms[i].claimed.Some? then group[ms[i].claimed.value := i] else group)
  {
    assert i in part + [i];
    assert forall j :: j in part ==> j in part + [i];
  }

  /** The group that starts here: everything of the same submission time. */
  method NextGroup(ms: seq<Manifest>, sorted: seq<nat>, first: nat) returns (index: nat, group: map<CommitId, nat>)
    requires InOrder(ms, sorted) && first < |sorted|
    ensures first < index <= |sorted| && Grouped(ms, sorted[first..index], group)
    ensures forall k :: first <= k < index ==> ms[sorted[k]].submittedAt == ms[sorted[first]].submittedAt
    ensures index < |sorted| ==> ms[sorted[index]].submittedAt.value < ms[sorted[first]].submittedAt.value
  {
    var tiedAt := ms[sorted[first]].submittedAt.value;
    index, group := first, map[];
    while index < |sorted| && ms[sorted[index]].submittedAt.value == tiedAt
      invariant first <= index <= |sorted| && Grouped(ms, sorted[first..index], group)
      invariant forall k :: first <= k < index ==> ms[sorted[k]].submittedAt.value == tiedAt
    {
      assert sorted[first..index + 1] == sorted[first..index] + [sorted[index]];
      forall k | first <= k < index ensures sorted[k] < sorted[index] {
        assert Precedes(ms, sorted[k], sorted[index]);
      }
      GroupedNext(ms, sorted[first..index], group, sorted[index]);
      hide Grouped, Precedes;
      if ms[sorted[index]].claimed.Some? {
        group := group[ms[sorted[index]].claimed.value := sorted[index]];
      }
      index := index + 1;
    }
    assert index > first;
    assert index < |sorted| ==> Precedes(ms, sorted[first], sorted[index]);
  }

  ghost predicate NoneEligible(ms: seq<Manifest>, walk: seq<CommitId>, part: seq<nat>) {
    forall k :: 0 <= k < |part| ==> !Eligible(walk, ms, part[k])
  }

  /** A group is everything of its time. */
  ghost predicate WholeGroup(ms: seq<Manifest>, part: seq<nat>, at: int) {
    && (forall k :: 0 <= k < |part| ==> part[k] < |ms| && ms[part[k]].submittedAt == Some(at))
    && (forall i: nat :: i < |ms| && ms[i].submittedAt == Some(at) ==> i in part)
  }

  lemma GroupIsWhole(ms: seq<Manifest>, sorted: seq<nat>, first: nat, index: nat)
    requires InOrder(ms, sorted) && forall i: nat :: i < |ms| && ms[i].submittedAt.Some? ==> i in sorted
    requires first < index <= |sorted|
    requires forall k :: first <= k < index ==> ms[sorted[k]].submittedAt == ms[sorted[first]].submittedAt
    requires index < |sorted| ==> ms[sorted[index]].submittedAt.value < ms[sorted[first]].submittedAt.value
    requires first > 0 ==> ms[sorted[first]].submittedAt.value < ms[sorted[first - 1]].submittedAt.value
    ensures WholeGroup(ms, sorted[first..index], ms[sorted[first]].submittedAt.value)
  {
    var at := ms[sorted[first]].submittedAt.value;
    forall k | 0 <= k < first ensures ms[sorted[k]].submittedAt.value > at {
      assert k + 1 < first ==> Precedes(ms, sorted[k], sorted[first - 1]);
    }
    forall k | index <= k < |sorted| ensures ms[sorted[k]].submittedAt.value < at {
      assert index < k ==> Precedes(ms, sorted[index], sorted[k]);
    }
    forall i: nat | i < |ms| && ms[i].submittedAt == Some(at) ensures i in sorted[first..index] {
      var k :| 0 <= k < |sorted| && sorted[k] == i;
      assert sorted[first..index][k - first] == i;
    }
  }

  lemma GroupIsDated(ms: seq<Manifest>, part: seq<nat>, at: int, group: map<CommitId, nat>)
    requires WholeGroup(ms, part, at) && Grouped(ms, part, group)
    ensures forall c :: c in group ==> group[c] < |ms| && ms[group[c]].claimed == Some(c) && ms[group[c]].submittedAt.Some?
  {
  }

  /** In a whole group, what is eligible is what the group holds and validates. */
  lemma EligibleInGroup(ms: seq<Manifest>, walk: seq<CommitId>, part: seq<nat>, at: int, group: map<CommitId, nat>, i: nat)
    requires WholeGroup(ms, part, at) && Grouped(ms, part, group) && i < |ms| && ms[i].submittedAt == Some(at)
    ensures Eligible(walk, ms, i) <==>
              Validates(walk, ms[i]) && ms[i].claimed.value in group && group[ms[i].claimed.value] == i
  {
    if Validates(walk, ms[i]) {
      var k :| 0 <= k < |part| && part[k] == i;
      var c := ms[i].claimed.value;
      assert c in group && i <= group[c] && group[c] in part;
      forall j | group[c] < j < |ms| && ms[j].submittedAt == Some(at) ensures ms[j].claimed != Some(c) {
        var l :| 0 <= l < |part| && part[l] == j;
      }
    }
  }

  lemma GroupFails(ms: seq<Manifest>, walk: seq<CommitId>, sorted: seq<nat>, first: nat, index: nat, group: map<CommitId, nat>,
                   at: int)
    requires first <= index <= |sorted| && NoneEligible(ms, walk, sorted[..first])
    requires WholeGroup(ms, sorted[first..index], at) && Grouped(ms, sorted[first..index], group)
    requires forall c :: c in group ==> group[c] < |ms| && !Validates(walk, ms[group[c]])
    ensures NoneEligible(ms, walk, sorted[..index])
  {
    var part := sorted[first..index];
    forall k | 0 <= k < index ensures !Eligible(walk, ms, sorted[k]) {
      if k < first {
        assert sorted[..first][k] == sorted[k];
      } else {
        assert part[k - first] == sorted[k];
        EligibleInGroup(ms, walk, part, at, group, sorted[k]);
      }
    }
  }

  lemma GroupWins(ms: seq<Manifest>, walk: seq<CommitId>, sorted: seq<nat>, first: nat, index: nat, group: map<CommitId, nat>,
                  at: int, i: nat)
    requires InOrder(ms, sorted) && forall j: nat :: j < |ms| && ms[j].submittedAt.Some? ==> j in sorted
    requires first < index <= |sorted| && NoneEligible(ms, walk, sorted[..first]) && ms[sorted[first]].submittedAt == Some(at)
    requires WholeGroup(ms, sorted[first..index], at) && Grouped(ms, sorted[first..index], group)
    requires i < |ms| && Validates(walk, ms[i]) && ms[i].claimed.value in group && group[ms[i].claimed.value] == i
    requires forall c :: c in group && group[c] < |ms| && Validates(walk, ms[group[c]])
               ==> Position(walk, ms[i].claimed.value) <= Position(walk, c)
    ensures Eligible(walk, ms, i)
    ensures forall j :: 0 <= j < |ms| && Eligible(walk, ms, j) ==> !Newer(walk, ms[j], ms[i])
  {
    var part := sorted[first..index];
    assert i in part;
    EligibleInGroup(ms, walk, part, at, group, i);
    forall k | 0 <= k < first ensures !Eligible(walk, ms, sorted[k]) {
      assert sorted[..first][k] == sorted[k];
    }
    forall j | 0 <= j < |ms| && Eligible(walk, ms, j) ensures !Newer(walk, ms[j], ms[i]) {
      var k :| 0 <= k < |sorted| && sorted[k] == j;
      assert first < k ==> Precedes(ms, sorted[first], sorted[k]);
      if ms[j].submittedAt == Some(at) {
        EligibleInGroup(ms, walk, part, at, group, j);
      }
    }
  }

  /** The newest manifest that validates, of those that no later manifest of the same source and time
      shadows. */
  ghost predicate Found(walk: seq<CommitId>, ms: seq<Manifest>, r: Option<nat>) {
    match r
    case None => forall i :: 0 <= i < |ms| ==> !Eligible(walk, ms, i)
    case Some(i) => Eligible(walk, ms, i) && forall j :: 0 <= j < |ms| && Eligible(walk, ms, j) ==> !Newer(walk, ms[j], ms[i])
  }

  /** The early-exit walk; there is no baseline without a generated proof commit in the history. */
  method FindBaseline(ms: seq<Manifest>, walk: seq<CommitId>, hasProofCommit: bool) returns (r: Option<nat>)
    ensures if hasProofCommit then Found(walk, ms, r) else r.None?
  {
    if !hasProofCommit {
      return None;
    }
    var sorted := SortNewestFirst(ms, |ms|);
    SortIsSorted(ms, |ms|);
    var index := 0;
    while index < |sorted|
      invariant index <= |sorted| && NoneEligible(ms, walk, sorted[..index])
      invariant 0 < index < |sorted| ==> ms[sorted[index]].submittedAt.value < ms[sorted[index - 1]].submittedAt.value
    {
      var first, group := index, map[];
      index, group := NextGroup(ms, sorted, first);
      GroupIsWhole(ms, sorted, first, index);
      ghost var at := ms[sorted[first]].submittedAt.value;
      GroupIsDated(ms, sorted[first..index], at, group);
      hide Grouped, WholeGroup, NoneEligible, Eligible;
      var found := FirstValid(ms, walk, group);
      if found.Some? {
        GroupWins(ms, walk, sorted, first, index, group, at, found.value);
        return found;
      }
      GroupFails(ms, walk, sorted, first, index, group, at);
    }
    assert sorted[..index] == sorted;
    return None;
  }

  // ----- against the greatest of all -----

  /** The newest stamp is not hidden: of the manifests of its source and time, the last is sound. */
  ghost predicate TopNotHidden(walk: seq<CommitId>, ms: seq<Manifest>) {
    forall i :: 0 <= i < |ms| && Greatest(walk, ms, i) ==>
      exists j :: 0 <= j < |ms| && Eligible(walk, ms, j) && Same(ms[j], ms[i])
  }

  /** The result is the reference's: a greatest of all the manifests in the tree, and none only if none
      validates. */
  ghost predicate Exact(walk: seq<CommitId>, ms: seq<Manifest>, r: Option<nat>) {
    match r
    case None => forall i :: 0 <= i < |ms| ==> !Validates(walk, ms[i])
    case Some(i) => Greatest(walk, ms, i)
  }

  lemma NewerIsTotal(walk: seq<CommitId>, a: Manifest, b: Manifest)
    requires Validates(walk, a) && Validates(walk, b)
    ensures Newer(walk, a, b) || Newer(walk, b, a) || Same(a, b)
  {
    var p, q := Position(walk, a.claimed.value), Position(walk, b.claimed.value);
    assert walk[p] == a.claimed.value && walk[q] == b.claimed.value;
  }

  lemma {:induction false} SomeIsGreatest(walk: seq<CommitId>, ms: seq<Manifest>, i: nat)
    requires i < |ms| && Validates(walk, ms[i])
    ensures exists g: nat :: Greatest(walk, ms, g)
  {
    var last: nat := |ms| - 1;
    var rest := ms[..last];
    if exists k :: 0 <= k < last && Validates(walk, ms[k]) {
      var k: nat :| k < last && Validates(walk, ms[k]);
      SomeIsGreatest(walk, rest, k);
      var g: nat :| Greatest(walk, rest, g);
      assert forall j :: 0 <= j < last ==> rest[j] == ms[j];
      if Validates(walk, ms[last]) && Newer(walk, ms[last], ms[g]) {
        assert Greatest(walk, ms, last);
      } else {
        assert Greatest(walk, ms, g);
      }
    } else {
      assert Greatest(walk, ms, i);
    }
  }

  lemma GreatestAreSame(walk: seq<CommitId>, ms: seq<Manifest>, i: nat, j: nat)
    requires Greatest(walk, ms, i) && j < |ms| && Validates(walk, ms[j]) && !Newer(walk, ms[i], ms[j])
    ensures Same(ms[j], ms[i])
  {
    NewerIsTotal(walk, ms[i], ms[j]);
  }

  lemma HiddenMeansLost(walk: seq<CommitId>, ms: seq<Manifest>, r: Option<nat>)
    requires Found(walk, ms, r) && Exact(walk, ms, r)
    ensures TopNotHidden(walk, ms)
  {
    forall i | 0 <= i < |ms| && Greatest(walk, ms, i)
      ensures exists j :: 0 <= j < |ms| && Eligible(walk, ms, j) && Same(ms[j], ms[i])
    {
      GreatestAreSame(walk, ms, i, r.value);
    }
  }

  lemma NotHiddenMeansExact(walk: seq<CommitId>, ms: seq<Manifest>, r: Option<nat>, i: nat)
    requires Found(walk, ms, r) && TopNotHidden(walk, ms) && i < |ms| && Validates(walk, ms[i])
    ensures r.Some? && Greatest(walk, ms, r.value)
  {
    SomeIsGreatest(walk, ms, i);
    var g: nat :| Greatest(walk, ms, g);
    var j :| 0 <= j < |ms| && Eligible(walk, ms, j) && Same(ms[j], ms[g]);
    assert r.Some? && Validates(walk, ms[r.value]) && !Newer(walk, ms[j], ms[r.value]);
    hide Found, Eligible, TopNotHidden;
    GreatestAreSame(walk, ms, g, r.value);
    assert Same(ms[r.value], ms[g]);
    assert Greatest(walk, ms, r.value);
  }

  /** The early exit loses nothing exactly when the newest stamp is not hidden. */
  lemma EarlyExitIsExact(walk: seq<CommitId>, ms: seq<Manifest>, r: Option<nat>)
    requires Found(walk, ms, r)
    ensures Exact(walk, ms, r) <==> TopNotHidden(walk, ms)
  {
    if Exact(walk, ms, r) {
      HiddenMeansLost(walk, ms, r);
    }
    forall i: nat | TopNotHidden(walk, ms) && i < |ms| && Validates(walk, ms[i])
      ensures r.Some? && Greatest(walk, ms, r.value)
    {
      NotHiddenMeansExact(walk, ms, r, i);
    }
  }

  /** With distinct claimed sources nothing is hidden. */
  lemma DistinctSourcesAreNotHidden(walk: seq<CommitId>, ms: seq<Manifest>)
    requires forall i, j :: 0 <= i < j < |ms| && ms[i].claimed.Some? && ms[j].claimed.Some? ==> ms[i].claimed != ms[j].claimed
    ensures TopNotHidden(walk, ms)
  {
    forall i | 0 <= i < |ms| && Greatest(walk, ms, i)
      ensures exists j :: 0 <= j < |ms| && Eligible(walk, ms, j) && Same(ms[j], ms[i])
    {
      assert Eligible(walk, ms, i) && Same(ms[i], ms[i]);
    }
  }

  /** But a second manifest of the same source and time, later in path order and unsound, hides a sound one
      from the search, and an older baseline wins. */
  lemma ShadowHidesTheGreatest()
    ensures var sound, shadow, older := Manifest(Some(2), Some(8), true), Manifest(Some(2), Some(8), false), Manifest(Some(1), Some(7), true);
            var walk, ms := [8, 7], [sound, shadow, older];
            Found(walk, ms, Some(2)) && Greatest(walk, ms, 0) && !Greatest(walk, ms, 2) && !Found(walk, ms, Some(0))
  {
    var sound, shadow, older := Manifest(Some(2), Some(8), true), Manifest(Some(2), Some(8), false), Manifest(Some(1), Some(7), true);
    var walk, ms := [8, 7], [sound, shadow, older];
    assert Shadowed(ms, 0) by {
      assert Same(ms[1], ms[0]);
    }
    assert !Shadowed(ms, 2) && Validates(walk, ms[2]) && !Validates(walk, ms[1]);
    assert Newer(walk, ms[0], ms[2]);
  }

  // ----- in the run protocol -----

  /** The walk of a linear history of `n` commits, newest first. */
  function Walk(n: nat): (walk: seq<CommitId>)
    ensures |walk| == n && forall k :: 0 <= k < n ==> walk[k] == n - 1 - k
  {
    seq(n, k requires 0 <= k < n => n - 1 - k)
  }

  /** These manifests, one for each source, are those of a tree in which every pair is sound. */
  ghost predicate Lists(tree: map<Source, Evidence>, n: nat, ms: seq<Manifest>) {
    && (forall i :: 0 <= i < |ms| ==> ms[i].claimed.Some? && ms[i].claimed.value in tree && ms[i].sound
                                      && ms[i].submittedAt == Some(tree[ms[i].claimed.value].submittedAt))
    && (forall i, j :: 0 <= i < j < |ms| ==> ms[i].claimed != ms[j].claimed)
    && (forall c :: c in tree ==> c < n && exists i :: 0 <= i < |ms| && ms[i].claimed == Some(c))
  }

  lemma WalkedPosition(n: nat, c: Source)
    requires c < n
    ensures c in Walk(n) && Position(Walk(n), c) == n - 1 - c
  {
    var walk := Walk(n);
    assert walk[n - 1 - c] == c;
    assert walk[Position(walk, c)] == c;
  }

  lemma ListedValidates(tree: map<Source, Evidence>, n: nat, ms: seq<Manifest>, i: nat)
    requires Lists(tree, n, ms) && i < |ms|
    ensures Validates(Walk(n), ms[i]) && Position(Walk(n), ms[i].claimed.value) == n - 1 - ms[i].claimed.value
  {
    WalkedPosition(n, ms[i].claimed.value);
  }

  lemma GreatestIsNewest(tree: map<Source, Evidence>, n: nat, ms: seq<Manifest>, i: nat)
    requires Lists(tree, n, ms) && Greatest(Walk(n), ms, i)
    ensures NewestCommitted(tree, n) == ms[i].claimed
  {
    var c := ms[i].claimed.value;
    NewestCommittedIsGreatest(tree, n, c);
    var newest := NewestCommitted(tree, n);
    var j :| 0 <= j < |ms| && ms[j].claimed == newest;
    ListedValidates(tree, n, ms, i);
    ListedValidates(tree, n, ms, j);
    assert !Newer(Walk(n), ms[j], ms[i]);
  }

  /** The protocol's reading of the tree is this search. */
  lemma SearchIsNewestCommitted(tree: map<Source, Evidence>, n: nat, ms: seq<Manifest>, r: Option<nat>)
    requires Lists(tree, n, ms) && Found(Walk(n), ms, r)
    ensures NewestCommitted(tree, n) == if r.Some? then ms[r.value].claimed else None
  {
    hide Found, Greatest, TopNotHidden, Walk, Validates, NewestCommitted;
    DistinctSourcesAreNotHidden(Walk(n), ms);
    EarlyExitIsExact(Walk(n), ms, r);
    if r.Some? {
      GreatestIsNewest(tree, n, ms, r.value);
    } else if ms != [] {
      ListedValidates(tree, n, ms, 0);
      assert false;
    }
  }

  lemma {:induction false} NewestCommittedIsGreatest(tree: map<Source, Evidence>, n: nat, c: Source)
    requires c in tree && c < n
    ensures var r := NewestCommitted(tree, n);
            && r.Some? && tree[c].submittedAt <= tree[r.value].submittedAt
            && (tree[c].submittedAt == tree[r.value].submittedAt ==> c <= r.value)
  {
    if c < n - 1 {
      NewestCommittedIsGreatest(tree, n - 1, c);
    }
  }
}
