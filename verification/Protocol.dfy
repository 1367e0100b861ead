/** One timestamping run as a plan of individual effects, over an append-only linear history. A commit
    is named by its position. Proof commits are on, and the source ref is HEAD. */
module Protocol {
  import opened Wire
  import opened Policy

  type Source = nat

  datatype Commit =
    | Human(committerTime: int)
    | Generated(sources: seq<Source>)

  /** What a manifest records, and what a tag repeats: the submission time (whole seconds), the
      triggers, and the proof file, named by the source it belongs to. */
  datatype Evidence = Evidence(submittedAt: int, triggers: set<Trigger>, proof: Source)

  datatype Tag = Tag(source: Source, evidence: Evidence)

  /** Everything durable besides the history: worktree proofs and manifests, the pairs in HEAD's tree, the
      proofs that upgrade commits put there, the tags, and the ledger of calendar submissions. `paid` is the
      one submission a running process holds in memory; `lost` counts those whose process died holding them. */
  datatype Store = Store(
    proofs: set<Source>,
    manifests: map<Source, Evidence>,
    tree: map<Source, Evidence>,
    lone: set<Source>,
    tags: seq<Tag>,
    submissions: multiset<Source>,
    lost: multiset<Source>,
    paid: Option<Source>)

  const EMPTY_STORE := Store({}, map[], map[], {}, [], multiset{}, multiset{}, None)

  datatype Config = Config(policy: PolicyConfig, objectId: Source -> int)

  /** The manifest's time format drops fractions of a second. */
  function WholeSeconds(t: int): (w: int)
    ensures w <= t < w + 1_000_000 && w % 1_000_000 == 0
  {
    t - t % 1_000_000
  }

  // ----- reading the repository -----

  /** Both worktree files of a source are there, so `inspect_recovery_artifacts` succeeds. */
  predicate Complete(st: Store, c: Source) {
    c in st.proofs && c in st.manifests
  }

  predicate Tagged(tags: seq<Tag>, c: Source) {
    exists i :: 0 <= i < |tags| && tags[i].source == c
  }

  datatype Baseline = Baseline(source: Source, evidence: Evidence)

  /** `_find_proof_commit_baselines` on a linear history: the newest submission in the tree, and of
      those made at once the newest source; only sources before `n`. */
  function NewestCommitted(tree: map<Source, Evidence>, n: nat): (r: Option<Source>)
    ensures r.Some? ==> r.value in tree && r.value < n
  {
    if n == 0 then None
    else
      var rest := NewestCommitted(tree, n - 1);
      if n - 1 in tree && (rest.None? || tree[n - 1].submittedAt >= tree[rest.value].submittedAt)
      then Some(n - 1) else rest
  }

  /** Order of tag candidates: submission time, then object id. */
  predicate TagBefore(cfg: Config, a: Tag, b: Tag) {
    a.evidence.submittedAt < b.evidence.submittedAt
    || (a.evidence.submittedAt == b.evidence.submittedAt && cfg.objectId(a.source) <= cfg.objectId(b.source))
  }

  /** `_find_tag_baseline`: the greatest tag. */
  function NewestTag(cfg: Config, tags: seq<Tag>): (r: Option<Tag>)
    ensures r.Some? ==> r.value in tags
  {
    if tags == [] then None
    else
      var last := tags[|tags| - 1];
      match NewestTag(cfg, tags[..|tags| - 1])
      case None => Some(last)
      case Some(best) => if TagBefore(cfg, best, last) then Some(last) else Some(best)
  }

  predicate HasGenerated(history: seq<Commit>) {
    exists i :: 0 <= i < |history| && history[i].Generated?
  }

  /** `find_newest_relevant_baseline`: the two candidates compete by time, the proof commit winning a
      tie. */
  function FindBaseline(cfg: Config, history: seq<Commit>, st: Store): Option<Baseline> {
    var tag := NewestTag(cfg, st.tags);
    var committed := if HasGenerated(history) then NewestCommitted(st.tree, |history|) else None;
    if committed.Some? && (tag.None? || tag.value.evidence.submittedAt <= st.tree[committed.value].submittedAt)
    then Some(Baseline(committed.value, st.tree[committed.value]))
    else if tag.Some? then Some(Baseline(tag.value.source, tag.value.evidence))
    else None
  }

  /** The meaningful commits from position `from` on, oldest first. */
  function PendingFrom(history: seq<Commit>, from: nat): (p: seq<PendingCommit>)
    ensures forall i :: 0 <= i < |p| ==> from <= p[i].source < |history|
  {
    if from >= |history| then []
    else
      var last := |history| - 1;
      var before := PendingFrom(history[..last], from);
      if history[last].Human? then before + [PendingCommit(last, history[last].committerTime)] else before
  }

  function Pending(history: seq<Commit>, from: nat): seq<Source> {
    SourcesOf(PendingFrom(history, from))
  }

  function After(baseline: Option<Baseline>): nat {
    if baseline.None? then 0 else baseline.value.source + 1
  }

  /** `build_snapshot`'s policy input and decision. */
  function Decide(cfg: Config, history: seq<Commit>, st: Store, now: int): Decision {
    var baseline := FindBaseline(cfg, history, st);
    var lastFixed :=
      if baseline.Some? && FixedTime in baseline.value.evidence.triggers
      then Some(baseline.value.evidence.submittedAt) else None;
    var state := PolicyState(now, PendingFrom(history, After(baseline)), lastFixed, baseline.Some?, false);
    EvaluatePolicy(state, cfg.policy).value
  }

  /** When the aggregate triggers fire. The maximum age is that of the oldest pending commit. A scheduled time
      counts as served only by a baseline that was itself stamped for a schedule, and after it; so a stamp
      made for age alone makes a schedule that was served before it fire again. */
  lemma TriggersAreExact(cfg: Config, history: seq<Commit>, st: Store, now: int)
    requires !cfg.policy.everyCommit
    ensures var d, b := Decide(cfg, history, st, now), FindBaseline(cfg, history, st);
            var pending := PendingFrom(history, After(b));
            && EveryCommit !in d.triggers
            && (MaxAge in d.triggers <==>
                  cfg.policy.maxAge.Some? && SomeAged(pending, cfg.policy.maxAge.value, now))
            && (FixedTime in d.triggers <==>
                  pending != [] && cfg.policy.occurrence.Some?
                  && (b.None? || FixedTime !in b.value.evidence.triggers
                      || cfg.policy.occurrence.value(now) > b.value.evidence.submittedAt))
  {
    hide FindBaseline, PendingFrom, After, EvaluatePolicy, SomeAged;
    var b := FindBaseline(cfg, history, st);
    var lastFixed :=
      if b.Some? && FixedTime in b.value.evidence.triggers then Some(b.value.evidence.submittedAt) else None;
    DueExactly(PolicyState(now, PendingFrom(history, After(b)), lastFixed, b.Some?, false), cfg.policy);
  }

  // ----- the plan of a run -----

  datatype Effect =
    | Submit(c: Source)
    | WriteProof(c: Source)
    | WriteManifest(c: Source, evidence: Evidence)
    | CommitProofs(sources: seq<Source>)
    | CreateTag(tag: Tag)
    | Refuse

  function SourcesOf(commits: seq<PendingCommit>): (s: seq<Source>)
    ensures |s| == |commits| && forall i :: 0 <= i < |s| ==> s[i] == commits[i].source
  {
    seq(|commits|, i requires 0 <= i < |commits| => commits[i].source)
  }

  /** HEAD's tree has the proof file of this source, whoever committed it. */
  predicate ProofStored(st: Store, c: Source) {
    c in st.tree || c in st.lone
  }

  /** `_in_flight_sources`: complete pairs before `n` that the decision leaves out, with no tag and no proof
      in HEAD's tree, oldest first. The scan asks for the proof file alone. */
  function InFlight(st: Store, exclude: seq<Source>, n: nat): (r: seq<Source>)
    ensures forall c: Source ::
      c in r <==> c < n && Complete(st, c) && c !in exclude && !Tagged(st.tags, c) && !ProofStored(st, c)
  {
    if n == 0 then []
    else
      var before := InFlight(st, exclude, n - 1);
      var c: Source := n - 1;
      if Complete(st, c) && c !in exclude && !Tagged(st.tags, c) && !ProofStored(st, c) then before + [c] else before
  }

  /** A generated proof commit at or after `from` names this source. */
  predicate Claimed(history: seq<Commit>, from: nat, c: Source) {
    exists i :: from <= i < |history| && history[i].Generated? && c in history[i].sources
  }

  /** The selected sources up to the first that makes the run fail closed, if any: a half-written pair,
      or a claim without artifacts. */
  function Usable(history: seq<Commit>, from: nat, st: Store, selected: seq<Source>): (n: nat)
    ensures n <= |selected|
    ensures forall i :: 0 <= i < n ==> Ready(history, from, st, selected[i])
    ensures n < |selected| ==> !Ready(history, from, st, selected[n])
  {
    if selected == [] then 0
    else
      var n := Usable(history, from, st, selected[..|selected| - 1]);
      if n < |selected| - 1 then n
      else if Ready(history, from, st, selected[n]) then n + 1 else n
  }

  predicate Ready(history: seq<Commit>, from: nat, st: Store, c: Source) {
    Complete(st, c) || (c !in st.proofs && c !in st.manifests && !Claimed(history, from, c))
  }

  /** Submitting a source and persisting its pair, unless it was recovered. */
  function Stamp(st: Store, c: Source, own: Evidence): seq<Effect> {
    if Complete(st, c) then [] else [Submit(c), WriteProof(c), WriteManifest(c, own.(proof := c))]
  }

  function Stamping(st: Store, sources: seq<Source>, own: Evidence): seq<Effect> {
    if sources == [] then []
    else Stamping(st, sources[..|sources| - 1], own) + Stamp(st, sources[|sources| - 1], own)
  }

  /** The evidence a source is tagged with: what was recovered, else this run's own. */
  function TagFor(st: Store, own: Evidence, c: Source): Tag {
    Tag(c, if Complete(st, c) then st.manifests[c] else own.(proof := c))
  }

  function Tagging(st: Store, sources: seq<Source>, own: Evidence): (r: seq<Effect>)
    ensures |r| == |sources| && forall i :: 0 <= i < |r| ==> r[i] == CreateTag(TagFor(st, own, sources[i]))
  {
    seq(|sources|, i requires 0 <= i < |sources| => CreateTag(TagFor(st, own, sources[i])))
  }

  /** What follows the stamping: commit what was processed, unless all of it is, and tag it. */
  function Recording(st: Store, processed: seq<Source>, own: Evidence): seq<Effect> {
    (if forall c | c in processed :: c in st.tree then [] else [CommitProofs(processed)]) + Tagging(st, processed, own)
  }

  /** A run that finishes what is in flight submits nothing new. */
  function Chosen(inFlight: seq<Source>, selected: seq<Source>): seq<Source> {
    if inFlight != [] then [] else selected
  }

  /** The main path of `run`: finish what is in flight, or else stamp what the decision selects. */
  function MainPlan(history: seq<Commit>, from: nat, st: Store, inFlight: seq<Source>, selected: seq<Source>,
                    own: Evidence): seq<Effect> {
    var chosen := Chosen(inFlight, selected);
    var n := Usable(history, from, st, chosen);
    if n < |chosen| then Stamping(st, chosen[..n], own) + [Refuse]
    else
      Stamping(st, chosen, own) + Recording(st, inFlight + chosen, own)
  }

  /** The completion path for "proof commit present, tag absent", for one source: tag what is committed, or
      what a proof commit claims and the worktree still has; fail closed on a claim without artifacts. */
  function CompleteOne(history: seq<Commit>, from: nat, st: Store, c: Source): seq<Effect> {
    if Tagged(st.tags, c) then []
    else if c in st.tree then [CreateTag(Tag(c, st.tree[c]))]
    else if !Claimed(history, if c + 1 == from then 0 else from, c) then []
    else if Complete(st, c) then [CreateTag(Tag(c, st.manifests[c]))]
    else [Refuse]
  }

  /** The same over the baseline and what is pending. */
  function Completion(history: seq<Commit>, from: nat, st: Store, sources: seq<Source>): seq<Effect> {
    if sources == [] then []
    else
      var first := CompleteOne(history, from, st, sources[0]);
      if Refuse in first then first else first + Completion(history, from, st, sources[1..])
  }

  /** With nothing selected and nothing in flight: commit a baseline that only a tag records, in a history
      without proof commits; or else complete tags. */
  function Tidying(history: seq<Commit>, st: Store, baseline: Option<Baseline>): seq<Effect> {
    if baseline.Some? && Complete(st, baseline.value.source) && baseline.value.source !in st.tree
       && !HasGenerated(history)
    then [CommitProofs([baseline.value.source])]
    else Completion(history, After(baseline), st,
                    (if baseline.Some? then [baseline.value.source] else []) + Pending(history, After(baseline)))
  }

  /** What a run sets out to do, frozen at its snapshot. */
  function Plan(cfg: Config, history: seq<Commit>, st: Store, snapshotAt: int, runAt: int): seq<Effect> {
    var decision := Decide(cfg, history, st, snapshotAt);
    var baseline := FindBaseline(cfg, history, st);
    var selected := SourcesOf(decision.commits);
    var inFlight := InFlight(st, selected, |history|);
    if selected == [] && inFlight == [] then Tidying(history, st, baseline)
    else MainPlan(history, After(baseline), st, inFlight, selected,
                  Evidence(WholeSeconds(runAt), decision.triggers, 0))
  }

  // ----- carrying out effects -----

  /** The pairs among these sources that the worktree has. */
  function PairsOf(st: Store, sources: seq<Source>): map<Source, Evidence> {
    map c | c in sources && c in st.manifests :: st.manifests[c]
  }

  function Apply(st: Store, e: Effect): Store {
    match e
    case Submit(c) => st.(submissions := st.submissions + multiset{c}, paid := Some(c))
    case WriteProof(c) => st.(proofs := st.proofs + {c}, paid := None)
    case WriteManifest(c, evidence) => st.(manifests := st.manifests[c := evidence])
    case CommitProofs(sources) => st.(tree := st.tree + PairsOf(st, sources))
    case CreateTag(tag) => if tag in st.tags then st else st.(tags := st.tags + [tag])
    case Refuse => st
  }

  /** A tag's name is its submission time and source: another tag of that name is a collision. */
  predicate Collides(st: Store, tag: Tag) {
    exists i :: 0 <= i < |st.tags| && st.tags[i] != tag && st.tags[i].source == tag.source
                && st.tags[i].evidence.submittedAt == tag.evidence.submittedAt
  }

  /** What makes a run fail by itself. */
  predicate Stuck(st: Store, e: Effect) {
    e.Refuse? || (e.CreateTag? && Collides(st, e.tag))
  }

  /** Only a proof commit touches the history. */
  function Extend(history: seq<Commit>, e: Effect): seq<Commit> {
    if e.CommitProofs? then history + [Generated(e.sources)] else history
  }

  function ExtendAll(history: seq<Commit>, effects: seq<Effect>): seq<Commit>
    decreases effects
  {
    if effects == [] then history else ExtendAll(Extend(history, effects[0]), effects[1..])
  }

  /** The store after these effects. */
  function Exec(st: Store, effects: seq<Effect>): Store
    decreases effects
  {
    if effects == [] then st else Exec(Apply(st, effects[0]), effects[1..])
  }

  lemma {:induction false} ExecConcat(st: Store, a: seq<Effect>, b: seq<Effect>)
    ensures Exec(st, a + b) == Exec(Exec(st, a), b)
    decreases a
  {
    if a == [] {
      assert a + b == b;
    } else {
      assert (a + b)[1..] == a[1..] + b;
      ExecConcat(Apply(st, a[0]), a[1..], b);
    }
  }

  /** A process that dies or fails forgets the submission it was holding. */
  function Abandon(st: Store): Store {
    if st.paid.None? then st else st.(lost := st.lost + multiset{st.paid.value}, paid := None)
  }
}
