/** The timestamping policy of `policy.py`: which pending commits to stamp now, and why. Times are
    microseconds; a commit is named by its position in the linear history. */
module Policy {
  import opened Wire

  datatype PendingCommit = PendingCommit(source: nat, committerTime: int)

  datatype Trigger = EveryCommit | MaxAge | FixedTime

  datatype PolicyState = PolicyState(
    now: int,
    pending: seq<PendingCommit>,
    lastFixed: Option<int>,
    hasBaseline: bool,
    hasAbandonedTags: bool)

  /** `occurrence` gives the most recent scheduled instant at or before a time; zone rules and
      daylight-saving shifts are inside it. */
  datatype PolicyConfig = PolicyConfig(
    everyCommit: bool,
    initialAll: bool,
    maxAge: Option<nat>,
    occurrence: Option<int -> int>)

  datatype Decision = Decision(commits: seq<PendingCommit>, triggers: set<Trigger>)

  const NO_ACTION := Decision([], {})

  /** `_latest_pending`: the position of the newest commit, ties going to the later one. */
  function LatestIndex(pending: seq<PendingCommit>): (i: nat)
    requires pending != []
    ensures i < |pending|
    ensures forall j :: 0 <= j < |pending| ==> pending[j].committerTime <= pending[i].committerTime
    ensures forall j :: i < j < |pending| ==> pending[j].committerTime < pending[i].committerTime
  {
    var last := |pending| - 1;
    if last == 0 then 0
    else
      var best := LatestIndex(pending[..last]);
      if pending[last].committerTime >= pending[best].committerTime then last else best
  }

  function OldestTime(pending: seq<PendingCommit>): (t: int)
    requires pending != []
    ensures exists j :: 0 <= j < |pending| && pending[j].committerTime == t
    ensures forall j :: 0 <= j < |pending| ==> t <= pending[j].committerTime
  {
    var last := pending[|pending| - 1].committerTime;
    if |pending| == 1 then last
    else
      var rest := OldestTime(pending[..|pending| - 1]);
      if last < rest then last else rest
  }

  /** The aggregate triggers that have fired. */
  function DueTriggers(state: PolicyState, config: PolicyConfig): set<Trigger>
    requires state.pending != []
  {
    (if config.maxAge.Some? && state.now >= OldestTime(state.pending) + config.maxAge.value then {MaxAge} else {})
    + (if config.occurrence.Some?
          && (state.lastFixed.None? || config.occurrence.value(state.now) > state.lastFixed.value)
       then {FixedTime} else {})
  }

  /** `evaluate_policy`; `None` is its refusal to replay rewritten history. */
  function EvaluatePolicy(state: PolicyState, config: PolicyConfig): Option<Decision> {
    if config.everyCommit && state.hasAbandonedTags then None
    else if state.pending == [] then Some(NO_ACTION)
    else if config.everyCommit then
      if !state.hasBaseline && !config.initialAll
      then Some(Decision([state.pending[LatestIndex(state.pending)]], {EveryCommit}))
      else Some(Decision(state.pending, {EveryCommit}))
    else
      var triggers := DueTriggers(state, config);
      if triggers == {} then Some(NO_ACTION)
      else Some(Decision([state.pending[LatestIndex(state.pending)]], triggers))
  }

  /** Whether a decision, if any, takes all that is pending rather than the latest alone. */
  predicate TakesAll(config: PolicyConfig, hasBaseline: bool) {
    config.everyCommit && (hasBaseline || config.initialAll)
  }

  /** What a decision can be: nothing; everything pending; or the latest alone. An empty one is never
      recorded with a trigger, and a trigger is never empty on a non-empty one. */
  lemma DecisionShape(state: PolicyState, config: PolicyConfig)
    requires !(config.everyCommit && state.hasAbandonedTags)
    ensures var d := EvaluatePolicy(state, config);
            && d.Some? && (d.value.commits == [] <==> d.value.triggers == {})
            && (d.value.commits != [] ==>
                  d.value.commits == if TakesAll(config, state.hasBaseline) then state.pending
                                     else [state.pending[LatestIndex(state.pending)]])
            && (config.everyCommit && state.pending != [] ==> d.value.commits != [] && d.value.triggers == {EveryCommit})
            && (EveryCommit in d.value.triggers ==> config.everyCommit)
  {
  }

  /** A pending commit is at least this old. */
  predicate SomeAged(pending: seq<PendingCommit>, age: nat, now: int) {
    exists j :: 0 <= j < |pending| && pending[j].committerTime + age <= now
  }

  /** The aggregate triggers of a decision, one by one. */
  lemma DueExactly(state: PolicyState, config: PolicyConfig)
    requires !config.everyCommit
    ensures var d := EvaluatePolicy(state, config);
            && d.Some? && EveryCommit !in d.value.triggers
            && (MaxAge in d.value.triggers <==>
                  config.maxAge.Some?
                  && SomeAged(state.pending, config.maxAge.value, state.now))
            && (FixedTime in d.value.triggers <==>
                  state.pending != [] && config.occurrence.Some?
                  && (state.lastFixed.None? || config.occurrence.value(state.now) > state.lastFixed.value))
  {
    if state.pending != [] {
      var oldest := OldestTime(state.pending);
      var j :| 0 <= j < |state.pending| && state.pending[j].committerTime == oldest;
      hide OldestTime;
    }
  }
}
