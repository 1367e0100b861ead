# A verified model of git-ots

git-ots stamps Git commits with OpenTimestamps. This project models its two hard parts in Dafny and proves
what they promise.

**The proof tree** (`proof_tree.py`, the parsing half of `timestamp.py`, `anchors.py`, the merge half of
`upgrade.py`). One recursive byte grammar is read three times, by a tree builder, a skipper and a streaming
executor; printed back; changed in place through node references; and judged again after a crash. `Tree.dfy`
and `Grammar.dfy` give the meaning: trees as values, and a recursive parser. Everything the program does by
changing things is a method over `Node` objects or over offsets, proved against that meaning. A tree value can
carry a node reference at each site (`Tree<Node>`, a `Shape`); `Holds` says that the heap is exactly that
shape, with no object in two places. Hash functions and UTF-8 decoding are parameters (`Host`), and RIPEMD-160
may be absent. Order has modules of its own: `MergeOrder.dfy` for what a merge puts where, `AnchorOrder.dfy` and
`CollectOrder.dfy` for the lists read off a proof.

**The run protocol** (`orchestration.py`, `policy.py`, the baseline, tag, lock and retry code of `git.py`). A
run is a plan of single effects (submit, write proof, write manifest, proof commit, tag), frozen at its
snapshot. `Safety.dfy` is the transition system: human commits, upgrade commits, waiting, a run's start, each
effect, and death or failure between any two. `Runs.dfy` and `Convergence.dfy` state what holds of every
behaviour from the empty repository; `Strays.dfy` and `Schedule.dfy` build behaviours in which something
documented does not hold, out of the ways on that `Paths.dfy` shows open from any state. `Runner.dfy` is `run`
itself, loops and all, following the plan as far as its process lives. `Provenance.dfy` traces every stamp to the
decision that called for it, and `Settled.dfy` says what a run leaves behind. `BaselineSearch.dfy`, `TagText.dfy`,
`Lock.dfy` and `Retry.dfy` treat four pieces of `git.py` on their own.

Hypotheses of the protocol model: one fixed configuration with proof commits on and the source ref at HEAD; a
linear, append-only history; a clock that does not go back; human commits that leave the proof directory
alone; one submission and its proof file are two effects, so a process can die between them. An upgrade commits
the proof files of any complete pairs, and those files alone, whether or not HEAD has the pairs; the results over
behaviours hold with such upgrades among the events, and where one does not (`Strays.DebtStaysBoundedExactly`) it
says so.

## What turned out not to hold as written

- "`serialize` on the result reproduces `data` exactly" (proof_tree.py:175) holds exactly when every
  attestation length is minimally encoded (`Codec.PrintUndoesParseProof`, `Codec.LongLengthIsRewritten`).
- "merging twice is idempotent" (proof_tree.py:210) fails for a source with two branches for one operation
  (`Idempotence.MergeTwiceCanAdd`). A source merges idempotently into every target if and only if it does so into
  an empty node (`Idempotence.MergesTwiceEverywhere`); for one that repeats no operation at its root, if and only
  if it covers itself below the root (`Idempotence.DistinctRootsMergeTwice`).
- Malformed input is not always a parse error: input that is truncated and then has one more byte, 0xff, is an
  index error at proof_tree.py:165, exactly then (`Grammar.ForkAtEndExactly`, `Codec.ForkEndsProof`,
  `Codec.ForkEndsResponse`, which has the response 0xff). It leaves `_collect_from_calendars` uncaught exactly when
  some response is of that kind (`Collect.CollectFromCalendars`), and `_is_additive_upgrade` exactly as
  `Additive.EscapesExactly` says; `Additive.ForkAfterHeaderEscapes` has the input.
- Merging an answer deep in a proof can pass the depth limit of 256. The pass then refuses it, if and only if some
  node it asked for lies deeper than 256 less the height of its answer (`Collect.RefusedExactly`); a proof with its
  promise under 256 hashes is refused whatever nested answer comes (`DepthLimit.RefusesDeepProof`).
- `classify_detached_proof` counts Bitcoin attestations behind operations that `describe_anchors` cannot execute:
  on one and the same proof it says valid and no anchor is shown (`AnchorLaws.KeccakIsCountedButNotShown`). And it
  accepts Bitcoin payloads whose height does not decode, on which describing fails (`AnchorLaws.DescribeAnchors`).
  Where every height decodes, they agree if every operation is one that this host has (`AnchorLaws.ValidMeansDescribed`,
  `AnchorLaws.ExecutableExactly`).
- The early-exit baseline search is the greatest of all manifests exactly when the newest stamp is not hidden
  behind an unsound manifest of the same source and time (`BaselineSearch.EarlyExitIsExact`,
  `BaselineSearch.ShadowHidesTheGreatest`).
- `RunOutcome.timestamped` is documented as the sources newly submitted (orchestration.py:97). It is that if and
  only if no chosen source had its pair already (`Runner.Run.Go`); after a run that died behind its manifest, the
  next one reports a source it did not submit (`Runner.RecoveredIsReported`).
- A schedule that a stamp has served fires again for the same instant, exactly when the current baseline was stamped
  for another reason (`Schedule.ServedFiresAgain`, `Schedule.ScheduleFiresTwice`).
- The scan for in-flight pairs is there so that blocked runs do not strand one submission each
  (orchestration.py:401-418). It asks HEAD for the proof file alone, so it overlooks exactly those pairs whose proof
  an upgrade has committed without its manifest (`Strays.OverlookedExactly`). With such an upgrade after each blocked
  run, stranded pairs pile up without bound (`Strays.DebtIsUnbounded`); at most one is ever uncommitted if and only if
  upgrades touch committed pairs alone (`Strays.DebtStaysBoundedExactly`).

## Model

| member | source | states |
|---|---|---|
| `Wire.ReadUndoesEncode` | src/git_ots/proof_tree.py:35-47 | every natural number, encoded anywhere in the data, reads back, and the offset lands after it |
| `Wire.EncodeUndoesRead` | src/git_ots/timestamp.py:238-254 | re-encoding what was read gives the same bytes when they are minimal and strictly fewer when they are not |
| `Wire.ReadVaruintLoop` | src/git_ots/timestamp.py:238-254 | the shifting loop computes the recursive reading, truncation included |
| `Wire.EncodeVaruintLoop` | src/git_ots/proof_tree.py:35-47 | the growing buffer ends as the encoding that reading undoes |
| `Grammar.ForkAtEndExactly` | src/git_ots/proof_tree.py:142-169 | the uncaught index error occurs exactly on input whose last byte is a fork marker and which is truncated without it |
| `Codec.ForkEndsProof` | src/git_ots/proof_tree.py:172-201 | the same for whole proofs, header included |
| `Codec.ForkEndsResponse` | src/git_ots/proof_tree.py:255-268 | the same for responses; the response that is one fork marker is one of them |
| `Codec.ParseUndoesPrint` | src/git_ots/proof_tree.py:83-91 | a printed timestamp parses back to itself at any offset, exactly when its height stays within the limit; otherwise it is a parse error |
| `Codec.PrintUndoesParse` | src/git_ots/proof_tree.py:142-169 | a parsed timestamp is well formed and within the limit; printing it gives back its bytes exactly when all lengths are minimal, else fewer bytes |
| `Codec.ParseUndoesPrintProof` | src/git_ots/proof_tree.py:100-109 | a well-formed proof prints and parses back to itself, exactly when its height is at most 256 |
| `Codec.PrintUndoesParseProof` | src/git_ots/proof_tree.py:172-201 | the docstring's exact reproduction holds if and only if every attestation length in the data is minimal |
| `Codec.ReparseIsStable` | src/git_ots/proof_tree.py:172-201 | printing a parsed proof and parsing again gives the same proof, whatever the encoding was |
| `Codec.ParsedProofIsWellFormed` | src/git_ots/proof_tree.py:172-201 | every parsed proof satisfies what printing and merging rely on |
| `Codec.LongLengthIsRewritten` | src/git_ots/proof_tree.py:173-176 | a concrete proof that parses and is not reproduced |
| `MergeLaws.MergeIsUnion` | src/git_ots/proof_tree.py:204-237 | the (operation path, tag, payload) triples after a merge are the union of the two sets |
| `MergeLaws.MergeConserves` | src/git_ots/proof_tree.py:204-252 | the multiset of attestations only grows, and only by attestations of the source |
| `MergeLaws.MergeShape` | src/git_ots/proof_tree.py:204-237 | a merge keeps well-formedness and is exactly as deep as the deeper of the two |
| `MergeOrder.MergeIsLaid` | src/git_ots/proof_tree.py:204-237 | the order of a merged node: the target's items in their order, with the new attestations of the source behind as many items as the target has attestations, and the source's new operations at the end, each new one once, where it comes first |
| `MergeOrder.ItemsStay` | src/git_ots/proof_tree.py:204-237 | every item of the target stays what it was, in its order among the others, except that the last branch of each operation takes in the source's branches for it; so a promise before an item is still before it |
| `MergeOrder.NewComeLast` | src/git_ots/proof_tree.py:221-234 | where attestations stand before branches, the merged node's are the target's followed by the new ones, and so are its branches |
| `Idempotence.CountZero` | src/git_ots/proof_tree.py:204-237 | the returned count is 0 exactly when everything is found where the merge looks, and then nothing changes |
| `Idempotence.CountMeansChanged` | src/git_ots/proof_tree.py:204-237 | the returned count is 0 if and only if the merge changed nothing |
| `Idempotence.CountZeroMeansContained` | src/git_ots/proof_tree.py:204-237 | into a target that repeats no operation, the count is 0 if and only if every attestation path of the source is already there |
| `Idempotence.MergeTwice` | src/git_ots/proof_tree.py:207-210 | a second merge of a source that covers itself below its root returns 0 and changes nothing, in any target |
| `Idempotence.MergesTwiceEverywhere` | src/git_ots/proof_tree.py:207-210 | any source whatever merges idempotently into every target if and only if it does into an empty node, which is when that one merge covers it |
| `Idempotence.DistinctRootsMergeTwice` | src/git_ots/proof_tree.py:207-210 | for a source that repeats no operation at its root, if and only if it covers itself below the root |
| `Idempotence.DistinctIsSelfCovering` | src/git_ots/proof_tree.py:207-210 | the condition holds when no node below the root repeats an operation |
| `Idempotence.AppendedTwice` | src/git_ots/proof_tree.py:229-234 | where every branch is appended wholesale, the second merge is idle exactly when each appended subtree covers itself |
| `Idempotence.MergeTwiceCanAdd` | src/git_ots/proof_tree.py:207-210 | a concrete response whose second merge adds items again |
| `Idempotence.MergeKeepsShape` | src/git_ots/proof_tree.py:221-226 | deep distinctness and attestations-before-branches survive a merge |
| `ProofTree.MergeNode` | src/git_ots/proof_tree.py:204-237 | the in-place merge leaves the target object holding the merged tree, adopts appended source nodes, touches nothing else, and returns the exact count |
| `ProofTree.MergeSlot` | src/git_ots/proof_tree.py:216-235 | one source item, with the two lookup tables kept true |
| `ProofTree.Insert` | src/git_ots/proof_tree.py:221-226 | inserting into the item list keeps the heap a tree |
| `Builder.ParseTimestamp` | src/git_ots/proof_tree.py:142-159 | the loop builds fresh node objects that hold exactly the tree of the recursive grammar, with the same error and offset |
| `Builder.Serialize` | src/git_ots/proof_tree.py:83-91 | the growing buffer ends as the printed tree, or the error on an empty node anywhere |
| `Builder.ListAttestations` | src/git_ots/proof_tree.py:240-252 | the recursive listing, in order |
| `GraftLaws.Listed` | src/git_ots/proof_tree.py:240-252 | an attestation is listed exactly when some path attests it |
| `Skip.SkipTree` | src/git_ots/timestamp.py:293-346 | the skipper succeeds exactly when the builder does, at the same offset, with the tree's attestation tags |
| `Skip.TagMeansAttested` | src/git_ots/timestamp.py:293-346 | a tag is collected exactly when some path carries an attestation with it |
| `Skip.ParsedTreeHasTag` | src/git_ots/timestamp.py:349-398 | every parsed tree carries an attestation, so the "no attestations" branch is dead |
| `Skip.Classify` | src/git_ots/timestamp.py:349-398 | it accepts exactly the proofs that parse with a one-byte version, and says valid exactly when some path reaches a Bitcoin attestation |
| `Transaction.Deserialize` | src/git_ots/anchors.py:131-175 | the offset loops compute the recursive reading of a legacy transaction |
| `Transaction.RecognisesTransactions` | src/git_ots/anchors.py:112-175 | every serialized transaction with an input, within the size limit, is recognised with exactly its output scripts |
| `Transaction.TransactionsExactly` | src/git_ots/anchors.py:131-175 | a message is recognised exactly when the whole of it is some serialized legacy transaction within the size limit, in compact sizes of any width, and then with its output scripts |
| `Transaction.NoneIsAPrefix` | src/git_ots/anchors.py:138-174 | a transaction with anything behind it is refused, so a transaction cut short is too |
| `Transaction.OpReturnExactly` | src/git_ots/anchors.py:178-195 | the data shown is that of the first output that pushes any after OP_RETURN; a push that runs past its script is cut there |
| `Anchors.ApplyIsReadThenExecute` | src/git_ots/anchors.py:207-250 | executing from bytes is reading an operation and executing what was read, with the same errors and offset |
| `Operations.ExecuteExactly` | src/git_ots/anchors.py:207-250 | what each operation makes of a message, byte by byte: append, prepend, reverse, two hexadecimal digits a byte, a digest; no result for an unknown one, an absent hash, or reversing or hexlifying nothing |
| `Operations.UriIsRead` | src/git_ots/anchors.py:265-278 | a calendar's address is what stands behind its length, decoded, and none where the payload is too short for it |
| `Anchors.Walk` | src/git_ots/anchors.py:281-325 | the streaming executor accepts what the builder accepts plus decodable heights, stops at the same offset, and reports what running the parsed tree reports |
| `Anchors.WalkItem` | src/git_ots/anchors.py:328-385 | one item of that walk; a branch that cannot be executed contributes nothing |
| `Anchors.SkipSubtree` | src/git_ots/anchors.py:388-397 | an abandoned subtree is walked to the builder's offset |
| `AnchorLaws.AnchorIsSound` | src/git_ots/anchors.py:281-385 | each reported anchor is a Bitcoin attestation on a path that executes to the anchor's message |
| `AnchorLaws.AnchorIsComplete` | src/git_ots/anchors.py:281-385 | each Bitcoin attestation on an executable path is reported |
| `AnchorLaws.SortSorts` | src/git_ots/anchors.py:449-454 | the report is a permutation in ascending height |
| `AnchorLaws.SortIsStable` | src/git_ots/anchors.py:449-454 | anchors of equal height keep the order of the proof |
| `AnchorPlaces.AnchorsExactly` | src/git_ots/anchors.py:281-385 | an anchor is reported exactly when some Bitcoin attestation shows it, with the state in which that item is come to |
| `AnchorPlaces.CalendarsAreThePromises` | src/git_ots/anchors.py:309-368 | an anchor's calendars are exactly the decodable promises before it on its path |
| `AnchorPlaces.TransactionIsTheFirst` | src/git_ots/anchors.py:292-308 | an anchor's transaction, with its OP_RETURN data, is the first message on its path that is one |
| `AnchorPlaces.PendingExactly` | src/git_ots/anchors.py:353-368 | a calendar is recorded as pending exactly when a decodable promise of it stands on an executable path |
| `AnchorPlaces.OutstandingExactly` | src/git_ots/anchors.py:447-454 | of a whole proof, a calendar is reported pending exactly when it is promised on an executable path and no Bitcoin attestation shows an anchor of it |
| `AnchorOrder.AnchorsInOrder` | src/git_ots/anchors.py:281-385 | there is one anchor for each Bitcoin attestation that shows one, in the order in which the proof has them, and none besides |
| `AnchorOrder.CalendarsInOrder` | src/git_ots/anchors.py:353-368 | an anchor's calendars stand in the order of their first promises on its path, each once |
| `AnchorLaws.DescribeAnchors` | src/git_ots/anchors.py:400-454 | when it succeeds, which anchors, in the stable order by height, and the promised calendars less the anchoring ones |
| `AnchorLaws.ValidMeansDescribed` | src/git_ots/anchors.py:400-454 | an anchor is shown exactly when one is on an executable path; with every operation executable, exactly when classification says valid |
| `AnchorLaws.ExecutableExactly` | src/git_ots/anchors.py:207-250 | all of a well-formed tree is executable exactly when it has no Keccak and no RIPEMD-160 that the host lacks |
| `AnchorLaws.KeccakIsCountedButNotShown` | src/git_ots/anchors.py:236-250 | proof bytes that classification calls valid and describing shows no anchor of |
| `Promises.CollectibleCalendars` | src/git_ots/anchors.py:483-517 | the walk over node objects lists the collectible promises of the tree; on a parsed tree it never fails |
| `Promises.CollectibleIsSound` | src/git_ots/anchors.py:483-517 | each entry's commitment is its path executed on the digest, at a node that promises its calendar with no Bitcoin attestation below |
| `Promises.CollectibleIsComplete` | src/git_ots/anchors.py:483-517 | each decodable promise on an executable path without a Bitcoin attestation below is listed |
| `CollectOrder.PromisesInOrder` | src/git_ots/anchors.py:483-517 | each unfulfilled promise on an executable path is listed once, in the order in which the proof has them, and nothing besides |
| `Fulfilment.FulfilledForGood` | src/git_ots/anchors.py:473-517 | once Bitcoin is below a node, no promise made there is collectible again, after any number of rounds that merge anything anywhere |
| `Fulfilment.AnswerFulfils` | src/git_ots/anchors.py:473-480 | an answer that reaches Bitcoin brings that about at the node it is merged into |
| `Promises.SubtreeHasBitcoin` | src/git_ots/anchors.py:473-480 | the search over node objects finds exactly the Bitcoin tag |
| `Promises.ConsumedMeansExecuted` | src/git_ots/anchors.py:502-512 | on well-formed operation bytes "not fully consumed" is not raised |
| `Graft.GraftHolds` | src/git_ots/upgrade.py:258-316 | changing one node's subtree through a reference grafts into the whole tree and nothing else |
| `GraftLaws.GraftIsUnion` | src/git_ots/upgrade.py:258-316 | a response merged at a node adds its attestations under that node's path, no more and no less |
| `GraftLaws.GraftedIsUnion` | src/git_ots/upgrade.py:258-316 | after a whole round: what was attested before, and each answer prefixed by the path of its node |
| `GraftLaws.GraftLeads` | src/git_ots/upgrade.py:258-316 | merging anywhere moves no node that is still to be merged into |
| `GraftLaws.GraftedHeight` | src/git_ots/upgrade.py:258-316 | a round stays within a depth exactly when the tree did and each node asked for leaves room for its answer |
| `Collect.ParseProofNodes` | src/git_ots/proof_tree.py:172-201 | the whole-proof parser over node objects, every refusal included |
| `Collect.ParseResponseNodes` | src/git_ots/proof_tree.py:255-268 | the response parser over node objects, size limit and trailing bytes included |
| `Collect.MergeAnswer` | src/git_ots/upgrade.py:258-316 | merging into a node held by reference is grafting into the tree it is part of |
| `Collect.AskAll` | src/git_ots/upgrade.py:258-316 | the loop over promises: one answer or none for each, all merged; the calendars named are exactly those whose answer added something, in order, each refused answer is noted with its calendar and kind, and the total is 0 exactly when the tree is unchanged |
| `Collect.CollectFromCalendars` | src/git_ots/upgrade.py:258-316 | a whole pass: which nodes it asks, what it writes or why it refuses, which calendars it names as contributors and which diagnostics it leaves, and that it raises an index error exactly when some response ends in a bare fork marker |
| `Collect.ContributedMeansChanged` | src/git_ots/upgrade.py:294-318 | a calendar is named as a contributor if and only if its own answer changed the tree; something is rewritten if and only if there is one |
| `Collect.RefusedExactly` | src/git_ots/upgrade.py:302-316 | of a proof that binds, the pass refuses the merged version exactly when some node asked for lay too deep for its answer |
| `DepthLimit.RefusesDeepProof` | src/git_ots/upgrade.py:302-316 | a proof that binds and parses, with every nested answer refused |
| `Collect.Recheck` | src/git_ots/upgrade.py:305-316 | the three checks before anything is written |
| `Collect.RoundKeeps` | src/git_ots/upgrade.py:258-316 | whatever was attested stays attested at the same path |
| `Collect.RoundPrints` | src/git_ots/upgrade.py:302-316 | the merged bytes bind exactly if the old ones did and parse back exactly when not too deep |
| `Collect.NothingMissing` | src/git_ots/upgrade.py:305-316 | the "dropped attestations" refusal is out of reach |
| `Collect.RoundConserves` | src/git_ots/upgrade.py:258-316 | over a whole round the multiset of attestations only grows, and by no more than the answers carry |
| `Additive.CompletedMeans` | src/git_ots/upgrade.py:167-175 | the facts compared are exactly the non-promise attestations with their paths |
| `Additive.AcceptedMeans` | src/git_ots/upgrade.py:145-177 | accepted exactly when both bind, share the header, and no completed attestation moved or went |
| `Additive.AcceptedIsReflexive` | src/git_ots/upgrade.py:145-177 | a proof is accepted against itself exactly when it binds and parses |
| `Additive.AcceptedIsTransitive` | src/git_ots/upgrade.py:145-177 | acceptance composes |
| `Additive.PassIsAdditive` | src/git_ots/upgrade.py:497-523 | what a pass writes is accepted against what it read |
| `Additive.EscapesExactly` | src/git_ots/upgrade.py:145-177 | which two versions make the judgement escape with an index error |
| `Additive.ForkAfterHeaderEscapes` | src/git_ots/upgrade.py:145-177 | a proof that binds to its payload and does |
| `Additive.InterruptedPassesAreAdopted` | src/git_ots/upgrade.py:490-617 | after any number of passes since HEAD, each possibly interrupted, the file is accepted, and the next upgrade commits it exactly if it is not HEAD's or was upgraded |
| `Additive.PassAddsOnlyAnswers` | src/git_ots/upgrade.py:258-316 | a pass adds exactly what the calendars answered, below the nodes it asked about |
| `Policy.LatestIndex` | src/git_ots/policy.py:101-118 | the newest committer time, and of equal ones the latest position |
| `Policy.DecisionShape` | src/git_ots/policy.py:121-169 | a decision is empty, all that is pending, or the latest alone; triggers are recorded exactly when it is not empty, and under every-commit that one alone |
| `Policy.DueExactly` | src/git_ots/policy.py:152-169 | when each aggregate trigger fires |
| `Schedule.ServedFiresAgain` | src/git_ots/orchestration.py:169-187 | in every reachable state with commits pending, a schedule that some committed stamp has served fires again for the same instant exactly when the baseline was stamped without it |
| `Schedule.ScheduleFiresTwice` | src/git_ots/orchestration.py:169-187 | a behaviour of three commits in which it does |
| `BaselineSearch.FindBaseline` | src/git_ots/git.py:2495-2616 | the grouped walk returns the newest unshadowed manifest that validates, and none only if there is none or no proof commit |
| `BaselineSearch.NextGroup` | src/git_ots/git.py:2580-2588 | a group is everything of one time, keeping for each source the last manifest |
| `BaselineSearch.SortIsSorted` | src/git_ots/git.py:2571-2571 | newest first and stable, every dated manifest once |
| `BaselineSearch.EarlyExitIsExact` | src/git_ots/git.py:2495-2616 | the result is the greatest of all manifests exactly when the newest stamp is not hidden |
| `BaselineSearch.DistinctSourcesAreNotHidden` | src/git_ots/git.py:2570-2594 | with distinct claimed sources nothing is hidden |
| `BaselineSearch.ShadowHidesTheGreatest` | src/git_ots/git.py:2580-2590 | a concrete tree where an older baseline wins |
| `BaselineSearch.SearchIsNewestCommitted` | src/git_ots/git.py:2495-2616 | on sound manifests of a linear history the search is the protocol's reading of the tree |
| `Planning.BaselineIsFurthest` | src/git_ots/git.py:2679-2727 | in every state the invariant allows, the baseline picked by time over tags and manifests is the furthest source committed and has the newest stamp, and there is one as soon as anything is committed |
| `Planning.PendingIsMeaningful` | src/git_ots/git.py:2730-2827 | the pending sources are exactly the meaningful commits after the baseline, in order |
| `Strays.OverlookedExactly` | src/git_ots/orchestration.py:401-497 | in every reachable state a complete pair that is not committed is selected, or in flight, or had its proof committed by an earlier upgrade, and only the last escapes the scan |
| `Strays.DebtIsUnbounded` | src/git_ots/orchestration.py:401-497 | for every number there is a behaviour that ends with so many complete pairs, none committed, and a scan that finds none of them |
| `Strays.DebtStaysBoundedExactly` | src/git_ots/upgrade.py:490-650 | after an upgrade in a clean past, every clean future has at most one complete pair uncommitted if and only if the upgrade touched committed pairs alone |
| `Planning.PlanIsSafe` | src/git_ots/orchestration.py:632-847 | in every state the invariant allows, each effect of a run's plan is enabled when its turn comes, and all times in it are current |
| `Planning.CompletionOnlyTags` | src/git_ots/orchestration.py:589-757 | the completion path creates exactly the missing tags of committed sources, from their committed manifests |
| `Safety.EffectKeepsDurable` | src/git_ots/orchestration.py:318-399 | each enabled effect keeps the invariant, with the history moving on meanwhile |
| `Safety.UpgradeKeepsDurable` | src/git_ots/upgrade.py:617-650 | so does an upgrade commit, whichever complete pairs it takes the proofs of |
| `Runs.StepKeepsInv` | src/git_ots/orchestration.py:499-856 | so does every step of the system, death between any two effects and upgrades of uncommitted pairs included |
| `Runs.RecordIsPermanent` | src/git_ots/orchestration.py:318-399 | nothing durable is taken back or changed, and a source with a proof is not submitted again |
| `Runs.StampsAdvance` | src/git_ots/git.py:2008-2015 | in every reachable state submission times never decrease along the history and the baseline is the furthest source |
| `Runs.NothingIsPaidTwice` | src/git_ots/orchestration.py:793-828 | submissions of a source are one, plus one for each process that died between submitting it and writing its proof; none follow a proof file |
| `Runs.TagsRepeatManifests` | src/git_ots/orchestration.py:357-376 | every tag has the time, triggers and proof of its own source's committed manifest, which was in HEAD's tree before the tag |
| `Provenance.StampsWereCalledFor` | src/git_ots/orchestration.py:764-847 | whatever a manifest or a tag records of a source, an earlier run decided: it selected the source when that had no pair and nothing was in flight, and the record has, to the second, the time of that run and the triggers that fired in it |
| `Runs.DebtNeverAccumulates` | src/git_ots/orchestration.py:401-497 | under an aggregate policy at most one complete pair is in no commit in any reachable state, and no other pair comes after it |
| `Runs.TagsNeverCollide` | src/git_ots/git.py:2876-2905 | no tag that a run sets out to create collides with one that is there |
| `Convergence.RefusesOnlyHalfWritten` | src/git_ots/orchestration.py:793-828 | a run fails closed exactly when nothing is in flight and a selected source has a proof without a manifest; a claim without artifacts is out of reach |
| `Convergence.RunIsCloser` | src/git_ots/orchestration.py:557-856 | a run that does anything and gets through leaves fewer commits pending, or as many and a newly tagged baseline |
| `Convergence.RunsConverge` | src/git_ots/orchestration.py:557-856 | from any reachable state, while nobody else commits meaningfully, at most 2 * pending + 1 runs find anything to do |
| `Settled.RunProcesses` | src/git_ots/orchestration.py:557-856 | a run that does not refuse and gets through has committed and tagged all that was in flight, or else all that was selected, and committed nothing else |
| `Settled.IdleExactly` | src/git_ots/orchestration.py:589-757 | in every state the invariant allows a run finds nothing to do exactly when nothing is selected, nothing is in flight and the baseline has its tag |
| `Paths.LeftAlone` | src/git_ots/orchestration.py:557-856 | from any state of the invariant a run that does not set out to refuse, and that nothing kills, carries out all it set out to do |
| `Runner.Run.SettleOne` | src/git_ots/orchestration.py:793-828 | one selected source: recovered, refused, or submitted and persisted |
| `Runner.Run.StampSelected` | src/git_ots/orchestration.py:793-828 | the loop over selected sources follows the plan, and recovers exactly the complete pairs of the snapshot |
| `Runner.Run.FindInFlight` | src/git_ots/orchestration.py:401-497 | the scan finds exactly the complete pairs that are not selected, not tagged and have no proof file in HEAD, oldest first, with their evidence |
| `Runner.Run.TagAll` | src/git_ots/orchestration.py:846-847 | each processed source is tagged with its own evidence |
| `Runner.Run.CompleteTags` | src/git_ots/orchestration.py:589-757 | the completion loop with its cache of claims follows the plan and names what it tagged |
| `Runner.Run.Record` | src/git_ots/orchestration.py:830-847 | the proof commit, unless everything is there, and then the tags |
| `Runner.Run.Tidy` | src/git_ots/orchestration.py:557-757 | the path of a run with nothing selected and nothing in flight |
| `Runner.Run.Proceed` | src/git_ots/orchestration.py:759-856 | the main path, and what its outcome names |
| `Runner.Run.Go` | src/git_ots/orchestration.py:198-856 | a process carries out a prefix of the plan, stops early only by dying, refusing or colliding, and reports an outcome exactly when it carried out all of it; what the outcome names, when that is what was submitted, and that it says changed exactly when anything was done |
| `Runner.MainPlanSubmits` | src/git_ots/orchestration.py:793-856 | a main path submits what was chosen and not recovered, which is what it reports if and only if nothing chosen was there |
| `Runner.RecoveredIsReported` | src/git_ots/orchestration.py:793-856 | a behaviour after which a run reports a source as newly submitted and submits nothing |
| `Runner.WorkMeansChanged` | src/git_ots/orchestration.py:114-116 | a plan that does not refuse is empty exactly when its outcome has nothing to name |
| `TagText.StripSignatureBlock` | src/git_ots/git.py:1927-1960 | the loop over lines cuts at the first armor line |
| `TagText.ParseTagAnnotation` | src/git_ots/git.py:1963-1983 | the loop collects the key and value of each line that has a key |
| `TagText.WrittenTagReadsBack` | src/git_ots/git.py:2856-2866 | a written annotation with any signature block strips back to itself, and parsed and validated gives back every fact |
| `TagText.ValidatedExactly` | src/git_ots/git.py:1819-1914 | an annotation is accepted, with exactly these facts, if and only if it has each required key once and no other key, an integer schema of 1 or 2 with a producer just under 2, a full lower-case commit id that is the target, a readable time, a proof file naming the source, and known triggers, at least one |
| `TagText.OnlyTheSameTagIsAccepted` | src/git_ots/git.py:2868-2905 | creating a tag again is accepted exactly when it is the same tag, whoever signed the first |
| `Lock.StepKeepsInv` | src/git_ots/git.py:539-586 | every interleaved step keeps entries, descriptors and the operating system's lock in accord |
| `Lock.GuardKeepsShared` | src/git_ots/git.py:565-586 | release always finds its own entry, and removes it exactly when it was the last |
| `Lock.OneHolder` | src/git_ots/git.py:525-586 | at most one descriptor has the lock; instances past acquire are in one process and share it |
| `Lock.CountIsExact` | src/git_ots/git.py:565-582 | the recorded count is the number of instances past acquire and not yet past release's guard |
| `Lock.UnlockedByTheLast` | src/git_ots/git.py:582-586 | a living process unlocks only after its last counted instance |
| `Lock.LockedExactly` | src/git_ots/git.py:539-586 | a descriptor has the lock exactly when some instance still has it so, and is open exactly when some instance has it or is about to ask or to close: the last one to leave unlocks and closes |
| `Lock.AllReleased` | src/git_ots/git.py:560-586 | when every instance has released, nothing is locked and no descriptor is open, and the next acquire left alone gets the lock |
| `Retry.World.RunWithRetry` | src/git_ots/git.py:1181-1241 | only contention is retried, a check precedes each attempt, sleeps follow the schedule and stay within the window, attempts are at most 2 + 10 * window, giving up means the window has passed |
| `Retry.SleepWithin` | src/git_ots/git.py:1216-1241 | one more sleep, full or cut short, keeps the total within the window |
| `Retry.BackoffDoubles` | src/git_ots/git.py:1216-1241 | the wait after k failures is the first wait times 2 to the k, up to the ceiling |

## Left out

- MergeNode: the target and the source share no node, as when the source was just parsed; merging a node into itself is not modelled.
- RepositoryLock: modelled as a state machine over its steps, not as a class, because what matters is the interleaving; each instance is used by one thread at a time.
- RunsConverge: a run that refuses or dies is outside the spell it counts over; while a half-written pair is among the selected sources every run refuses (`Convergence.RefusesOnlyHalfWritten`).
- WrittenTagReadsBack: reading integers and the RFC 3339 text of times are parameters with an inversion hypothesis, and the proof directory and the producer are single lines without white space at their ends; what `git tag -m` itself cleans up is not part of this model.
- RunWithRetry: times are real numbers, and recognising contention in Git's error text is the world's answer.
- Older untagged members of a batch: `run` tags only the baseline and pending sources, so nothing is claimed of the others.
- Tag names: a name is a submission second and a source; two sources with the same first 12 hex digits are not modelled.
- The order of the scan for in-flight pairs: positions in history stand for object ids, so the sort after the scan is not modelled.
- The duplicate test over sources to check in the completion path: the baseline and the pending sources are distinct.
- Proof contents in the protocol: a proof file is there or not; an upgrade there is a generated commit of proof files that makes no claim to a source, and folding it into an earlier upgrade commit is rewriting history, which is left out.
- Manifest and trigger text (JSON, RFC 3339), and the daylight-saving rules of scheduled times: the policy takes the last occurrence as a function of the time.
- CollectFromCalendars: of each diagnostic it says the calendar and the kind; the wording is not modelled.
- Calendar lists that are sorted for display are sets; message bytes are not shown as hexadecimal text.
- `proof.commit = false`, where `every_commit` breaks tag ties by object id; rewritten or merged histories; fetching, pushing and signing.
- The `ots` client, subprocesses, timeouts and HTTP: each is an answer, a failure or bytes.
- `cli.py`, `config.py`, `gitconfig.py`, `servers.py`, `verify.py`, `repair.py`: straight-line code over the same primitives.
