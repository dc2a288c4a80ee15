# Gitslice: a verified model of its merging, landing and history core

Gitslice lets people and agents land changes on one repository at once. This project
models, in Dafny, the parts of it that decide what ends up in the repository, and proves
what they promise for every input, every reachable state and every interleaving.

- **Lines and merges** (`Lines`, `Myers`, `Merge3`, `UnifiedDiff`, `LandMerge`). The agents'
  line diff with its frontier array and backward walk, the three-way merge over it, unified
  diffs as patches, and the file-level merge an agent's push goes through before it lands.
- **Patchsets and landing** (`Patchsets`, `Validator`, `Rebase`, `Landing`, `PathHeads`,
  `LandsOnce`, `MergeOnSubmit`). What a patchset reads and writes, taking it onto another base, the
  admission of submits, and the table of path heads that implements the admission. State
  machines whose steps are pushes, merges, submits and publishes of any claimed part of the
  queue, in any order.
- **Stacks** (`StackSelect`, `Restack`). Choosing the entries of a stack and moving them onto
  their parents.
- **Blame** (`Blame`, `BlameIndex`, `BlameService`). The blame walk over pages of history, its
  plan from the history index, and the stored blames it starts from and leaves behind.
- **Imports and triggers** (`CloneCache`, `GitImport`, `TreeDiff`, `TriggerModules`). The
  cache of Git clones as a concurrent state machine, the import of a Git history commit by
  commit, the difference of two Git trees, and the modules of a trigger script.

Content hashes, blob ids and tree ids stand for what they hash: equal ids are equal contents.
A tree of the repository is a map from paths to files; the trees of `TreeDiff` are nested.
What a database transaction or a mutex makes atomic is one step. Clocks, the callers' choices
and what other agents do are parameters, so every statement holds for any of them.

Where a promise does not hold of the code as it is, the model keeps the code, gives an input
that breaks the promise, and states exactly when it holds:

- A publish looks up the deleted, renamed and copied paths and all folders of the edited ones in
  the tree it publishes, and writes what it finds into their rows; where nothing is left it also
  puts tombstones into every row below. So the publish of a deletion can put a tombstone over a
  file that was accepted later, at the same path or in the folder it emptied, and the next submit
  is admitted on a file its author never saw (`PathHeads.OvertakingLosesUpdate`). Publishing the
  whole queue in order does not help, since the publish of a new file does not write its own row
  (`PathHeads.InOrderLosesUpdate`). The table stays right exactly when what the last refresh of
  each row found is what is accepted there (`PathHeads.PublishCoherentIff`).
- Publishers that work at once can land a later row of the queue before an earlier one: the
  earlier one then lands over it, and an accepted update is gone (`Landing.LaterRowFirst`). A
  claim is safe exactly when every patchset, claimed or left, finds on the paths it reads what
  it would find in queue order (`Landing.PublishSafeIff`); a claim that leaves no row which
  reads or writes what a claimed row behind it writes, or the reverse, always is, and so is a
  claim of the first rows (`Landing.ApartIsOrderly`, `Landing.FirstRowsAreApart`).
- A changeset can be abandoned while it is accepted. Its row is then never published, but stays
  in the queue and in the table for ever (`Landing.AbandonedStays`), and what was accepted on top
  of it lands without it (`Landing.AbandonedUnderneath`).
- A rename that carries content is shown with it and lands without it
  (`Patchsets.RenameWithContentIsLost`, `Patchsets.ShownIsLanded`).
- A rebase undoes an upstream change of a file's mode (`Rebase.ModeChangeIsLost`,
  `Rebase.UpstreamModeKept`).
- A restacked changeset can keep naming its parent's previous patchset, when both patchsets of
  the parent have one tree (`Restack.LeftBehind`). After a whole restack it names the current one
  exactly when, before, it was not on another patchset with the tree the parent has in the end
  (`Restack.RestackedNames`).
- A file that turns into a gitlink is missing from the tree difference
  (`TreeDiff.FileBecomesGitlink`, `TreeDiff.DiffIsExact`).
- An agent's second try to land takes its edits from the first try, but its baseline from the
  start. After a file was merged with another agent's change, and that change was reverted, the
  file counts as untouched, and the old merge is pushed over the revert
  (`LandMerge.RevertIsUndone`), or, when nothing else has to be merged, submitted again for a
  head that is gone (`LandMerge.RevertIsUnrelated`). The edits still carry the agent's content
  exactly when every change was kept or merged to that content (`LandMerge.RetryCarriesIff`).
- After a try that drops a change already on the head, the next try takes one file's edit for
  another's and reads past the end of the list (`LandMerge.DropMisaligns`). What is pushed is
  right exactly when every kept change finds its own edit at its index
  (`LandMerge.PushesRightIff`).
- A file that is moved and edited in one commit is recorded as added, since only equal contents
  are paired (internal/postgres/entity_moves.go:20-76). With the history index on, blame then
  says the commit created it (service/blame_index.go:70-74), where the trees say it was moved
  (service/blame.go:683-743); that answer is not marked truncated, so it is stored, and later
  blames start from it (`BlameIndex.EditedMoveIsMisblamed`). The plan is the tree's exactly when
  an added file has no source in the parent, and a moved one was not there before and comes
  from the source the trees give (`BlameIndex.PlanIsTreeIff`, `BlameIndex.PlannedIsTreeIff`).
- A copy record of `git diff-tree` is read as one path although it has two
  (`GitImport.CopyIsMisread`). The import asks Git for renames only, so Git writes none.

## Model

| member | source | states |
|---|---|---|
| Lines.JoinSplit | agents/src/merge.ts:18-22 | joining the lines of any text gives the text back |
| Lines.SplitIsLines | agents/src/merge.ts:18-22 | splitting yields non-empty lines with a newline only at their end, and at the end of all but possibly the last |
| Lines.SplitJoin | agents/src/merge.ts:18-22 | any such lines, joined and split, come back unchanged |
| Myers.MostIsMost | agents/src/merge.ts:36-53 | the frontier is furthest reaching: no path with the same numbers of dropped and taken lines matches more lines |
| Myers.CommonEnds | agents/src/merge.ts:33-54 | a common subsequence of g lines makes round n + m - 2g end; with g = 0, the outer loop always finds an end |
| Myers.Round | agents/src/merge.ts:36-53 | one round updates the frontier array in place within its bounds, keeps the entries later rounds read, and finds an end exactly when one exists |
| Myers.Forward | agents/src/merge.ts:27-54 | the forward loop stops in round n + m - 2 * LCS and saves one frontier per round |
| Myers.StepBack | agents/src/merge.ts:59-77 | one turn of the backward walk pushes the matches of the round it retraces and moves to where that round came from |
| Myers.LcsIsLongest | agents/src/merge.ts:26-79 | the retraced pairs are a common subsequence, and none is longer |
| Myers.LcsPairs | agents/src/merge.ts:26-79 | `lcsPairs` returns those pairs, for every two sequences |
| Merge3.Table | agents/src/merge.ts:92-95 | the table holds for each base line where a side kept it, and -1 for the others |
| Merge3.MergeLines | agents/src/merge.ts:97-119 | the loop over the sync points gives the result of the recursive decomposition into chunks |
| Merge3.Merge3 | agents/src/merge.ts:88-120 | `merge3` of any three texts is the result of their chunks |
| Merge3.MergeDecomposes | agents/src/merge.ts:88-120 | the chunks concatenate back to base, ours and theirs, and the sync lines are exactly the base lines both sides kept |
| Merge3.MergeMeans | agents/src/merge.ts:97-119 | clean exactly when in no chunk all three sides differ; the text then takes from each chunk the side that changed it, and else the chunks where all three differ are reported, all of them, in order |
| Merge3.MergeWithUnchanged | agents/src/merge.ts:81-120 | merging with an unchanged side returns the other side, clean |
| Merge3.MergeIdentical | agents/src/merge.ts:81-120 | merging two equal sides returns that text, clean |
| Merge3.MergeSwap | agents/src/merge.ts:81-120 | swapping ours and theirs keeps the merged text and mirrors the conflicts |
| Merge3.AboveAndBelow | agents/src/merge.ts:88-120 | a line added above by one side and a line added below by the other are both merged in |
| UnifiedDiff.Script | agents/src/merge.ts:126-137 | the operations read the before text and write the after text, are numbered by line, keep exactly the matched lines, and drop lines before they take others between two kept ones |
| UnifiedDiff.Group | agents/src/merge.ts:143-148 | changes are grouped exactly while the gap to the next is at most twice the context |
| UnifiedDiff.Hunks | agents/src/merge.ts:139-155 | hunks are slices of the script in order, without overlap, with right header numbers, each framed by its context, with close changes only; every changed operation is in one |
| UnifiedDiff.HunksArePatch | agents/src/merge.ts:139-155 | replacing each hunk's old line range, as its header numbers it, in the before text gives the after text |
| UnifiedDiff.HunksReverse | agents/src/merge.ts:139-155 | the hunks read backwards take the after text to the before text |
| UnifiedDiff.ScriptIsShortest | agents/src/merge.ts:123-137 | no script between the same texts keeps more lines |
| UnifiedDiff.Diff | agents/src/merge.ts:123-157 | for every two texts: the hunks of a shortest script, a patch both ways, none exactly when the texts are equal |
| LandMerge.FateIs | agents/src/land.ts:233-256 | one file's fate from its base, ours and the head's content alone: ours where the head has the base or ours, the clean line merge where both are there as text, and a conflict exactly in every other case |
| LandMerge.Judge | agents/src/land.ts:233-256 | what becomes of one changed file: kept exactly where the head has the base, already there exactly where it has ours, in conflict exactly where the two cannot be reconciled, with exactly the hunks of the line merge, and else merged |
| LandMerge.MergeOntoHead | agents/src/land.ts:218-261 | for whatever list of edits an earlier try left: conflicts exactly when some file cannot be reconciled, and names exactly those with exactly their hunks; else names exactly the files that merge, and from the agent's own edits what is submitted next lands right |
| LandMerge.MergeOverwritesNothing | agents/src/land.ts:218-261 | applied to the head, each changed file holds what base, ours and the head's content alone call for: ours where nobody else touched it or both agree, the clean merge, and else the head's content; every other file stays; the loop pushes that exactly when every kept change finds its own edit, as on the first try |
| LandMerge.AnswerLandsRight | agents/src/land.ts:170-208 | so what a try without conflicts submits from the agent's own edits, merged or unrelated, lands right |
| LandMerge.PushesRightIff | agents/src/land.ts:232-257 | the loop pushes what should land exactly when every kept change finds its own edit at its index |
| LandMerge.UnrelatedIff | agents/src/land.ts:258-259 | "unrelated" is said exactly when no file conflicts or merges and as many are kept as there are edits |
| LandMerge.UnrelatedIsUntouched | agents/src/land.ts:258-259 | with one edit for each change, exactly when nobody else touched any of the files |
| LandMerge.RetryCarriesIff | agents/src/land.ts:198-242 | what a try without conflicts pushes still carries the agent's content, one for one, exactly when every change was kept or merged to that content |
| LandMerge.TriesCarry | agents/src/land.ts:151-208 | over any number of tries on any heads, the edits carry the agent's content while every try keeps it so |
| LandMerge.RevertIsUndone | agents/src/land.ts:200-242 | two files, two heads and two tries: the second try lands the old merge of a file whose other change was reverted, which is not the agent's content |
| LandMerge.RevertIsUnrelated | agents/src/land.ts:170-175 | or, when it is the only file, says "unrelated" and submits the old merge again |
| LandMerge.LinesApartJoin | agents/src/land.ts:245-256 | lines that two agents add above and below are merged |
| LandMerge.AroundExists | agents/src/merge.ts:18-22 | any three lines make texts of that kind |
| LandMerge.DropMisaligns | agents/src/land.ts:200-242 | two tries on given heads: the first drops a change that is there already, the second takes the other change's edit for it, and nothing for the other |
| LandMerge.EitherMayLandFirst | agents/src/land.ts:232-257 | whichever of two agents lands first, the other conflicts in both orders or merges to the same text |
| Patchsets.WriteSetIs | service/diff_validator.go:48-79 | the write set is what some edit writes |
| Patchsets.ReadsAreRead | service/diff_validator.go:48-113 | the read set has all that any edit reads |
| Patchsets.EffectIsFootprint | internal/treestore/tree_edit.go:80-152 | on two bases that agree on the read set the edits succeed alike and give the same write set; all else is unchanged |
| Patchsets.IndependentCommute | internal/treestore/tree_edit.go:80-152 | patchsets whose write sets avoid each other's read sets land in either order to the same tree |
| Patchsets.PatchsetFile | service/changeset_diff.go:193-240 | the loop over the edits shows at a path the first content brought there, else what the last deciding edit makes of it |
| Patchsets.EffectAtIsFootprint | service/changeset_diff.go:193-240 | what is shown at a path depends only on the read set, and outside the write set is the base |
| Patchsets.ShownIsLanded | service/changeset_diff.go:193-240 | edits that do not touch each other's paths are shown as they land, at every path, exactly when every rename with content carries what it moves |
| Patchsets.RenameWithContentIsLost | service/changeset_diff.go:213-229 | a rename with other content is shown with it and lands without it |
| Validator.Collect | service/diff_validator.go:48-79 | refuses exactly when an edit leaves the slice; else collects the write set and the sources of copies |
| Validator.CheckSources | service/diff_validator.go:104-113 | gives the bases of the sources of copies, or names one that is not there |
| Validator.Validate | service/diff_validator.go:25-130 | accepts exactly the admissible edits, and records their write set, their read set and what the base holds on it |
| Rebase.Changed | service/restack_merge.go:34-48 | a path changed upstream exactly when the new base differs from the recorded one, whatever the memo of new bases holds |
| Rebase.RebaseEdits | service/restack_merge.go:66-114 | the loop gives, edit by edit, the kept edits and the conflicts |
| Rebase.RebaseNeverSilent | service/restack_merge.go:26-151 | on the new base, untargeted paths keep the upstream content, and every targeted path holds the author's result on unchanged inputs, a change upstream made too, a clean merge, or is reported |
| Rebase.ReportedIff | service/restack_merge.go:66-151 | a conflict is reported exactly for a move or copy with a changed end, a deletion of a file that upstream changed and kept, or a write over other upstream content where a side is missing, not mergeable, or does not merge cleanly |
| Rebase.CleanApplies | service/restack_merge.go:66-151 | edits that do not touch each other's paths and have no conflict apply on the new base |
| Rebase.RebaseOntoSameBase | service/restack_merge.go:26-114 | onto a base that holds the recorded bases, the same edits and no conflict |
| Rebase.UpstreamModeKept | service/restack_merge.go:66-151 | the landed tree has the upstream mode at a path exactly when the last edit that puts a file there has it, whatever was merged |
| Rebase.ModeChangeIsLost | service/restack_merge.go:120-151 | an upstream change of mode only is undone without a conflict |
| Landing.FreshLands | internal/postgres/changeset_submit.go:61-217 | a patchset whose recorded bases hold lands its preview on its write set and nothing else |
| Landing.FitsIffFresh | internal/postgres/changeset_publish.go:162-245 | a claimed or left part of the queue is fresh where it lands exactly when every patchset of it finds on its read set what it finds in queue order |
| Landing.PublishSafeIff | internal/postgres/changeset_publish.go:162-471 | a publish keeps the store safe exactly when its claim is orderly or cannot be applied |
| Landing.ApartIsOrderly | internal/postgres/changeset_publish.go:162-245 | a claim is orderly when no row it leaves touches what a claimed row behind it reads or writes, nor the reverse |
| Landing.FirstRowsAreApart | internal/postgres/changeset_publish.go:167-174 | which holds of every claim of the first rows |
| Landing.SameAccepted | internal/postgres/changeset_publish.go:247-366 | if both parts of the queue land fresh, in whatever order, the tree is that of the queue's own order |
| Landing.LaterRowFirst | internal/postgres/changeset_publish.go:167-245 | two accepted changes of one file, the later published first: the head ends at the earlier one, and the later landing did not find its base |
| Landing.NoLostUpdate | service/submit_merge.go:36-141 | a run of pushes, merges, submits and publishes is safe after every step exactly when each publish is orderly where it happens; safe: each landing found every path it reads as recorded and changed only its write set, landings form one line of history, and merged patchsets have no conflicts |
| Landing.NothingIsEverLost | service/submit_merge.go:36-141 | the same for the runs of a store that starts empty |
| Landing.AbandonedStays | internal/postgres/changeset_publish.go:282-285 | over any run, the row of a changeset abandoned in the queue is never taken and stays accepted |
| Landing.AbandonedUnderneath | internal/postgres/changeset_store.go:429-466 | what was accepted on top of an abandoned changeset lands on a file that is not its base |
| Landing.MergeLandsBoth | service/submit_merge.go:36-83 | a merged patchset that lands leaves at each path the author's result, the same change, or a clean merge with what the head held just before |
| LandsOnce.SubmittedIsLandedOnce | internal/postgres/changeset_publish.go:247-471 | over every run from an empty store, by the rule or by the table: a changeset is submitted exactly when it has landed, no changeset lands twice, and a pending one waits exactly once |
| LandsOnce.ChangeLands | internal/postgres/changeset_publish.go:247-471 | a changeset that is made, pushed on the head, accepted and published lands its edits, is submitted, and leaves the others alone |
| PathHeads.AdmissionIsExact | internal/postgres/path_bases.go:11-53 | on a table that says what was accepted, a submit is accepted exactly when its bases hold after everything accepted, and the table stays right |
| PathHeads.RefreshRows | internal/postgres/path_heads.go:35-132 | the loops over the edits, their folders and the targets write what the published tree holds into the rows of the targets, of the files in folders that took the place of a path, and of everything below what is gone |
| PathHeads.PublishedKeys | internal/postgres/path_heads.go:15-70 | after the publish of a claim there are exactly the rows there were and those some publish inserts |
| PathHeads.LastRefreshedRow | internal/postgres/path_heads.go:15-70 | a refreshed row says what the last refresh found, whatever the earlier ones did |
| PathHeads.PublishCoherentIff | internal/postgres/path_heads.go:15-132 | an orderly publish of any claim keeps the table right exactly when none of its refreshes, tombstones below emptied folders included, overtakes a later accepted change |
| PathHeads.NoLaterWriter | internal/postgres/path_heads.go:92-132 | in particular when nothing that lands later writes a path whose row is refreshed |
| PathHeads.StoreRunExact | internal/postgres/changeset_submit.go:61-217 | a run stays safe and its table right after every step exactly when each publish is orderly and does not overtake; over such a run the table admits exactly what the rule admits, so no update is lost |
| PathHeads.StartIsSafe | internal/postgres/path_heads.go:15-70 | the state the failing sequence starts from is a safe one |
| PathHeads.OvertakingLosesUpdate | internal/postgres/path_heads.go:15-70 | three submits and two publishes in which an accepted file is overwritten unseen, at the deleted path or in the folder the deletion empties |
| PathHeads.InOrderLosesUpdate | internal/postgres/path_heads.go:92-132 | the same when the whole queue is published in its order |
| PathHeads.SiblingsAreTaken | internal/postgres/path_heads.go:119-132 | two files of one folder are such a pair of paths |
| MergeOnSubmit.InitializeRows | internal/postgres/path_bases.go:21-42 | rows that are missing are read from the head, the others stay |
| MergeOnSubmit.Server.ValidateBases | internal/postgres/path_bases.go:43-53 | compares every recorded base with its row |
| MergeOnSubmit.Server.ApplyRowEdits | internal/postgres/path_heads.go:135-206 | takes the edits into the rows, all or none |
| MergeOnSubmit.Server.Submit | internal/postgres/changeset_submit.go:61-217 | accepts exactly a current, acceptable, admitted patchset with its requirements met, and appends it to the queue; calls it stale exactly when the table has another base for a path it reads; answers a landed changeset, and a queued one no publisher holds, as it is; else changes at most the initialized rows |
| MergeOnSubmit.Server.PlanMerge | service/submit_merge.go:36-76 | skips exactly where merging does not apply; clashes exactly when the rebase onto the head reports conflicts, with exactly their paths; else gives that rebase's edits onto the head as read |
| MergeOnSubmit.Server.AddMerged | internal/postgres/changeset_patchset.go:16-110 | adds the merge exactly when the patchset it was made from still is the current one, whatever others did since the head was read; it then is the merge step of the state machine |
| MergeOnSubmit.RunGrows | internal/postgres/changeset_patchset.go:16-110 | over any run a changeset only gains patchsets |
| MergeOnSubmit.AfterIsRun | service/submit_merge.go:96-141 | what the calls below refer to as the store after some actions is the run of those actions |
| MergeOnSubmit.Server.MergeAndSubmit | service/submit_merge.go:96-141 | the call is a run of the store: what others do before each step, woven with at most 8 reads, merges and submits in turn. It does not apply exactly where merging does not when it first reads; it conflicts at once exactly where the rebase onto the head it first reads reports conflicts, later only where that onto the head last read does, and names exactly their paths; what it queues is the clean merge of what it last read onto the head it read; it gives up only after 8 merges of which the last is stale, and is refused only for another reason than that. Alone, with a right table and nothing queued that changes what it reads, an open changeset that merges cleanly is queued on the first attempt |
| MergeOnSubmit.DidIsSafe | service/submit_merge.go:96-141 | so the store stays safe and its table right through the call, if the others' publishes were good |
| StackSelect.Descendants | service/changeset_stack.go:540-556 | the fixpoint loop ends on every stack, cycles included, with exactly what is reachable from the root by parent links |
| StackSelect.Selected | service/changeset_stack.go:532-564 | in stack order exactly the reachable entries; all of them without a root |
| StackSelect.SelectedForRestack | service/changeset_stack.go:566-594 | in stack order exactly what is reachable from the start or, with siblings, from a changeset with the start's parent; nothing when the start is unknown |
| StackSelect.SelectedAreEntries | service/changeset_stack.go:557-563 | the selected entries are exactly those of the chosen changesets |
| StackSelect.SelectionParentsFirst | service/changeset_stack.go:557-594 | a selection from a stack listed parents first is listed parents first |
| Restack.BaseSource | service/changeset_update.go:250-299 | a patchset base is the parent's current patchset and its result tree, or an error that says whether it may become a conflict |
| Restack.UpdatedCurrent | internal/postgres/changeset_patchset.go:71-102 | after an update the current patchset starts from the asked base, and has the asked conflicts if there are any |
| Restack.CarriedNames | service/changeset_stack.go:299-307 | the conflicts of an update name exactly the paths found and the paths still unresolved |
| Restack.ReplaysName | service/changeset_stack.go:360-394 | the conflicts of a failed replay name exactly the paths the edits name |
| Restack.RebasedUpdate | service/changeset_stack.go:294-315 | the rebased edits with the found and the unresolved conflicts, of conflict kind if there are any; so, for edits that do not touch each other's paths, an update that keeps the new base outside their write set, has at each of their paths the author's result, the same change, a clean merge or a reported conflict, and no conflict exactly when none of them clashes and none was unresolved |
| Restack.RefreshedReplays | service/changeset_stack.go:202-315 | over a whole restack, every refreshed changeset's new patchset is such a replay of its old one onto its parent's new result |
| Restack.RefreshedIffDue | service/changeset_stack.go:202-262 | a restack that ran through refreshed exactly the changesets that were due: not submitted and with a patchset, and either without a parent but with a target given, marked as needing it, or not on the patchset their parent has in the end |
| Restack.TryUpdate | service/changeset_stack.go:317-349 | the update, or, when its error may become a conflict, an update without edits that conflicts on every path |
| Restack.RestackFrame | service/changeset_stack.go:202-270 | a restack, finished or not, changes only the listed changesets and no existing patchset |
| Restack.RestackedSits | service/changeset_stack.go:202-270 | after a restack that ran through a stack listed parents first, every selected unsubmitted changeset with a patchset and a parent starts from its parent's current result tree |
| Restack.SitsByIdIff | service/changeset_stack.go:240-269 | after its turn it names the parent's current patchset exactly when it did not already start from an equal tree, without conflicts, as the result of another patchset |
| Restack.RestackedNames | service/changeset_stack.go:202-270 | the same of every selected entry after the whole restack, in terms of its patchset before and its parent's after |
| Restack.LeftBehind | internal/postgres/changeset_patchset.go:94-102 | a child restacked without error that still names the old patchset |
| Restack.ConflictsStay | service/changeset_stack.go:294-349 | a changeset in conflict stays in conflict through any number of restacks of anything, failed ones included |
| Restack.OthersAreLeft | service/changeset_stack.go:202-270 | a changeset that is not reported as refreshed was left as it was |
| Restack.RestackSelected | service/changeset_stack.go:202-270 | the loop reports exactly the changesets whose turns moved them, in order, and conflicts exactly when one of them is in conflict |
| Restack.Restack | service/changeset_stack.go:186-288 | the whole call on a stack listed parents first: which entries it selects, the loop, where they sit and which patchset they name, that it refreshes exactly the entries that were due, what each refreshed patchset holds in terms of the old one and the new base, that no other changed, and the reported status |
| Blame.MovedFromIsBest | service/blame.go:683-743 | a file that is not in the parent came from nowhere exactly when the commit lists no legible file that went, and else from one that shares most lines with it, even if that is none |
| Blame.CountShared | service/blame.go:721-727 | the loop counts the lines two versions share, each as often as both have it |
| Blame.FindMovedFrom | service/blame.go:683-743 | the loop over the listed paths finds that file |
| Blame.BlameIsLineOwner | service/blame.go:572-593 | carrying owners forward version by version agrees with following each line back on its own |
| Blame.BlameUnchanged | service/blame.go:228-442 | commits that do not change a file do not change its blame |
| Blame.WalkCredits | service/blame.go:382-415 | any walk over a complete listing carries forward to the full blame credited no further back than one commit: none if it ends exactly, and the oldest commit read if it is cut short |
| Blame.WalkIsExact | service/blame.go:228-442 | a walk that ends at an exact stored blame, or at the file's creation, carries forward to the full blame |
| Blame.WalkReachesBack | service/blame.go:288-305 | a listing of at most 500 commits that has the one which created the file, and no truncated stored blame, makes the walk end exactly |
| BlameIndex.Chain | service/blame_index.go:107-128 | the loop plans the steps of the recursive definition |
| BlameIndex.PlanIsTreeIff | service/blame_index.go:63-101 | a step planned from a true index names the parent path and content the tree gives exactly when the change is certain: added without a source, or moved to a new path from the tree's source |
| BlameIndex.ChainFollowsTrees | service/blame_index.go:107-128 | every step of a chain does, while the changes along it are certain |
| BlameIndex.OffIsTree | service/blame.go:240-378 | with the index off the walk is the one that reads trees |
| BlameIndex.ReadableIsPlanned | service/blame.go:315-341 | where every content can be read, the walk takes each step the index plans, although it plans several steps ahead |
| BlameIndex.PlannedIsTreeIff | service/blame_index.go:63-128 | that walk is the one that reads trees exactly when every change along it is certain |
| BlameIndex.CertainIsTree | service/blame.go:240-378 | and if it is certain the walk reads trees whatever contents cannot be read |
| BlameIndex.EditedMoveIsMisblamed | service/blame.go:315-341 | a move with an edit, on a true index and a complete listing: the walk ends exactly, and its owners are not the full blame |
| BlameIndex.WalkPage | service/blame.go:288-373 | one page of the loop, planned or not, continues the walk |
| BlameIndex.Walk | service/blame.go:240-378 | over any pages the loop is the walk; it is the one that reads trees with the index off, and with a true index when every change along it is certain, and where all can be read only then |
| BlameIndex.CarryBlame | service/blame.go:572-593 | the owners of a version from those of the version before, by the matching |
| BlameIndex.WalkIsShort | service/blame.go:288-305 | a walk takes at most 500 steps |
| BlameIndex.Answer | service/blame.go:382-415 | the owners of a walk, guesses included, and that they are marked truncated exactly when they may be a guess |
| BlameIndex.BlameFile | service/blame.go:228-442 | the owners, the truncated mark and what is stored, for any walk. Of a walk that may be trusted: the owners are the full blame credited no further back than one commit, the oldest read if the walk was cut short; they are the full blame, and not marked truncated, when the walk ends exactly, and always when the listing has at most 500 commits with the file's creation among them and no truncated stored blame; what is stored is exact or marked truncated |
| BlameService.LandingKeepsBlame | service/blame.go:228-442 | a landing does not change the blame of earlier versions |
| BlameService.SnapshotsAreExact | service/blame.go:254-284 | listings filled from an exact store have exact stored blames |
| BlameService.Service.Land | service/blame.go:228-442 | a landing keeps the stored blames exact |
| BlameService.Service.Blame | service/blame.go:228-442 | over any sequence of landings and blames whose walks may be trusted the stored blames stay exact, the answers are right and are stored; while the listings have at most 500 commits and go back to the file's creation, no answer and no stored blame is a guess, and every answer is the full blame |
| BlameService.Ranges | service/blame.go:159-173 | the ranges expand to the owners, follow one another, are maximal, and name every commit once |
| CloneCache.CacheIsSafe | service/git_clone_cache.go:76-207 | in every reachable state: a held directory is whole, one command works on a directory at a time, nobody waits for a command that is not running, `users` counts the callers, one timer runs exactly while `sweeping` is set, and an unused clone has a sweep coming |
| CloneCache.HeldUntilReleased | service/git_clone_cache.go:76-207 | from when a caller gets a directory until it gives it back, the directory stays whole whatever else happens |
| CloneCache.ClosesOnce | service/git_clone_cache.go:147-155 | a ready signal is closed once, and lets everyone who waits for the clone go |
| CloneCache.ServedIsCurrent | service/git_clone_cache.go:73-120 | in every run from the empty cache whose clock does not go back: a caller that asks at time t gets a clone of its source unless the last command failed and left none at most 900 seconds old; what it gets was fetched at most 30 seconds before t, or the last command failed and it was fetched at most 900 seconds before the caller got it |
| CloneCache.HeldIsCurrent | service/git_clone_cache.go:73-120 | so at any time of such a run every held clone was that current when it was handed out |
| CloneCache.CallerIsUser | service/git_clone_cache.go:159-163 | every caller is counted, so `users` never goes below zero |
| CloneCache.StepKeeps | service/git_clone_cache.go:76-207 | every step of a caller, a command or the timer keeps the invariant |
| CloneCache.SortByLastUsed | service/git_clone_cache.go:197 | the idle clones, permuted, from the oldest on |
| CloneCache.DropExpired | service/git_clone_cache.go:187-196 | drops exactly the unused clones that failed or sat too long, and lists the other unused ones |
| CloneCache.Evict | service/git_clone_cache.go:184-202 | keeps every clone in use or busy and no expired one; at most `maxKept` remain unless all that remain are in use or busy; a clone is displaced only when it must be, and the oldest first |
| CloneCache.ImportCloneCache.constructor | service/git_clone_cache.go:63-71 | an empty cache |
| CloneCache.ImportCloneCache.Acquire | service/git_clone_cache.go:77-98 | is the acquire step: afterwards a command runs on the clone exactly if it is new, was busy or failed, or was fetched more than 30 seconds before; the caller is counted, and waits from now on |
| CloneCache.ImportCloneCache.Serve | service/git_clone_cache.go:107-119 | is the wake step: hands the directory out unless the error leaves nothing fresh enough |
| CloneCache.ImportCloneCache.EvictLocked | service/git_clone_cache.go:184-207 | evicts in place and removes the directories of what is dropped |
| CloneCache.ImportCloneCache.Release | service/git_clone_cache.go:159-169 | is a release step |
| CloneCache.ImportCloneCache.Sweep | service/git_clone_cache.go:171-180 | is a sweep step |
| CloneCache.ImportCloneCache.Finish | service/git_clone_cache.go:131-156 | is the step that ends a command |
| GitImport.Snapshot | service/git_snapshots.go:108-179 | the files found are those of the commit whatever blobs were read before, and what is remembered stays true |
| GitImport.DiffSnapshots | service/git_snapshots.go:234-266 | exactly the paths that differ, each once, with what they hold |
| GitImport.Parse | service/git_cli.go:17-74 | the token loop gives what the tokens say, errors included, with written paths taken out of the deleted ones |
| GitImport.ParsedEncode | service/git_cli.go:17-74 | reading back any list of A, M, T, D and R records gives their deleted and written paths |
| GitImport.CopyIsMisread | service/git_cli.go:33-39 | a copy record's second path is taken for a status |
| GitImport.ChangedFiles | service/git_snapshots.go:194-224 | one edit for each deleted or written path, a deletion where no file is found |
| GitImport.DeltaEdits | service/git_snapshots.go:181-232 | from any tree that mounts the commit before, the edits name each path once and lead to the commit |
| GitImport.ImportCommit | service/git_import.go:203-216 | the edits of one commit, first or later, lead from the tree to the commit |
| GitImport.Import | service/git_import.go:161-311 | for every starting tree, history and completed prefix, the import ends with the last commit's files under the mount and nothing else touched |
| TreeDiff.DiffTrees | agents/src/artifacts.ts:16-55 | for every two trees: each path that differs outside the head's gitlinks is listed once, with its new file and old hash, and no other path, though equal subtrees are skipped |
| TreeDiff.VisitHead | agents/src/artifacts.ts:27-46 | one entry of the head, with files turned into directories and back |
| TreeDiff.VisitBase | agents/src/artifacts.ts:47-52 | one entry that only the base has |
| TreeDiff.DiffIsExact | agents/src/artifacts.ts:16-55 | applied to the base's files the list gives the head's, exactly when no base file lies where the head has a gitlink |
| TreeDiff.DiffThenApply | agents/src/artifacts.ts:16-55 | the same for the maps of all files of the two trees |
| TreeDiff.FileBecomesGitlink | agents/src/artifacts.ts:30 | a file that turns into a gitlink is not listed |
| TreeDiff.RenderIsInjective | agents/src/artifacts.ts:28-36 | paths of slash-free names are told apart by their text |
| TriggerModules.ReadModule | service/trigger_run.go:207-234 | one more module within the limits with the targets of its imports, or the true reason why not |
| TriggerModules.LoadedIsReachable | service/trigger_run.go:197-237 | what is loaded when the queue is empty is exactly what is reachable, and closed under imports |
| TriggerModules.Load | service/trigger_run.go:197-237 | ends on every import graph; succeeds exactly when some set of text modules with the entry is closed under imports within 50 modules and 1 MiB, and returns exactly the reachable ones |

## Left out

- The text rendering of unified diffs (agents/src/merge.ts:138-156): the hunks and header numbers are modelled, not their characters.
- File and directory clashes in repository trees: a tree is a flat map, so a file at a path that is also a directory is not modelled, nor are whole directories moved or deleted by one edit.
- The order of lists that the source sorts for output only (write sets, tree changes, import edits): each names a path once, so the order changes nothing that is modelled.
- Rebase.RebaseNeverSilent: speaks of patchsets in which no edit reads or writes what an earlier one wrote; the rebase compares every edit with the base alone, so a chain of edits on one path has no such meaning.
- Patchsets.ShownIsLanded: speaks of the same patchsets, since the per-path form never applies one edit to the result of another.
- Landing.MergeLandsBoth: speaks of the same patchsets.
- GitImport.Import: a resumed import skips a prefix of the history and finds the mount as that prefix left it; a history rewritten between attempts is not modelled.
- GitImport.DeltaEdits: the format of Git's output is the one `diff-tree` writes for renames without copies.
- BlameIndex.Walk: with the index on, speaks of an index whose rows are true of the trees and of a listing with every commit that changed the file; without the index only the listing is assumed.
- BlameService.Service.Blame: the listing of commits is a parameter, assumed complete; `blameUnlistedCommits`, which repairs a late index, is not modelled.
- CloneCache.CacheIsSafe: says that a sweep is due, not when a timer fires.
- The server's own diff library (internal/diffutil): the rebase takes any line merge as a parameter.
- Authorization, approvals, checks, notifications and analytics: whether requirements are met is a parameter.
- Path normalization and globbing, and the regular expression that finds imports: parameters.
- Serialization retries, and when claims and leases of the publisher run out: a publish is one step that lands any claimed rows of the queue, in queue order, or nothing; a publisher that lost the race for the ref lands nothing.
- MergeOnSubmit.Server.ApplyRowEdits: the row of a directory that a mkdir edit writes is not modelled, since trees have no directories.
- PathHeads.RefreshRows: a folder is there when a file lies in it or the published patchset makes it; an empty folder that an earlier patchset made counts as not there. The row of a folder says that no file is there, not which folder.
- Validator.Validate: the refusals of `normalizeEdit` and the lookup of blobs are not modelled; edits arrive in their normal form with their contents.
- MergeOnSubmit.Server.Submit: what a parent's status says of a stacked changeset is part of whether its requirements are met.
- UnifiedDiff.HunksArePatch: reads a header's start as the code prints it; the unified format numbers an empty range by the line before it, so for a hunk without old or new lines the two differ.
- Git itself, file system errors and timeouts: a command ends well or badly at any time.
