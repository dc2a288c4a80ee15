/**
  Submit and merge on submit (service/submit_merge.go, `submitOnce` in
  internal/postgres/changeset_submit.go), imperatively, with other agents acting on
  the same store between any two of its steps.
 */
module MergeOnSubmit {
  import opened Options
  import opened Patchsets
  import opened Rebase
  import opened Landing
  import opened PathHeads

  /** `Already`: in the queue from an earlier submit, or landed. */
  datatype SubmitResult = Accepted | Already | Stale | Refused

  /** What is to be merged: the edits that take patchset `number` onto a head. */
  datatype Plan = Skip | Clash(paths: seq<Path>) | Take(number: nat, onto: Tree, edits: seq<Edit>)

  datatype MergeResult = NotApplied | Conflicts(paths: seq<Path>) | Failed | Merged(number: nat)

  /** `RefusedMerge`: the submit was refused after the merge was added as patchset `number`. */
  datatype Outcome =
    InQueue | WasIn | Blocked | RefusedMerge(number: nat) | KeptMoving | Conflicting(paths: seq<Path>) | Cancelled

  /** `Moved`: the base moved on once more since it was read. */
  datatype TurnResult = Skipped | Moved | Ended(outcome: Outcome, merged: bool)

  /** A call's answer, whether merging applied, and how many merges it made. */
  datatype Ending = Ending(outcome: Outcome, applied: bool, merges: nat)

  const MERGE_ON_SUBMIT_ATTEMPTS := 8

  /** The table lets the changeset's current patchset in. */
  predicate Admitted(st: Store, id: Id)
    requires Acceptable(st.s, id)
  {
    var ps := Current(st.s.changesets[id]);
    var rows := Initialized(st.rows, st.s.head, ps.edits);
    Admits(rows, ps) && RowEdits(rows, ps.edits).Some?
  }

  /** Some path the current patchset read has moved on, says the table. */
  predicate IsStale(st: Store, id: Id)
    requires Acceptable(st.s, id)
  {
    var ps := Current(st.s.changesets[id]);
    !Admits(Initialized(st.rows, st.s.head, ps.edits), ps)
  }

  predicate IsQueued(queue: seq<Queued>, id: Id)
  {
    exists i :: 0 <= i < |queue| && queue[i].changeset == id
  }

  /** Rows of the paths that have none are read from the head. */
  method InitializeRows(rows: Rows, head: Tree, paths: set<Path>) returns (r: Rows)
    ensures r == rows + map p | p in paths && p !in rows :: Get(head, p)
  {
    r := rows;
    var todo := paths;
    while todo != {}
      invariant todo <= paths && r.Keys == rows.Keys + (paths - todo)
      invariant forall p :: p in r ==> r[p] == if p in rows then rows[p] else Get(head, p)
      decreases |todo|
    {
      var p :| p in todo;
      if p !in r { r := r[p := Get(head, p)]; }
      todo := todo - {p};
    }
  }

  // The store after some actions is `StoreRun` of them.  It goes by a name of its own here,
  // and in three steps, so that proofs about a call need not look into the actions.

  ghost function After(m: Merger, st: Store, actions: seq<Action>): (r: Store)
    decreases |actions|, 2
  {
    AfterAll(m, st, actions)
  }

  ghost function AfterAll(m: Merger, st: Store, actions: seq<Action>): (r: Store)
    decreases |actions|, 1
  {
    AfterEach(m, st, actions)
  }

  ghost function AfterEach(m: Merger, st: Store, actions: seq<Action>): (r: Store)
    decreases |actions|, 0
  {
    if actions == [] then st else After(m, StoreStep(m, st, actions[0]), actions[1..])
  }

  lemma {:induction false} AfterIsRun(m: Merger, st: Store, actions: seq<Action>)
    ensures After(m, st, actions) == StoreRun(m, st, actions)
    decreases |actions|
  {
    assert After(m, st, actions) == AfterAll(m, st, actions) == AfterEach(m, st, actions);
    if actions != [] { AfterIsRun(m, StoreStep(m, st, actions[0]), actions[1..]); }
  }

  lemma AfterConcat(m: Merger, st: Store, x: seq<Action>, y: seq<Action>)
    ensures After(m, st, x + y) == After(m, After(m, st, x), y)
  {
    AfterIsRun(m, st, x + y);
    AfterIsRun(m, st, x);
    AfterIsRun(m, After(m, st, x), y);
    StoreRunConcat(m, st, x, y);
  }

  lemma AfterNone(m: Merger, st: Store)
    ensures After(m, st, []) == st
  {
    AfterIsRun(m, st, []);
  }

  lemma AfterOne(m: Merger, st: Store, a: Action)
    ensures After(m, st, [a]) == StoreStep(m, st, a)
  {
    AfterIsRun(m, st, [a]);
    assert [a][1..] == [];
  }

  /** What happens in all: before each of our steps, what others do meanwhile. */
  ghost function Weave(others: nat -> seq<Action>, own: seq<seq<Action>>): seq<Action>
    decreases |own|
  {
    if own == [] then []
    else Weave(others, own[..|own| - 1]) + others(|own| - 1) + own[|own| - 1]
  }

  lemma WeaveSnoc(others: nat -> seq<Action>, own: seq<seq<Action>>, step: seq<Action>)
    ensures Weave(others, own + [step]) == Weave(others, own) + others(|own|) + step
  {
    assert (own + [step])[..|own + [step]| - 1] == own;
  }

  /** Our steps: reading what to merge, adding the merge, submitting it, in turn; each
      may change nothing. */
  ghost predicate InTurn(id: Id, own: seq<seq<Action>>)
  {
    forall k :: 0 <= k < |own| ==> MayDo(id, k, own[k])
  }

  ghost predicate MayDo(id: Id, k: nat, step: seq<Action>)
  {
    || step == []
    || (k % 3 == 1 && |step| == 1 && step[0].Merge? && step[0].id == id)
    || (k % 3 == 2 && step == [Accept(id)])
  }

  /** The store went from `start` to `now` by our steps and what others did meanwhile. */
  ghost predicate Did(m: Merger, start: Store, now: Store, id: Id, others: nat -> seq<Action>, own: seq<seq<Action>>)
  {
    InTurn(id, own) && now == After(m, start, Weave(others, own))
  }

  lemma DidOne(m: Merger, start: Store, now: Store, next: Store, id: Id, others: nat -> seq<Action>,
               own: seq<seq<Action>>, step: seq<Action>)
    requires Did(m, start, now, id, others, own)
    requires MayDo(id, |own|, step)
    requires next == After(m, After(m, now, others(|own|)), step)
    ensures Did(m, start, next, id, others, own + [step])
  {
    WeaveSnoc(others, own, step);
    AfterConcat(m, start, Weave(others, own), others(|own|));
    AfterConcat(m, start, Weave(others, own) + others(|own|), step);
  }

  lemma DidSubmit(m: Merger, start: Store, now: Store, before: Store, after: Store, id: Id,
                  others: nat -> seq<Action>, own: seq<seq<Action>>) returns (own': seq<seq<Action>>)
    requires Did(m, start, now, id, others, own) && |own| % 3 == 2 && before == After(m, now, others(|own|))
    requires after == before || after == PathHeads.Submit(before, id)
    ensures |own'| == |own| + 1 && own'[..|own|] == own && Did(m, start, after, id, others, own')
    ensures own'[|own|] == if after == before then [] else [Accept(id)]
  {
    var step: seq<Action> := if after == before then [] else [Accept(id)];
    AfterNone(m, before);
    AfterOne(m, before, Accept(id));
    DidOne(m, start, now, after, id, others, own, step);
    own' := own + [step];
  }

  /** A step of ours that changes nothing. */
  lemma DidWait(m: Merger, start: Store, now: Store, id: Id, others: nat -> seq<Action>, own: seq<seq<Action>>)
    requires Did(m, start, now, id, others, own)
    ensures Did(m, start, After(m, now, others(|own|)), id, others, own + [[]])
  {
    var next := After(m, now, others(|own|));
    AfterNone(m, next);
    DidOne(m, start, now, next, id, others, own, []);
  }

  /** A changeset only gains patchsets, and keeps its parent. */
  ghost predicate Grown(cs: Changeset, cs': Changeset)
  {
    cs.patchsets <= cs'.patchsets && cs.parent == cs'.parent
  }

  lemma StepGrows(m: Merger, st: Store, a: Action, id: Id)
    requires id in st.s.changesets
    ensures id in StoreStep(m, st, a).s.changesets && Grown(st.s.changesets[id], StoreStep(m, st, a).s.changesets[id])
  {
  }

  lemma {:induction false} RunGrows(m: Merger, st: Store, actions: seq<Action>, id: Id)
    requires id in st.s.changesets
    ensures id in After(m, st, actions).s.changesets
    ensures Grown(st.s.changesets[id], After(m, st, actions).s.changesets[id])
    decreases |actions|
  {
    AfterIsRun(m, st, actions);
    if actions != [] {
      StepGrows(m, st, actions[0], id);
      RunGrows(m, StoreStep(m, st, actions[0]), actions[1..], id);
      AfterIsRun(m, StoreStep(m, st, actions[0]), actions[1..]);
    }
  }

  /** Whatever a call and the others did, if their publishes were good where they happened
      the store is as safe as it was, and its table as exact. */
  lemma DidIsSafe(m: Merger, root: Tree, start: Store, now: Store, id: Id, others: nat -> seq<Action>,
                  own: seq<seq<Action>>)
    requires Coherent(start) && Safe(m, root, start.s) && Did(m, start, now, id, others, own)
    requires GoodStoreRun(m, start, Weave(others, own))
    ensures Coherent(now) && Safe(m, root, now.s) && now.s == Run(m, start.s, Weave(others, own))
  {
    AfterIsRun(m, start, Weave(others, own));
    StoreRunExact(m, root, start, Weave(others, own));
  }

  // ---------- What merging means ----------

  /** Merging does not apply: the slice has it off, or the changeset may not be merged. */
  predicate Skips(on: bool, st: Store, id: Id)
  {
    !on || id !in st.s.changesets || !MayMerge(st.s.changesets[id])
  }

  /** The conflicts of taking the changeset's current patchset onto the head. */
  function OntoHead(m: Merger, st: Store, id: Id): (r: seq<Conflict>)
    requires id in st.s.changesets && MayMerge(st.s.changesets[id])
  {
    var ps := Current(st.s.changesets[id]);
    Reported(m, Bases(ps.base, ps.edits), st.s.head, ps.edits)
  }

  /** The edits that take it there. */
  function EditsOntoHead(m: Merger, st: Store, id: Id): (r: seq<Edit>)
    requires id in st.s.changesets && MayMerge(st.s.changesets[id])
  {
    var ps := Current(st.s.changesets[id]);
    Rebased(m, Bases(ps.base, ps.edits), st.s.head, ps.edits)
  }

  function PathsOf(conflicts: seq<Conflict>): (r: seq<Path>)
    ensures |r| == |conflicts| && forall i :: 0 <= i < |r| ==> r[i] == conflicts[i].path
  {
    seq(|conflicts|, i requires 0 <= i < |conflicts| => conflicts[i].path)
  }

  /** It goes onto the head without conflict, and the edits apply there. */
  predicate Mergeable(m: Merger, on: bool, st: Store, id: Id)
  {
    !Skips(on, st, id) && OntoHead(m, st, id) == [] && ApplyEdits(st.s.head, EditsOntoHead(m, st, id)).Some?
  }

  /** The patchset is the clean merge onto the head of what the store `read` had current. */
  predicate IsMerge(m: Merger, on: bool, read: Store, id: Id, ps: Patchset)
  {
    && Mergeable(m, on, read, id) && ps.base == read.s.head && ps.conflicts == []
    && ps.edits == EditsOntoHead(m, read, id)
    && ps.result == ApplyEdits(read.s.head, EditsOntoHead(m, read, id)).value
  }

  /** The call ended by queueing a merge: of what was read at the start of its last turn,
      onto the head as it was then. */
  ghost predicate QueuedMerge(m: Merger, on: bool, start: Store, id: Id, others: nat -> seq<Action>,
                              own: seq<seq<Action>>, queue: seq<Queued>)
  {
    && |own| >= 3 && own[|own| - 1] == [Accept(id)]
    && var read := After(m, start, Weave(others, own[..|own| - 2]));
    && own[|own| - 2] == [Merge(id, read.s.head)]
    && queue != [] && queue[|queue| - 1].changeset == id && IsMerge(m, on, read, id, queue[|queue| - 1].patchset)
  }

  /** The last of our steps was to add a merge, and did not. */
  ghost predicate AddedNothing(own: seq<seq<Action>>)
  {
    |own| % 3 == 2 && own[|own| - 1] == []
  }

  /** The store refuses the patchset of that number, which the changeset has, and not because
      of a path that moved on: the requirements are not met, the changeset is not open or
      has another patchset since, or the edits do not apply. */
  ghost predicate Refuses(now: Store, id: Id, number: nat, met: bool)
  {
    && id in now.s.changesets && 0 < number <= |now.s.changesets[id].patchsets|
    && (met && Acceptable(now.s, id) && |now.s.changesets[id].patchsets| == number ==>
          !IsStale(now, id) && !Admitted(now, id))
  }

  /** The merge of what `read` had was added, as the last of our steps. */
  ghost predicate Added(m: Merger, on: bool, start: Store, read: Store, now: Store, id: Id,
                        others: nat -> seq<Action>, own: seq<seq<Action>>, number: nat)
  {
    && own != [] && own[|own| - 1] == [Merge(id, read.s.head)]
    && read == After(m, start, Weave(others, own[..|own| - 1]))
    && id in now.s.changesets && |now.s.changesets[id].patchsets| == number > 0
    && IsMerge(m, on, read, id, Current(now.s.changesets[id]))
  }

  /** What a turn does that reads `read` and ends at `now`: it is skipped exactly where merging
      does not apply, ends in conflict exactly where the rebase onto the head reports some,
      queues nothing but the merge of what was read, and else goes on only because of a
      path that has moved on once more. */
  ghost predicate TurnIs(m: Merger, on: bool, start: Store, read: Store, now: Store, id: Id,
                         others: nat -> seq<Action>, own: seq<seq<Action>>, r: TurnResult, met: bool, lone: bool)
  {
    && (r == Skipped <==> Skips(on, read, id))
    && (r.Ended? && r.outcome.Conflicting? <==> !Skips(on, read, id) && OntoHead(m, read, id) != [])
    && (r == Skipped ==> now == read)
    && (r.Ended? && r.outcome.Conflicting? ==> now == read && r.outcome.paths == PathsOf(OntoHead(m, read, id)))
    && (r == Moved ==> Mergeable(m, on, read, id) && Acceptable(now.s, id) && IsStale(now, id))
    && (r.Ended? ==> r.outcome != KeptMoving && r.outcome != Cancelled)
    && (r.Ended? && r.outcome == InQueue ==> r.merged && QueuedMerge(m, on, start, id, others, own, now.s.queue))
    && (r.Ended? && r.outcome == WasIn ==> id in now.s.changesets && now.s.changesets[id].status != Open)
    && (r.Ended? && r.outcome == Blocked ==> AddedNothing(own))
    && (r.Ended? && r.outcome.RefusedMerge? ==> r.merged && Refuses(now, id, r.outcome.number, met))
    && (lone && met && Alone(m, on, read, id, others) ==>
          r == Ended(InQueue, true) && QueuedFirst(m, on, read, id, now.s.queue))
  }

  /** What a call does, from `start` to `now`, that first reads `first`.  It does not apply
      exactly where merging does not then.  It queues nothing but a merge of what it read, and names the
      conflicts of the rebase onto the head as it last read it; at once, if there are some
      at the beginning.  It gives up only after 8 merges, of which the last is stale. */
  ghost predicate CallIs(m: Merger, on: bool, start: Store, first: Store, now: Store, id: Id,
                         others: nat -> seq<Action>, own: seq<seq<Action>>, met: nat -> bool, ending: Ending)
  {
    var Ending(outcome, applied, merges) := ending;
    && (!applied <==> Skips(on, first, id))
    && (!applied ==> outcome == Blocked && merges == 0 && now == first)
    && (outcome == InQueue ==> QueuedMerge(m, on, start, id, others, own, now.s.queue))
    && (outcome.Conflicting? ==> !Skips(on, now, id) && OntoHead(m, now, id) != [])
    && (outcome.Conflicting? ==> outcome.paths == PathsOf(OntoHead(m, now, id)))
    && (!Skips(on, first, id) && OntoHead(m, first, id) != [] ==> outcome.Conflicting? && now == first)
    && (outcome == WasIn ==> id in now.s.changesets && now.s.changesets[id].status != Open)
    && (outcome == Blocked ==> AddedNothing(own) || (|own| % 3 == 1 && Skips(on, now, id)))
    && (outcome.RefusedMerge? ==> merges > 0 && Refuses(now, id, outcome.number, met(merges - 1)))
    && (outcome == KeptMoving ==> merges == 8 && Acceptable(now.s, id) && IsStale(now, id))
    && (outcome == Cancelled ==> 0 < merges < 8)
    && merges <= 8
  }

  /** The call goes on: what it first read merged cleanly, and its last merge is stale. */
  ghost predicate GoesOn(m: Merger, on: bool, first: Store, now: Store, id: Id)
  {
    Mergeable(m, on, first, id) && Acceptable(now.s, id) && IsStale(now, id)
  }

  /** How a call that made so many merges ends with its next turn. */
  function EndingOf(r: TurnResult, merges: nat): (e: Option<Ending>)
  {
    match r
    case Skipped => Some(Ending(Blocked, merges > 0, merges))
    case Moved => None
    case Ended(outcome, merged) => Some(Ending(outcome, true, if merged then merges + 1 else merges))
  }

  lemma TurnEnds(m: Merger, on: bool, start: Store, first: Store, read: Store, now: Store, id: Id,
                 others: nat -> seq<Action>, own: seq<seq<Action>>, r: TurnResult, merges: nat, met: nat -> bool)
    requires TurnIs(m, on, start, read, now, id, others, own, r, met(merges), 3 * merges == 0)
    requires merges < 8 && if merges == 0 then read == first else Mergeable(m, on, first, id)
    requires r == Skipped ==> |own| == 3 * merges + 1
    ensures r == Moved ==> GoesOn(m, on, first, now, id)
    ensures r != Moved ==> CallIs(m, on, start, first, now, id, others, own, met, EndingOf(r, merges).value)
  {
    if r == Skipped {
      TurnSkips(m, on, start, first, now, id, others, own, merges, met);
    } else if r.Ended? && r.outcome.Conflicting? {
      TurnClashes(m, on, start, first, now, id, others, own, r, merges, met);
    } else if r.Ended? {
      assert !Skips(on, first, id) && OntoHead(m, first, id) == [];
      TurnFinishes(m, on, start, first, now, id, others, own, r, merges, met);
    }
  }

  lemma TurnFinishes(m: Merger, on: bool, start: Store, first: Store, now: Store, id: Id, others: nat -> seq<Action>,
                     own: seq<seq<Action>>, r: TurnResult, merges: nat, met: nat -> bool)
    requires r.Ended? && !r.outcome.Conflicting? && !r.outcome.KeptMoving? && !r.outcome.Cancelled?
    requires merges < 8 && !Skips(on, first, id) && OntoHead(m, first, id) == []
    requires r.outcome == InQueue ==> QueuedMerge(m, on, start, id, others, own, now.s.queue)
    requires r.outcome == WasIn ==> id in now.s.changesets && now.s.changesets[id].status != Open
    requires r.outcome == Blocked ==> AddedNothing(own)
    requires r.outcome.RefusedMerge? ==> r.merged && Refuses(now, id, r.outcome.number, met(merges))
    ensures CallIs(m, on, start, first, now, id, others, own, met, EndingOf(r, merges).value)
  {
  }

  lemma TurnSkips(m: Merger, on: bool, start: Store, first: Store, now: Store, id: Id, others: nat -> seq<Action>,
                  own: seq<seq<Action>>, merges: nat, met: nat -> bool)
    requires Skips(on, now, id) && |own| == 3 * merges + 1 && merges < 8
    requires if merges == 0 then now == first else Mergeable(m, on, first, id)
    ensures CallIs(m, on, start, first, now, id, others, own, met, Ending(Blocked, merges > 0, merges))
  {
  }

  lemma TurnClashes(m: Merger, on: bool, start: Store, first: Store, now: Store, id: Id, others: nat -> seq<Action>,
                    own: seq<seq<Action>>, r: TurnResult, merges: nat, met: nat -> bool)
    requires r.Ended? && r.outcome.Conflicting? && merges < 8
    requires !Skips(on, now, id) && OntoHead(m, now, id) != [] && r.outcome.paths == PathsOf(OntoHead(m, now, id))
    requires if merges == 0 then now == first else Mergeable(m, on, first, id)
    ensures CallIs(m, on, start, first, now, id, others, own, met, EndingOf(r, merges).value)
  {
  }

  /** How it ends without another turn. */
  lemma GivesUp(m: Merger, on: bool, start: Store, first: Store, now: Store, id: Id, others: nat -> seq<Action>,
                own: seq<seq<Action>>, met: nat -> bool, outcome: Outcome, merges: nat)
    requires GoesOn(m, on, first, now, id) && merges > 0
    requires (outcome == Cancelled && merges < 8) || (outcome == KeptMoving && merges == 8)
    ensures CallIs(m, on, start, first, now, id, others, own, met, Ending(outcome, true, merges))
  {
  }

  lemma DidNothing(m: Merger, st: Store, id: Id, others: nat -> seq<Action>)
    ensures Did(m, st, st, id, others, [])
  {
    AfterNone(m, st);
  }

  /** The merge of what the store had is queued after what it had queued. */
  ghost predicate QueuedFirst(m: Merger, on: bool, st: Store, id: Id, queue: seq<Queued>)
  {
    var n := |st.s.queue|;
    && |queue| == n + 1 && queue[..n] == st.s.queue
    && queue[n].changeset == id && IsMerge(m, on, st, id, queue[n].patchset)
  }

  /** Nobody else acts in the first turn, the table is right, the open changeset merges
      cleanly, and nothing queued changes what the merge reads. */
  ghost predicate Alone(m: Merger, on: bool, st: Store, id: Id, others: nat -> seq<Action>)
  {
    && others(0) == [] && others(1) == [] && others(2) == [] && Coherent(st)
    && Mergeable(m, on, st, id) && st.s.changesets[id].status == Open
    && AgreeOn(st.s.head, Landing.Accepted(st.s), ReadSet(EditsOntoHead(m, st, id)))
  }

  /** The plan takes the changeset's current patchset onto its tree, without conflict. */
  ghost predicate PlanFor(m: Merger, cs: Changeset, plan: Plan)
  {
    && plan.Take? && MayMerge(cs)
    && var ps := Current(cs);
    && Reported(m, Bases(ps.base, ps.edits), plan.onto, ps.edits) == []
    && plan.edits == Rebased(m, Bases(ps.base, ps.edits), plan.onto, ps.edits)
  }

  /** Also where the current patchset already is on that head, and stays. */
  lemma MergedHasEdits(m: Merger, cs: Changeset, ps: Patchset)
    requires cs.patchsets != [] && ps.conflicts == []
    requires ps.edits == Rebased(m, Bases(Current(cs).base, Current(cs).edits), ps.base, Current(cs).edits)
    ensures Current(AddPatchset(cs, ps)).edits == ps.edits
  {
    var was := Current(cs);
    if was.base == ps.base { RebaseOntoSameBase(m, ps.base, Bases(was.base, was.edits), was.edits); }
  }

  lemma MergeStepIs(m: Merger, st: Store, id: Id, plan: Plan, ps: Patchset)
    requires id in st.s.changesets && !Closed(st.s.changesets[id]) && PlanFor(m, st.s.changesets[id], plan)
    requires ApplyEdits(plan.onto, plan.edits).Some?
    requires ps == Patchset(plan.onto, plan.edits, ApplyEdits(plan.onto, plan.edits).value, [], SubmitMerge)
    ensures StoreStep(m, st, Merge(id, plan.onto)) ==
      st.(s := st.s.(changesets := st.s.changesets[id := AddPatchset(st.s.changesets[id], ps)]))
  {
  }

  lemma StaleStays(st: Store, id: Id)
    requires Acceptable(st.s, id) && IsStale(st, id)
    ensures var now := PathHeads.Submit(st, id); now.s == st.s && IsStale(now, id)
  {
    var ps := Current(st.s.changesets[id]);
    var rows := Initialized(st.rows, st.s.head, ps.edits);
    assert Initialized(rows, st.s.head, ps.edits) == rows;
  }

  /** What is queued after the merge was added is that merge. */
  lemma QueuedFrom(m: Merger, on: bool, start: Store, read: Store, now: Store, id: Id, others: nat -> seq<Action>,
                   own0: seq<seq<Action>>, own: seq<seq<Action>>, number: nat, queue: seq<Queued>)
    requires |own0| >= 2 && Added(m, on, start, read, now, id, others, own0, number)
    requires |own| == |own0| + 1 && own[..|own0|] == own0 && own[|own0|] == [Accept(id)]
    requires queue != [] && queue[|queue| - 1] == Queued(id, Current(now.s.changesets[id]))
    ensures QueuedMerge(m, on, start, id, others, own, queue)
  {
    assert own[..|own| - 2] == own0[..|own0| - 1];
  }

  /** After what others do, the table lets the changeset's `number` patchsets' last one in. */
  ghost predicate Ready(m: Merger, now: Store, id: Id, actions: seq<Action>, number: nat, queue: seq<Queued>)
  {
    var st := After(m, now, actions);
    Acceptable(st.s, id) && |st.s.changesets[id].patchsets| == number && Admitted(st, id) && st.s.queue == queue
  }

  /** Alone, the merge is let in. */
  lemma AloneIsReady(m: Merger, on: bool, st: Store, now: Store, id: Id, others: nat -> seq<Action>)
    requires Alone(m, on, st, id, others) && now == StoreStep(m, st, Merge(id, st.s.head))
    requires id in now.s.changesets && now.s.changesets[id].patchsets != []
    requires IsMerge(m, on, st, id, Current(now.s.changesets[id]))
    ensures Ready(m, now, id, others(2), |now.s.changesets[id].patchsets|, st.s.queue)
  {
    AfterNone(m, now);
    var ps := Current(now.s.changesets[id]);
    var rows := Initialized(now.rows, now.s.head, ps.edits);
    InitializedHolds(now, ps.edits);
    assert forall p :: p in ReadSet(ps.edits) ==> p in rows && rows[p] == Get(Landing.Accepted(now.s), p);
    EffectIsFootprint(ps.base, Landing.Accepted(now.s), ps.edits);
    RowEditsFollow(rows, Landing.Accepted(now.s), ps.edits);
  }

  /** The store, and the slice's merge_on_submit setting. */
  class Server {
    const merger: Merger
    const mergeOnSubmit: bool
    var head: Tree
    var rows: Rows
    var changesets: map<Id, Changeset>
    var queue: seq<Queued>
    var log: seq<Landed>

    constructor (merger: Merger, mergeOnSubmit: bool, head: Tree)
      ensures View() == Store(Empty(head), map[])
      ensures this.merger == merger && this.mergeOnSubmit == mergeOnSubmit
    {
      this.merger, this.mergeOnSubmit := merger, mergeOnSubmit;
      this.head, this.rows, this.changesets, this.queue, this.log := head, map[], map[], [], [];
    }

    function View(): Store
      reads this
    {
      Store(State(head, changesets, queue, log), rows)
    }

    method Set(st: Store)
      modifies this
      ensures View() == st
    {
      head, rows, changesets, queue, log := st.s.head, st.rows, st.s.changesets, st.s.queue, st.s.log;
    }

    /** What other agents and the publisher do meanwhile. */
    method Meanwhile(actions: seq<Action>)
      modifies this
      ensures View() == After(merger, old(View()), actions)
    {
      AfterIsRun(merger, View(), actions);
      Set(StoreRun(merger, View(), actions));
    }

    /** Compares each recorded base with its row. */
    method ValidateBases(ps: Patchset) returns (ok: bool)
      requires ReadSet(ps.edits) <= rows.Keys
      ensures ok == Admits(rows, ps)
    {
      var todo := ReadSet(ps.edits);
      while todo != {}
        invariant todo <= ReadSet(ps.edits)
        invariant forall p :: p in ReadSet(ps.edits) - todo ==> rows[p] == Get(ps.base, p)
        decreases |todo|
      {
        var p :| p in todo;
        if rows[p] != Get(ps.base, p) { return false; }
        todo := todo - {p};
      }
      return true;
    }

    /** Takes the edits into the rows, all or none of them. */
    method ApplyRowEdits(edits: seq<Edit>) returns (ok: bool)
      modifies this`rows
      ensures ok == RowEdits(old(rows), edits).Some?
      ensures rows == if ok then RowEdits(old(rows), edits).value else old(rows)
    {
      var heads := rows;
      for i := 0 to |edits|
        invariant rows == old(rows) && RowEdits(old(rows), edits) == RowEdits(heads, edits[i..])
      {
        assert edits[i..][0] == edits[i] && edits[i..][1..] == edits[i + 1..];
        match edits[i] {
          case Upsert(p, f) => heads := heads[p := Some(f)];
          case Delete(p) => heads := heads[p := None];
          case Rename(from, p, _) =>
            if from !in heads || heads[from].None? { return false; }
            heads := heads[from := None][p := heads[from]];
          case Copy(from, p) =>
            if from !in heads || heads[from].None? { return false; }
            heads := heads[p := heads[from]];
          case Mkdir(_) =>
        }
      }
      rows := heads;
      return true;
    }

    /** `submitOnce`; `met` says whether approvals and checks are satisfied, `held` whether a
        publisher holds the changeset's row, and `expected` is the number of the patchset
        the caller means. */
    method Submit(id: Id, expected: nat, met: bool, held: bool) returns (r: SubmitResult)
      modifies this
      ensures r == Refused || r == Already ==> View() == old(View())
      ensures View() == old(View()) || View() == PathHeads.Submit(old(View()), id)
      ensures r == Already <==>
        && id in old(changesets)
        && (old(changesets)[id].status == Submitted
            || (old(changesets)[id].status == Pending && IsQueued(old(queue), id) && !held))
      ensures r == Stale ==> View() == PathHeads.Submit(old(View()), id) && queue == old(queue)
      ensures r == Stale <==>
        met && Acceptable(old(View()).s, id) && |old(changesets)[id].patchsets| == expected && IsStale(old(View()), id)
      ensures r == Accepted <==>
        met && Acceptable(old(View()).s, id) && |old(changesets)[id].patchsets| == expected && Admitted(old(View()), id)
      ensures r == Accepted ==>
        View() == PathHeads.Submit(old(View()), id) && queue == old(queue) + [Queued(id, Current(old(changesets)[id]))]
    {
      if id !in changesets { return Refused; }
      var cs := changesets[id];
      if cs.status == Abandoned { return Refused; }
      if cs.status == Submitted { return Already; }
      if cs.status == Pending { return if IsQueued(queue, id) && !held then Already else Refused; }
      if |cs.patchsets| != expected || cs.patchsets == [] || Current(cs).conflicts != [] || !met { return Refused; }
      var ps := Current(cs);
      var before := View();
      rows := InitializeRows(rows, head, ReadSet(ps.edits));
      var valid := ValidateBases(ps);
      if !valid { return Stale; }
      var applied := ApplyRowEdits(ps.edits);
      if !applied {
        Set(before);
        return Refused;
      }
      queue := queue + [Queued(id, ps)];
      changesets := changesets[id := cs.(status := Pending)];
      return Accepted;
    }

    /** Lines 36 to 76: reads the changeset and the head, and takes the one onto the other. */
    method PlanMerge(id: Id) returns (plan: Plan)
      ensures plan.Skip? <==> Skips(mergeOnSubmit, View(), id)
      ensures plan.Clash? <==> !Skips(mergeOnSubmit, View(), id) && OntoHead(merger, View(), id) != []
      ensures plan.Clash? ==> plan.paths == PathsOf(OntoHead(merger, View(), id))
      ensures plan.Take? ==>
        plan.onto == head && plan.edits == EditsOntoHead(merger, View(), id)
        && plan.number == |changesets[id].patchsets|
    {
      if !mergeOnSubmit || id !in changesets { return Skip; }
      var cs := changesets[id];
      if !MayMerge(cs) { return Skip; }
      var ps := Current(cs);
      var edits, conflicts := RebaseEdits(merger, Bases(ps.base, ps.edits), head, ps.edits);
      if |conflicts| > 0 {
        return Clash(seq(|conflicts|, i requires 0 <= i < |conflicts| => conflicts[i].path));
      }
      return Take(|cs.patchsets|, head, edits);
    }

    /** Lines 81 to 82: adds the merge, if the patchset it was made from still is the
        current one.  It then is the merge step of the state machine, onto the head as it
        was read. */
    method AddMerged(id: Id, plan: Plan, ghost read: Changeset) returns (r: MergeResult)
      requires PlanFor(merger, read, plan) && plan.number == |read.patchsets|
      requires id in changesets && Grown(read, changesets[id])
      modifies this
      ensures queue == old(queue) && head == old(head) && rows == old(rows) && log == old(log)
      ensures r.Merged? || r == Failed
      ensures r.Merged? <==>
        && !Closed(old(changesets)[id]) && |old(changesets)[id].patchsets| == plan.number
        && ApplyEdits(plan.onto, plan.edits).Some?
      ensures r == Failed ==> View() == old(View())
      ensures r.Merged? ==>
        && View() == StoreStep(merger, old(View()), Merge(id, plan.onto)) && id in changesets
        && r.number == |changesets[id].patchsets| > 0 && Current(changesets[id]).conflicts == []
        && Current(changesets[id]).base == plan.onto && Current(changesets[id]).edits == plan.edits
        && Current(changesets[id]).result == ApplyEdits(plan.onto, plan.edits).value
    {
      var cs := changesets[id];
      if Closed(cs) || |cs.patchsets| != plan.number || ApplyEdits(plan.onto, plan.edits).None? { return Failed; }
      assert cs.patchsets == read.patchsets;
      var ps := Patchset(plan.onto, plan.edits, ApplyEdits(plan.onto, plan.edits).value, [], SubmitMerge);
      var merged := AddPatchset(cs, ps);
      MergedHasEdits(merger, cs, ps);
      MergeStepIs(merger, View(), id, plan, ps);
      changesets := changesets[id := merged];
      return Merged(|merged.patchsets|);
    }

    /** Lines 96 to 141.  `others(k)` is what others do before the k-th step of this
        call, `met(k)` whether the requirements are satisfied at attempt k, `held(k)` whether
        a publisher holds the row then, and `gone(k)` whether the caller has left by then.  The call is a run of the
        store's actions: what others do, woven with at most 8 merges and 8 submits of
        its own, in turn. */
    method MergeAndSubmit(id: Id, others: nat -> seq<Action>, met: nat -> bool, held: nat -> bool, gone: nat -> bool)
      returns (outcome: Outcome, applied: bool, merges: nat, ghost own: seq<seq<Action>>)
      modifies this
      ensures Did(merger, old(View()), View(), id, others, own)
      ensures |own| <= 3 * 8
      ensures CallIs(merger, mergeOnSubmit, old(View()), After(merger, old(View()), others(0)), View(), id, others,
                     own, met, Ending(outcome, applied, merges))
      ensures met(0) && Alone(merger, mergeOnSubmit, old(View()), id, others) ==>
        outcome == InQueue && merges == 1 && QueuedFirst(merger, mergeOnSubmit, old(View()), id, queue)
    {
      merges, own := 0, [];
      ghost var start := View();
      ghost var first := After(merger, start, others(0));
      ghost var lone := met(0) && Alone(merger, mergeOnSubmit, start, id, others);
      AfterNone(merger, start);
      assert lone ==> first == start;
      DidNothing(merger, start, id, others);
      while merges < MERGE_ON_SUBMIT_ATTEMPTS
        invariant 0 <= merges <= MERGE_ON_SUBMIT_ATTEMPTS
        invariant |own| == 3 * merges && Did(merger, start, View(), id, others, own)
        invariant if merges == 0 then View() == start else !lone && GoesOn(merger, mergeOnSubmit, first, View(), id)
      {
        if merges > 0 && gone(merges) {
          GivesUp(merger, mergeOnSubmit, start, first, View(), id, others, own, met, Cancelled, merges);
          return Cancelled, true, merges, own;
        }
        var ending: Option<Ending>;
        ending, own := Next(id, others, merges, met, held(merges), own, start, first);
        if ending.Some? { return ending.value.outcome, ending.value.applied, ending.value.merges, own; }
        merges := merges + 1;
      }
      GivesUp(merger, mergeOnSubmit, start, first, View(), id, others, own, met, KeptMoving, merges);
      return KeptMoving, true, merges, own;
    }

    /** The next attempt of a call that made so many merges, and the call's ending if it
        ends with it. */
    method Next(id: Id, others: nat -> seq<Action>, merges: nat, met: nat -> bool, held: bool,
                ghost own0: seq<seq<Action>>, ghost start: Store, ghost first: Store)
      returns (r: Option<Ending>, ghost own: seq<seq<Action>>)
      requires |own0| == 3 * merges && Did(merger, start, View(), id, others, own0)
      requires merges < 8 && (merges == 0 ==> first == After(merger, View(), others(0)))
      requires merges > 0 ==> Mergeable(merger, mergeOnSubmit, first, id)
      modifies this
      ensures |own0| < |own| <= |own0| + 3 && Did(merger, start, View(), id, others, own)
      ensures r.None? ==> |own| == |own0| + 3 && GoesOn(merger, mergeOnSubmit, first, View(), id)
      ensures r.Some? ==> CallIs(merger, mergeOnSubmit, start, first, View(), id, others, own, met, r.value)
      ensures merges == 0 && met(0) && Alone(merger, mergeOnSubmit, first, id, others) ==>
        r == Some(Ending(InQueue, true, 1)) && QueuedFirst(merger, mergeOnSubmit, first, id, queue)
    {
      var turn: TurnResult;
      ghost var read: Store;
      turn, own, read := Attempt(id, others, 3 * merges, met(merges), held, own0, start);
      TurnEnds(merger, mergeOnSubmit, start, first, read, View(), id, others, own, turn, merges, met);
      r := EndingOf(turn, merges);
    }

    /** An attempt: a turn, after what others did. */
    method Attempt(id: Id, others: nat -> seq<Action>, k: nat, met: bool, held: bool, ghost own0: seq<seq<Action>>,
                   ghost start: Store)
      returns (r: TurnResult, ghost own: seq<seq<Action>>, ghost read: Store)
      requires k == |own0| && k % 3 == 0 && Did(merger, start, View(), id, others, own0)
      modifies this
      ensures |own0| < |own| <= |own0| + 3 && Did(merger, start, View(), id, others, own)
      ensures (r == Moved ==> |own| == |own0| + 3) && (r == Skipped ==> |own| == |own0| + 1)
      ensures read == After(merger, old(View()), others(k))
      ensures TurnIs(merger, mergeOnSubmit, start, read, View(), id, others, own, r, met, k == 0)
    {
      DidWait(merger, start, View(), id, others, own0);
      Meanwhile(others(k));
      read := View();
      r, own := Turn(id, others, k + 1, met, held, own0 + [[]], start);
    }

    /** One turn: reads what to merge, adds it and submits it; others act in between. */
    method Turn(id: Id, others: nat -> seq<Action>, k: nat, met: bool, held: bool, ghost own0: seq<seq<Action>>,
                ghost start: Store)
      returns (r: TurnResult, ghost own: seq<seq<Action>>)
      requires k == |own0| && k % 3 == 1 && Did(merger, start, View(), id, others, own0)
      modifies this
      ensures |own0| <= |own| <= |own0| + 2 && Did(merger, start, View(), id, others, own)
      ensures (r == Moved ==> |own| == |own0| + 2) && (r == Skipped ==> |own| == |own0|)
      ensures TurnIs(merger, mergeOnSubmit, start, old(View()), View(), id, others, own, r, met, k == 1)
    {
      own := own0;
      var plan := PlanMerge(id);
      if plan.Skip? { return Skipped, own; }
      if plan.Clash? { return Ended(Conflicting(plan.paths), false), own; }
      r, own := TakeOnto(id, plan, others, k, met, held, own0, start, k == 1);
    }

    /** Adds the merge that was planned, and submits it. */
    method TakeOnto(id: Id, plan: Plan, others: nat -> seq<Action>, k: nat, met: bool, held: bool,
                    ghost own0: seq<seq<Action>>, ghost start: Store, ghost lone: bool)
      returns (r: TurnResult, ghost own: seq<seq<Action>>)
      requires k == |own0| && k % 3 == 1 && Did(merger, start, View(), id, others, own0)
      requires !Skips(mergeOnSubmit, View(), id) && OntoHead(merger, View(), id) == []
      requires plan.Take? && plan.onto == head && plan.edits == EditsOntoHead(merger, View(), id)
      requires plan.number == |changesets[id].patchsets|
      requires lone ==> k == 1
      modifies this
      ensures |own0| < |own| <= |own0| + 2 && Did(merger, start, View(), id, others, own)
      ensures (r == Moved ==> |own| == |own0| + 2) && r != Skipped
      ensures TurnIs(merger, mergeOnSubmit, start, old(View()), View(), id, others, own, r, met, lone)
    {
      ghost var read := View();
      var next: MergeResult;
      next, own := AddStep(id, plan, others, k, own0, start, lone);
      if next == Failed { return Ended(Blocked, false), own; }
      r, own := SubmitMerged(id, next.number, others, k + 1, met, held, own, start, read, lone);
    }

    /** Submits the merge that was added. */
    method SubmitMerged(id: Id, number: nat, others: nat -> seq<Action>, k: nat, met: bool, held: bool,
                        ghost own0: seq<seq<Action>>, ghost start: Store, ghost read: Store, ghost lone: bool)
      returns (r: TurnResult, ghost own: seq<seq<Action>>)
      requires k == |own0| && k % 3 == 2 && Did(merger, start, View(), id, others, own0)
      requires Added(merger, mergeOnSubmit, start, read, View(), id, others, own0, number)
      requires lone && Alone(merger, mergeOnSubmit, read, id, others) ==>
        Ready(merger, View(), id, others(k), number, read.s.queue)
      modifies this
      ensures |own| == |own0| + 1 && Did(merger, start, View(), id, others, own)
      ensures r != Skipped
      ensures TurnIs(merger, mergeOnSubmit, start, read, View(), id, others, own, r, met, lone)
    {
      ghost var added := View();
      ghost var alone := lone && met && Alone(merger, mergeOnSubmit, read, id, others);
      var result: SubmitResult;
      result, own := SubmitStep(id, number, met, held, others, k, own0, start, read.s.queue, alone);
      match result {
        case Accepted =>
          QueuedFrom(merger, mergeOnSubmit, start, read, added, id, others, own0, own, number, queue);
          return Ended(InQueue, true), own;
        case Already => return Ended(WasIn, true), own;
        case Refused => return Ended(RefusedMerge(number), true), own;
        case Stale => return Moved, own;
      }
    }

    /** Adds what was read, after what others did since. */
    method AddStep(id: Id, plan: Plan, others: nat -> seq<Action>, k: nat, ghost own0: seq<seq<Action>>,
                   ghost start: Store, ghost lone: bool)
      returns (r: MergeResult, ghost own: seq<seq<Action>>)
      requires k == |own0| && k % 3 == 1 && Did(merger, start, View(), id, others, own0)
      requires !Skips(mergeOnSubmit, View(), id) && OntoHead(merger, View(), id) == []
      requires plan.Take? && plan.onto == head && plan.edits == EditsOntoHead(merger, View(), id)
      requires plan.number == |changesets[id].patchsets|
      requires lone ==> k == 1
      modifies this
      ensures |own| == |own0| + 1 && Did(merger, start, View(), id, others, own)
      ensures r.Merged? || (r == Failed && AddedNothing(own))
      ensures r.Merged? ==> Added(merger, mergeOnSubmit, start, old(View()), View(), id, others, own, r.number)
      ensures lone && Alone(merger, mergeOnSubmit, old(View()), id, others) ==>
        r.Merged? && Ready(merger, View(), id, others(k + 1), r.number, old(queue))
    {
      ghost var now := View();
      RunGrows(merger, now, others(k), id);
      Meanwhile(others(k));
      ghost var was := View();
      r := AddMerged(id, plan, now.s.changesets[id]);
      ghost var step: seq<Action> := if r == Failed then [] else [Merge(id, plan.onto)];
      AfterNone(merger, was);
      AfterOne(merger, was, Merge(id, plan.onto));
      DidOne(merger, start, now, View(), id, others, own0, step);
      own := own0 + [step];
      assert own[..|own| - 1] == own0;
      if lone && Alone(merger, mergeOnSubmit, now, id, others) {
        AfterNone(merger, now);
        AloneIsReady(merger, mergeOnSubmit, now, View(), id, others);
      }
    }

    /** A submit of the current patchset, after what others did since it was merged. */
    method SubmitStep(id: Id, expected: nat, met: bool, held: bool, others: nat -> seq<Action>, k: nat,
                      ghost own0: seq<seq<Action>>, ghost start: Store, ghost waiting: seq<Queued>, ghost lone: bool)
      returns (r: SubmitResult, ghost own: seq<seq<Action>>)
      requires k == |own0| && k % 3 == 2 && Did(merger, start, View(), id, others, own0)
      requires lone ==> met && Ready(merger, View(), id, others(k), expected, waiting)
      requires id in changesets && |changesets[id].patchsets| == expected > 0
      modifies this
      ensures |own| == |own0| + 1 && own[..|own0|] == own0 && Did(merger, start, View(), id, others, own)
      ensures r == Already ==> id in changesets && changesets[id].status != Open
      ensures r == Stale ==> Acceptable(View().s, id) && IsStale(View(), id)
      ensures r == Refused ==> Refuses(View(), id, expected, met)
      ensures r == Accepted ==> own[|own0|] == [Accept(id)]
      ensures r == Accepted ==> queue != [] && queue[|queue| - 1] == Queued(id, Current(old(changesets)[id]))
      ensures lone ==> r == Accepted && queue == waiting + [Queued(id, Current(old(changesets)[id]))]
    {
      ghost var now := View();
      RunGrows(merger, now, others(k), id);
      Meanwhile(others(k));
      ghost var before := View();
      r := Submit(id, expected, met, held);
      if r == Stale { StaleStays(before, id); }
      own := DidSubmit(merger, start, now, before, View(), id, others, own0);
    }
  }
}
