/**
  Landing by path, as a state machine: patchsets are pushed, submits are accepted
  into a queue, stale changesets are merged onto a head, and publishers land claimed
  parts of the queue, in any order among them (service/submit_merge.go,
  internal/postgres/changeset_submit.go, internal/postgres/changeset_publish.go).

  Accepting follows the rule the submit path states: a submit is refused when a path
  of the patchset's read set moved on since its base, counting what is accepted and
  not published yet.
 */
module Landing {
  import opened Options
  import opened Patchsets
  import opened Rebase

  type Id = string

  /** `Stacked`: an author's patchset on top of another patchset. */
  datatype Kind = Authored | Stacked | SubmitMerge

  /** `base` and `result` stand for the base and result tree ids. */
  datatype Patchset = Patchset(base: Tree, edits: seq<Edit>, result: Tree, conflicts: seq<Conflict>, kind: Kind)

  datatype Status = Open | Pending | Submitted | Abandoned

  /** A changeset's current patchset is its last. */
  datatype Changeset = Changeset(status: Status, parent: Option<Id>, patchsets: seq<Patchset>)

  datatype Queued = Queued(changeset: Id, patchset: Patchset)

  /** One landing on the target ref: the tree just before and just after. */
  datatype Landed = Landed(changeset: Id, patchset: Patchset, before: Tree, after: Tree)

  datatype State = State(head: Tree, changesets: map<Id, Changeset>, queue: seq<Queued>, log: seq<Landed>)

  // ---------- Freshness ----------

  /** Every recorded path base still holds in t. */
  ghost predicate Fresh(ps: Patchset, t: Tree)
  {
    AgreeOn(ps.base, t, ReadSet(ps.edits))
  }

  /** The preview is what the edits make of the base. */
  predicate Previewed(ps: Patchset)
  {
    ApplyEdits(ps.base, ps.edits) == Some(ps.result)
  }

  /** A fresh patchset lands exactly its preview on its write set, and nothing else. */
  lemma FreshLands(ps: Patchset, t: Tree)
    requires Previewed(ps) && Fresh(ps, t)
    ensures ApplyEdits(t, ps.edits).Some?
    ensures AgreeOn(ps.result, ApplyEdits(t, ps.edits).value, WriteSet(ps.edits))
    ensures forall p :: p !in WriteSet(ps.edits) ==> Get(ApplyEdits(t, ps.edits).value, p) == Get(t, p)
  {
    EffectIsFootprint(ps.base, t, ps.edits);
    forall p | p !in WriteSet(ps.edits) ensures Get(ApplyEdits(t, ps.edits).value, p) == Get(t, p) {
      ApplyFrame(t, ps.edits, p);
    }
  }

  /** t with the queued patchsets landed in order; a patchset that cannot land is
      skipped. */
  function LandAll(t: Tree, queue: seq<Queued>): (r: Tree)
    decreases |queue|
  {
    if queue == [] then t else LandAll(LandOne(t, queue[0].patchset), queue[1..])
  }

  function LandOne(t: Tree, ps: Patchset): (r: Tree)
  {
    match ApplyEdits(t, ps.edits) case Some(t') => t' case None => t
  }

  /** What has been accepted: the head with the whole queue landed. */
  function Accepted(s: State): Tree
  {
    LandAll(s.head, s.queue)
  }

  /** Each queued patchset is fresh where it will land. */
  ghost predicate FreshQueue(t: Tree, queue: seq<Queued>)
    decreases |queue|
  {
    queue == [] || (var ps := queue[0].patchset;
      Previewed(ps) && ps.conflicts == [] && Fresh(ps, t) && FreshQueue(LandOne(t, ps), queue[1..]))
  }

  lemma {:induction false} QueueSnoc(t: Tree, queue: seq<Queued>, q: Queued)
    ensures LandAll(t, queue + [q]) == LandOne(LandAll(t, queue), q.patchset)
    ensures FreshQueue(t, queue) && Previewed(q.patchset) && q.patchset.conflicts == []
            && Fresh(q.patchset, LandAll(t, queue)) ==>
      FreshQueue(t, queue + [q])
    decreases |queue|
  {
    if queue == [] {
      assert (queue + [q])[1..] == [];
    } else {
      assert (queue + [q])[1..] == queue[1..] + [q];
      QueueSnoc(LandOne(t, queue[0].patchset), queue[1..], q);
    }
  }

  // ---------- Steps ----------

  /** Adding a patchset makes it current, unless it has no conflicts and base and
      result of the current one: then the current one stays. */
  function AddPatchset(cs: Changeset, ps: Patchset): (r: Changeset)
  {
    if ps.conflicts == [] && cs.patchsets != [] && Current(cs).base == ps.base
       && Current(cs).result == ps.result then cs
    else cs.(patchsets := cs.patchsets + [ps])
  }

  function Current(cs: Changeset): Patchset
    requires cs.patchsets != []
  {
    cs.patchsets[|cs.patchsets| - 1]
  }

  datatype Action =
    | Create(id: Id, parent: Option<Id>)
    /** An author's patchset, on any base tree they had. */
    | Push(id: Id, base: Tree, edits: seq<Edit>, conflicts: seq<Conflict>, stacked: bool)
    /** A merge onto a head, which may have moved on since it was read. */
    | Merge(id: Id, onto: Tree)
    | Accept(id: Id)
    | Abandon(id: Id)
    /** A publisher lands the rows it claimed: row i of the queue where claim[i]. */
    | Publish(claim: seq<bool>)

  /** A changeset on its own, whose current patchset starts from a commit and has no
      conflicts, may be merged. */
  predicate MayMerge(cs: Changeset)
  {
    cs.patchsets != [] && cs.parent.None? && Current(cs).kind != Stacked && Current(cs).conflicts == []
  }

  /** Lines 36 to 83 of service/submit_merge.go: the patchset that takes the current
      one onto the head, or nothing. */
  function MergedOnto(m: Merger, head: Tree, cs: Changeset): (r: Option<Patchset>)
  {
    if !MayMerge(cs) then None
    else
      var ps := Current(cs);
      var edits := Rebased(m, Bases(ps.base, ps.edits), head, ps.edits);
      if Reported(m, Bases(ps.base, ps.edits), head, ps.edits) != [] then None
      else match ApplyEdits(head, edits)
        case None => None
        case Some(result) => Some(Patchset(head, edits, result, [], SubmitMerge))
  }

  predicate Acceptable(s: State, id: Id)
  {
    id in s.changesets && s.changesets[id].status == Open && s.changesets[id].patchsets != []
    && Current(s.changesets[id]).conflicts == []
  }

  function Enqueue(s: State, id: Id): State
    requires Acceptable(s, id)
  {
    var cs := s.changesets[id];
    s.(queue := s.queue + [Queued(id, Current(cs))], changesets := s.changesets[id := cs.(status := Pending)])
  }

  /** The log of landing the queue on t. */
  function Landings(t: Tree, queue: seq<Queued>): seq<Landed>
    decreases |queue|
  {
    if queue == [] then []
    else var t' := LandOne(t, queue[0].patchset);
      [Landed(queue[0].changeset, queue[0].patchset, t, t')] + Landings(t', queue[1..])
  }

  function MarkSubmitted(changesets: map<Id, Changeset>, queue: seq<Queued>): map<Id, Changeset>
  {
    map id | id in changesets ::
      if exists i :: 0 <= i < |queue| && queue[i].changeset == id
      then changesets[id].(status := Submitted) else changesets[id]
  }

  // A claim says of each row of the queue whether it is taken; what it leaves open is not.

  predicate Takes(claim: seq<bool>)
  {
    claim != [] && claim[0]
  }

  function Later(claim: seq<bool>): seq<bool>
  {
    if claim == [] then [] else claim[1..]
  }

  /** The rows of the queue that are taken, or those that are not, in order. */
  function Part(queue: seq<Queued>, claim: seq<bool>, taken: bool): (r: seq<Queued>)
    decreases |queue|
  {
    if queue == [] then []
    else (if Takes(claim) == taken then [queue[0]] else []) + Part(queue[1..], Later(claim), taken)
  }

  /** Every patchset, in turn, can be applied. */
  predicate CanLand(t: Tree, queue: seq<Queued>)
    decreases |queue|
  {
    queue == [] || (ApplyEdits(t, queue[0].patchset.edits).Some? && CanLand(LandOne(t, queue[0].patchset), queue[1..]))
  }

  /** A publish lands all it claimed, or, when that cannot be applied, nothing.  A
      publisher that finds the head moved since its claim does nothing and lets go. */
  function PublishClaim(s: State, claim: seq<bool>): State
  {
    var taken := Part(s.queue, claim, true);
    if !CanLand(s.head, taken) then s
    else State(LandAll(s.head, taken), MarkSubmitted(s.changesets, taken), Part(s.queue, claim, false),
               s.log + Landings(s.head, taken))
  }

  /** What of a claim is published: the rows of abandoned changesets are let go. */
  function Live(s: State, claim: seq<bool>): (r: seq<bool>)
  {
    seq(|claim|, i requires 0 <= i < |claim| => claim[i] && i < |s.queue| && IsPending(s, s.queue[i].changeset))
  }

  predicate IsPending(s: State, id: Id)
  {
    id in s.changesets && s.changesets[id].status == Pending
  }

  /** A changeset that takes no more patchsets. */
  predicate Closed(cs: Changeset)
  {
    cs.status == Submitted || cs.status == Abandoned
  }

  /** A step that only changes a changeset; one that is refused changes nothing. */
  function Draft(m: Merger, s: State, a: Action): State
    requires a.Create? || a.Push? || a.Merge? || a.Abandon?
  {
    match a
    case Create(id, parent) =>
      if id in s.changesets then s else s.(changesets := s.changesets[id := Changeset(Open, parent, [])])
    case Push(id, base, edits, conflicts, stacked) =>
      if id !in s.changesets || Closed(s.changesets[id]) || ApplyEdits(base, edits).None? then s
      else
        var kind := if stacked then Stacked else Authored;
        var ps := Patchset(base, edits, ApplyEdits(base, edits).value, conflicts, kind);
        s.(changesets := s.changesets[id := AddPatchset(s.changesets[id], ps)])
    case Merge(id, onto) =>
      if id !in s.changesets || Closed(s.changesets[id]) || MergedOnto(m, onto, s.changesets[id]).None? then s
      else
        var merged := AddPatchset(s.changesets[id], MergedOnto(m, onto, s.changesets[id]).value);
        s.(changesets := s.changesets[id := merged])
    case Abandon(id) =>
      if id !in s.changesets || s.changesets[id].status == Submitted then s
      else s.(changesets := s.changesets[id := s.changesets[id].(status := Abandoned)])
  }

  /** One step; an action that is refused changes nothing. */
  ghost function Step(m: Merger, s: State, a: Action): State
  {
    match a
    case Accept(id) =>
      if Acceptable(s, id) && Fresh(Current(s.changesets[id]), Accepted(s)) then Enqueue(s, id) else s
    case Publish(claim) => PublishClaim(s, Live(s, claim))
    case Create(_, _) => Draft(m, s, a)
    case Push(_, _, _, _, _) => Draft(m, s, a)
    case Merge(_, _) => Draft(m, s, a)
    case Abandon(_) => Draft(m, s, a)
  }

  ghost function Run(m: Merger, s: State, actions: seq<Action>): State
    decreases |actions|
  {
    if actions == [] then s else Run(m, Step(m, s, actions[0]), actions[1..])
  }

  // ---------- Safety over whole runs ----------

  /** The landing lost nothing: just before it, every path of its read set held the
      recorded base; it wrote its preview on its write set and left the rest. */
  ghost predicate LostNothing(l: Landed)
  {
    && l.patchset.conflicts == []
    && AgreeOn(l.patchset.base, l.before, ReadSet(l.patchset.edits))
    && AgreeOn(l.patchset.result, l.after, WriteSet(l.patchset.edits))
    && (forall p :: p !in WriteSet(l.patchset.edits) ==> Get(l.after, p) == Get(l.before, p))
  }

  ghost predicate NoneLost(log: seq<Landed>)
  {
    forall i :: 0 <= i < |log| ==> LostNothing(log[i])
  }

  lemma NoneLostConcat(x: seq<Landed>, y: seq<Landed>)
    requires NoneLost(x) && NoneLost(y)
    ensures NoneLost(x + y)
  {
    forall i | 0 <= i < |x + y|
      ensures LostNothing((x + y)[i])
    {
      assert (x + y)[i] == if i < |x| then x[i] else y[i - |x|];
    }
  }

  /** The landings form one line of history from `root` to the head. */
  ghost predicate Linear(root: Tree, log: seq<Landed>, head: Tree)
  {
    && (log == [] ==> root == head)
    && (log != [] ==> log[0].before == root && log[|log| - 1].after == head)
    && forall i :: 0 < i < |log| ==> log[i].before == log[i - 1].after
  }

  /** Patchset i of a changeset is the clean rebase of patchset i - 1 onto its base. */
  ghost predicate IsMergeOf(m: Merger, prev: Patchset, ps: Patchset)
  {
    && Reported(m, Bases(prev.base, prev.edits), ps.base, prev.edits) == []
    && ps.edits == Rebased(m, Bases(prev.base, prev.edits), ps.base, prev.edits)
    && ps.conflicts == [] && prev.conflicts == []
  }

  ghost predicate GoodChangeset(m: Merger, cs: Changeset)
  {
    && (forall i :: 0 <= i < |cs.patchsets| ==> Previewed(cs.patchsets[i]))
    && (forall i :: 0 <= i < |cs.patchsets| && cs.patchsets[i].kind == SubmitMerge ==>
          i > 0 && IsMergeOf(m, cs.patchsets[i - 1], cs.patchsets[i]))
  }

  ghost predicate Safe(m: Merger, root: Tree, s: State)
  {
    && (forall id :: id in s.changesets ==> GoodChangeset(m, s.changesets[id]))
    && FreshQueue(s.head, s.queue)
    && NoneLost(s.log)
    && Linear(root, s.log, s.head)
  }

  lemma GoodAdd(m: Merger, cs: Changeset, ps: Patchset)
    requires GoodChangeset(m, cs) && Previewed(ps)
    requires ps.kind == SubmitMerge ==> cs.patchsets != [] && IsMergeOf(m, Current(cs), ps)
    ensures GoodChangeset(m, AddPatchset(cs, ps))
  {
    var r := AddPatchset(cs, ps);
    var n := |cs.patchsets|;
    if r != cs {
      forall i | 0 <= i < |r.patchsets|
        ensures Previewed(r.patchsets[i])
        ensures r.patchsets[i].kind == SubmitMerge ==> i > 0 && IsMergeOf(m, r.patchsets[i - 1], r.patchsets[i])
      {
        if i == n {
          assert r.patchsets[i] == ps && (n > 0 ==> r.patchsets[n - 1] == Current(cs));
        } else {
          assert r.patchsets[i] == cs.patchsets[i] && (i > 0 ==> r.patchsets[i - 1] == cs.patchsets[i - 1]);
        }
      }
    }
  }

  lemma {:induction false} LandingsLoseNothing(t: Tree, queue: seq<Queued>)
    requires FreshQueue(t, queue)
    ensures NoneLost(Landings(t, queue))
    decreases |queue|
  {
    if queue != [] {
      var ps := queue[0].patchset;
      FreshLands(ps, t);
      var landed := Landed(queue[0].changeset, ps, t, LandOne(t, ps));
      assert LostNothing(landed);
      LandingsLoseNothing(LandOne(t, ps), queue[1..]);
      NoneLostConcat([landed], Landings(LandOne(t, ps), queue[1..]));
    }
  }

  lemma LinearConcat(root: Tree, x: seq<Landed>, middle: Tree, y: seq<Landed>, head: Tree)
    requires Linear(root, x, middle) && Linear(middle, y, head)
    ensures Linear(root, x + y, head)
  {
    var log := x + y;
    forall i | 0 < i < |log|
      ensures log[i].before == log[i - 1].after
    {
      if i > |x| {
        assert log[i] == y[i - |x|] && log[i - 1] == y[i - |x| - 1];
      } else if i == |x| {
        assert log[i] == y[0];
      }
    }
  }

  lemma {:induction false} LandingsLinear(t: Tree, queue: seq<Queued>)
    ensures Linear(t, Landings(t, queue), LandAll(t, queue))
    decreases |queue|
  {
    if queue != [] {
      var t' := LandOne(t, queue[0].patchset);
      LandingsLinear(t', queue[1..]);
      var landed := Landed(queue[0].changeset, queue[0].patchset, t, t');
      LinearConcat(t, [landed], t', Landings(t', queue[1..]), LandAll(t', queue[1..]));
    }
  }

  lemma MarkedGood(m: Merger, changesets: map<Id, Changeset>, queue: seq<Queued>)
    requires forall id :: id in changesets ==> GoodChangeset(m, changesets[id])
    ensures forall id :: id in MarkSubmitted(changesets, queue) ==>
      GoodChangeset(m, MarkSubmitted(changesets, queue)[id])
  {
    var marked := MarkSubmitted(changesets, queue);
    forall id | id in marked
      ensures GoodChangeset(m, marked[id])
    {
      assert GoodChangeset(m, changesets[id]) && marked[id].patchsets == changesets[id].patchsets;
    }
  }

  lemma LogSafe(root: Tree, log: seq<Landed>, t: Tree, queue: seq<Queued>)
    requires NoneLost(log) && Linear(root, log, t) && FreshQueue(t, queue)
    ensures NoneLost(log + Landings(t, queue)) && Linear(root, log + Landings(t, queue), LandAll(t, queue))
  {
    LandingsLoseNothing(t, queue);
    NoneLostConcat(log, Landings(t, queue));
    LandingsLinear(t, queue);
    LinearConcat(root, log, t, Landings(t, queue), LandAll(t, queue));
  }

  // ---------- Exactly which claims are safe ----------

  /** Each patchset of the part finds, on every path it reads, what it finds in queue
      order: t is the tree with all rows before it landed, u the tree it lands on. */
  ghost predicate Fits(t: Tree, u: Tree, queue: seq<Queued>, claim: seq<bool>, taken: bool)
    decreases |queue|
  {
    queue == [] || (
      var ps := queue[0].patchset;
      if Takes(claim) == taken then
        AgreeOn(t, u, ReadSet(ps.edits)) && Fits(LandOne(t, ps), LandOne(u, ps), queue[1..], Later(claim), taken)
      else Fits(LandOne(t, ps), u, queue[1..], Later(claim), taken))
  }

  /** The taken rows fit on the head, and the others on what the taken ones leave. */
  ghost predicate Orderly(s: State, claim: seq<bool>)
  {
    && Fits(s.head, s.head, s.queue, claim, true)
    && Fits(s.head, LandAll(s.head, Part(s.queue, claim, true)), s.queue, claim, false)
  }

  lemma PartNext(queue: seq<Queued>, claim: seq<bool>, taken: bool)
    requires queue != []
    ensures Takes(claim) == taken ==>
      var part := Part(queue, claim, taken);
      part != [] && part[0] == queue[0] && part[1..] == Part(queue[1..], Later(claim), taken)
    ensures Takes(claim) != taken ==> Part(queue, claim, taken) == Part(queue[1..], Later(claim), taken)
  {
  }

  /** A part of a fresh queue is fresh where it lands exactly when it fits there. */
  lemma {:induction false} FitsIffFresh(t: Tree, u: Tree, queue: seq<Queued>, claim: seq<bool>, taken: bool)
    requires FreshQueue(t, queue)
    ensures FreshQueue(u, Part(queue, claim, taken)) <==> Fits(t, u, queue, claim, taken)
    decreases |queue|
  {
    if queue != [] {
      var ps := queue[0].patchset;
      PartNext(queue, claim, taken);
      if Takes(claim) == taken {
        assert Fresh(ps, u) <==> AgreeOn(t, u, ReadSet(ps.edits));
        FitsIffFresh(LandOne(t, ps), LandOne(u, ps), queue[1..], Later(claim), taken);
      } else {
        FitsIffFresh(LandOne(t, ps), u, queue[1..], Later(claim), taken);
      }
    }
  }

  ghost predicate AllPreviewed(queue: seq<Queued>)
  {
    forall i :: 0 <= i < |queue| ==> Previewed(queue[i].patchset) && queue[i].patchset.conflicts == []
  }

  lemma {:induction false} FreshIsPreviewed(t: Tree, queue: seq<Queued>)
    requires FreshQueue(t, queue)
    ensures AllPreviewed(queue)
    decreases |queue|
  {
    if queue != [] {
      FreshIsPreviewed(LandOne(t, queue[0].patchset), queue[1..]);
      assert forall i :: 0 < i < |queue| ==> queue[i] == queue[1..][i - 1];
    }
  }

  lemma {:induction false} PartPreviewed(queue: seq<Queued>, claim: seq<bool>, taken: bool)
    requires AllPreviewed(queue)
    ensures AllPreviewed(Part(queue, claim, taken))
    decreases |queue|
  {
    if queue != [] {
      assert forall i :: 0 <= i < |queue[1..]| ==> queue[1..][i] == queue[i + 1];
      PartPreviewed(queue[1..], Later(claim), taken);
    }
  }

  /** Landings of previewed patchsets lose nothing exactly when each is fresh. */
  lemma {:induction false} NoneLostIsFresh(t: Tree, queue: seq<Queued>)
    requires AllPreviewed(queue) && NoneLost(Landings(t, queue))
    ensures FreshQueue(t, queue)
    decreases |queue|
  {
    if queue != [] {
      var log, t' := Landings(t, queue), LandOne(t, queue[0].patchset);
      assert LostNothing(log[0]);
      assert forall i :: 0 <= i < |log[1..]| ==> log[1..][i] == log[i + 1];
      assert log[1..] == Landings(t', queue[1..]);
      assert forall i :: 0 <= i < |queue[1..]| ==> queue[1..][i] == queue[i + 1];
      NoneLostIsFresh(t', queue[1..]);
    }
  }

  lemma {:induction false} FreshCanLand(t: Tree, queue: seq<Queued>)
    requires FreshQueue(t, queue)
    ensures CanLand(t, queue)
    decreases |queue|
  {
    if queue != [] {
      FreshLands(queue[0].patchset, t);
      FreshCanLand(LandOne(t, queue[0].patchset), queue[1..]);
    }
  }

  lemma NoneLostTail(x: seq<Landed>, y: seq<Landed>)
    requires NoneLost(x + y)
    ensures NoneLost(y)
  {
    assert forall i :: 0 <= i < |y| ==> y[i] == (x + y)[|x| + i];
  }

  /** A publish is safe if and only if what it claimed is orderly, or cannot be applied
      (and then it lands nothing). */
  lemma {:induction false} PublishSafeIff(m: Merger, root: Tree, s: State, claim: seq<bool>)
    requires Safe(m, root, s)
    ensures Safe(m, root, PublishClaim(s, claim)) <==>
      (CanLand(s.head, Part(s.queue, claim, true)) ==> Orderly(s, claim))
  {
    var taken, left := Part(s.queue, claim, true), Part(s.queue, claim, false);
    if CanLand(s.head, taken) {
      var t := LandAll(s.head, taken);
      FitsIffFresh(s.head, s.head, s.queue, claim, true);
      FitsIffFresh(s.head, t, s.queue, claim, false);
      MarkedGood(m, s.changesets, taken);
      if Orderly(s, claim) {
        LogSafe(root, s.log, s.head, taken);
      } else if Safe(m, root, PublishClaim(s, claim)) {
        NoneLostTail(s.log, Landings(s.head, taken));
        FreshIsPreviewed(s.head, s.queue);
        PartPreviewed(s.queue, claim, true);
        NoneLostIsFresh(s.head, taken);
        assert false;
      }
    }
  }

  // ---------- Claims that are orderly whatever the trees ----------

  /** A path no queued patchset writes is accepted as the head has it. */
  lemma {:induction false} UntouchedByQueue(t: Tree, queue: seq<Queued>, p: Path)
    requires forall i :: 0 <= i < |queue| ==> p !in WriteSet(queue[i].patchset.edits)
    ensures Get(LandAll(t, queue), p) == Get(t, p)
    decreases |queue|
  {
    if queue != [] {
      var ps := queue[0].patchset;
      assert queue[0].patchset == ps;
      if ApplyEdits(t, ps.edits).Some? { ApplyFrame(t, ps.edits, p); }
      assert forall i :: 0 <= i < |queue[1..]| ==> queue[1..][i] == queue[i + 1];
      UntouchedByQueue(LandOne(t, ps), queue[1..], p);
    }
  }

  /** The patchset is independent of every one of the rows. */
  ghost predicate IndependentOf(ps: Patchset, rows: seq<Queued>)
  {
    forall i :: 0 <= i < |rows| ==> Independent(ps.edits, rows[i].patchset.edits)
  }

  lemma LandOneCommutes(t: Tree, x: Patchset, y: Patchset)
    requires Independent(x.edits, y.edits)
    ensures LandOne(LandOne(t, x), y) == LandOne(LandOne(t, y), x)
  {
    if ApplyEdits(t, x.edits).Some? { LandsTheSame(t, x.edits, y.edits); }
    if ApplyEdits(t, y.edits).Some? { LandsTheSame(t, y.edits, x.edits); }
    if ApplyEdits(t, x.edits).Some? && ApplyEdits(t, y.edits).Some? { IndependentCommute(t, x.edits, y.edits); }
  }

  lemma {:induction false} LandsPast(t: Tree, ps: Patchset, rows: seq<Queued>)
    requires IndependentOf(ps, rows)
    ensures LandOne(LandAll(t, rows), ps) == LandAll(LandOne(t, ps), rows)
    ensures AgreeOn(t, LandAll(t, rows), ReadSet(ps.edits))
    decreases |rows|
  {
    if rows != [] {
      assert Independent(ps.edits, rows[0].patchset.edits);
      assert forall i :: 0 <= i < |rows[1..]| ==> rows[1..][i] == rows[i + 1];
      LandOneCommutes(t, ps, rows[0].patchset);
      LandsPast(LandOne(t, rows[0].patchset), ps, rows[1..]);
    }
    forall p | p in ReadSet(ps.edits) ensures Get(t, p) == Get(LandAll(t, rows), p) {
      assert forall i :: 0 <= i < |rows| ==> Independent(ps.edits, rows[i].patchset.edits);
      UntouchedByQueue(t, rows, p);
    }
  }

  /** Every row that is left is independent of each taken row behind it. */
  ghost predicate Apart(queue: seq<Queued>, claim: seq<bool>)
    decreases |queue|
  {
    queue == [] || (
      && (!Takes(claim) ==> IndependentOf(queue[0].patchset, Part(queue[1..], Later(claim), true)))
      && Apart(queue[1..], Later(claim)))
  }

  lemma {:induction false} ApartFitsTaken(t: Tree, u: Tree, skipped: seq<Queued>, queue: seq<Queued>, claim: seq<bool>)
    requires t == LandAll(u, skipped) && Apart(queue, claim)
    requires forall i :: 0 <= i < |skipped| ==> IndependentOf(skipped[i].patchset, Part(queue, claim, true))
    ensures Fits(t, u, queue, claim, true)
    decreases |queue|
  {
    if queue != [] {
      var ps := queue[0].patchset;
      var rest := Part(queue[1..], Later(claim), true);
      PartNext(queue, claim, true);
      if Takes(claim) {
        forall i | 0 <= i < |skipped|
          ensures Independent(ps.edits, skipped[i].patchset.edits) && IndependentOf(skipped[i].patchset, rest)
        {
          IndependentNext(skipped[i].patchset, Part(queue, claim, true));
        }
        LandsPast(u, ps, skipped);
        ApartFitsTaken(LandOne(t, ps), LandOne(u, ps), skipped, queue[1..], Later(claim));
      } else {
        QueueSnoc(u, skipped, queue[0]);
        ApartFitsTaken(LandOne(t, ps), u, skipped + [queue[0]], queue[1..], Later(claim));
      }
    }
  }

  lemma IndependentNext(ps: Patchset, rows: seq<Queued>)
    requires rows != [] && IndependentOf(ps, rows)
    ensures Independent(ps.edits, rows[0].patchset.edits) && Independent(rows[0].patchset.edits, ps.edits)
    ensures IndependentOf(ps, rows[1..])
  {
    assert forall i :: 0 <= i < |rows[1..]| ==> rows[1..][i] == rows[i + 1];
  }

  lemma {:induction false} ApartFitsLeft(t: Tree, v: Tree, queue: seq<Queued>, claim: seq<bool>)
    requires v == LandAll(t, Part(queue, claim, true)) && Apart(queue, claim)
    ensures Fits(t, v, queue, claim, false)
    decreases |queue|
  {
    if queue != [] {
      var ps := queue[0].patchset;
      PartNext(queue, claim, true);
      if Takes(claim) {
        ApartFitsLeft(LandOne(t, ps), v, queue[1..], Later(claim));
      } else {
        LandsPast(t, ps, Part(queue[1..], Later(claim), true));
        ApartFitsLeft(LandOne(t, ps), LandOne(v, ps), queue[1..], Later(claim));
      }
    }
  }

  /** In particular when no taken patchset reads or writes what an earlier one that is
      left writes, nor the reverse; so a claim of the first rows always is orderly. */
  lemma ApartIsOrderly(s: State, claim: seq<bool>)
    requires Apart(s.queue, claim)
    ensures Orderly(s, claim)
  {
    ApartFitsTaken(s.head, s.head, [], s.queue, claim);
    ApartFitsLeft(s.head, LandAll(s.head, Part(s.queue, claim, true)), s.queue, claim);
  }

  lemma {:induction false} FirstRowsAreApart(queue: seq<Queued>, claim: seq<bool>)
    requires forall i, j :: 0 <= i < j < |claim| && claim[j] ==> claim[i]
    ensures Apart(queue, claim)
    decreases |queue|
  {
    if queue != [] {
      var later := Later(claim);
      assert forall j :: 0 <= j < |later| ==> later[j] == claim[j + 1];
      FirstRowsAreApart(queue[1..], later);
      if !Takes(claim) { NothingTaken(queue[1..], later); }
    }
  }

  lemma {:induction false} NothingTaken(queue: seq<Queued>, claim: seq<bool>)
    requires forall j :: 0 <= j < |claim| ==> !claim[j]
    ensures Part(queue, claim, true) == []
    decreases |queue|
  {
    if queue != [] { NothingTaken(queue[1..], Later(claim)); }
  }

  // ---------- The order of safe landings does not matter ----------

  function One(b: bool): int
  {
    if b then 1 else 0
  }

  /** How often the patchsets bring the file f to the path p, less how often they take it
      away. */
  function BroughtTo(queue: seq<Queued>, p: Path, f: Option<File>): int
    decreases |queue|
  {
    if queue == [] then 0
    else One(Get(queue[0].patchset.result, p) == f) - One(Get(queue[0].patchset.base, p) == f)
         + BroughtTo(queue[1..], p, f)
  }

  lemma {:induction false} PartsBring(queue: seq<Queued>, claim: seq<bool>, p: Path, f: Option<File>)
    ensures BroughtTo(queue, p, f) ==
      BroughtTo(Part(queue, claim, true), p, f) + BroughtTo(Part(queue, claim, false), p, f)
    decreases |queue|
  {
    if queue != [] {
      PartNext(queue, claim, true);
      PartNext(queue, claim, false);
      PartsBring(queue[1..], Later(claim), p, f);
    }
  }

  /** On a fresh queue what was brought is what is there now and was not before. */
  lemma {:induction false} BroughtIsThere(t: Tree, queue: seq<Queued>, p: Path, f: Option<File>)
    requires FreshQueue(t, queue)
    ensures BroughtTo(queue, p, f) == One(Get(LandAll(t, queue), p) == f) - One(Get(t, p) == f)
    decreases |queue|
  {
    if queue != [] {
      var ps := queue[0].patchset;
      var t' := LandOne(t, ps);
      BroughtIsThere(t', queue[1..], p, f);
      FreshLands(ps, t);
      if p in WriteSet(ps.edits) {
        assert p in ReadSet(ps.edits);
        assert Get(t', p) == Get(ps.result, p) && Get(t, p) == Get(ps.base, p);
      } else {
        ApplyFrame(ps.base, ps.edits, p);
      }
    }
  }

  /** If both parts land fresh, the accepted tree is the one of the queue's own order. */
  lemma SameAccepted(t: Tree, queue: seq<Queued>, claim: seq<bool>)
    requires FreshQueue(t, queue) && FreshQueue(t, Part(queue, claim, true))
    requires FreshQueue(LandAll(t, Part(queue, claim, true)), Part(queue, claim, false))
    ensures LandAll(LandAll(t, Part(queue, claim, true)), Part(queue, claim, false)) == LandAll(t, queue)
  {
    var taken, left := Part(queue, claim, true), Part(queue, claim, false);
    var u := LandAll(t, taken);
    var v := LandAll(u, left);
    forall p ensures Get(v, p) == Get(LandAll(t, queue), p) {
      var f := Get(v, p);
      BroughtIsThere(t, queue, p, f);
      BroughtIsThere(t, taken, p, f);
      BroughtIsThere(u, left, p, f);
      PartsBring(queue, claim, p, f);
    }
    TreeExtensional(v, LandAll(t, queue));
  }

  /** A safe publish does not change what has been accepted. */
  lemma PublishKeepsAccepted(m: Merger, root: Tree, s: State, claim: seq<bool>)
    requires Safe(m, root, s) && Orderly(s, claim)
    ensures CanLand(s.head, Part(s.queue, claim, true)) && Accepted(PublishClaim(s, claim)) == Accepted(s)
  {
    var taken := Part(s.queue, claim, true);
    FitsIffFresh(s.head, s.head, s.queue, claim, true);
    FitsIffFresh(s.head, LandAll(s.head, taken), s.queue, claim, false);
    FreshCanLand(s.head, taken);
    SameAccepted(s.head, s.queue, claim);
  }

  // ---------- Whole runs ----------

  lemma {:induction false} AcceptSafe(m: Merger, root: Tree, s: State, id: Id)
    requires Safe(m, root, s) && Acceptable(s, id) && Fresh(Current(s.changesets[id]), Accepted(s))
    ensures Safe(m, root, Enqueue(s, id))
  {
    QueueSnoc(s.head, s.queue, Queued(id, Current(s.changesets[id])));
  }

  /** A publish that lands something lands it orderly. */
  ghost predicate GoodAction(s: State, a: Action)
  {
    a.Publish? && CanLand(s.head, Part(s.queue, Live(s, a.claim), true)) ==> Orderly(s, Live(s, a.claim))
  }

  lemma {:induction false} StepSafe(m: Merger, root: Tree, s: State, a: Action)
    requires Safe(m, root, s)
    ensures Safe(m, root, Step(m, s, a)) <==> GoodAction(s, a)
  {
    match a {
      case Create(id, parent) =>
      case Push(id, base, edits, conflicts, stacked) =>
        if id in s.changesets && !Closed(s.changesets[id]) && ApplyEdits(base, edits).Some? {
          var kind := if stacked then Stacked else Authored;
          GoodAdd(m, s.changesets[id], Patchset(base, edits, ApplyEdits(base, edits).value, conflicts, kind));
        }
      case Merge(id, onto) =>
        if id in s.changesets && !Closed(s.changesets[id]) && MergedOnto(m, onto, s.changesets[id]).Some? {
          GoodAdd(m, s.changesets[id], MergedOnto(m, onto, s.changesets[id]).value);
        }
      case Abandon(id) =>
        if id in s.changesets {
          assert GoodChangeset(m, s.changesets[id]) && GoodChangeset(m, s.changesets[id].(status := Abandoned));
        }
      case Accept(id) =>
        if Acceptable(s, id) && Fresh(Current(s.changesets[id]), Accepted(s)) { AcceptSafe(m, root, s, id); }
      case Publish(claim) => PublishSafeIff(m, root, s, Live(s, claim));
    }
  }

  /** Every publish of the run is good where it happens. */
  ghost predicate GoodRun(m: Merger, s: State, actions: seq<Action>)
    decreases |actions|
  {
    actions == [] || (GoodAction(s, actions[0]) && GoodRun(m, Step(m, s, actions[0]), actions[1..]))
  }

  /** Safe now, and after every step of the run. */
  ghost predicate SafeThroughout(m: Merger, root: Tree, s: State, actions: seq<Action>)
    decreases |actions|
  {
    Safe(m, root, s) && (actions == [] || SafeThroughout(m, root, Step(m, s, actions[0]), actions[1..]))
  }

  /** A run of pushes, merges, accepted submits and publishes is safe throughout if and
      only if each of its publishes is orderly where it happens. */
  lemma {:induction false} NoLostUpdate(m: Merger, root: Tree, s: State, actions: seq<Action>)
    requires Safe(m, root, s)
    ensures SafeThroughout(m, root, s, actions) <==> GoodRun(m, s, actions)
    ensures GoodRun(m, s, actions) ==> Safe(m, root, Run(m, s, actions))
    decreases |actions|
  {
    if actions != [] {
      StepSafe(m, root, s, actions[0]);
      if GoodAction(s, actions[0]) { NoLostUpdate(m, root, Step(m, s, actions[0]), actions[1..]); }
    }
  }

  /** A store on its first tree, with nothing in it. */
  function Empty(root: Tree): State
  {
    State(root, map[], [], [])
  }

  /** From the empty store on: every landing of a good run lost nothing, and the landings
      lead from the first tree to the head. */
  lemma NothingIsEverLost(m: Merger, root: Tree, actions: seq<Action>)
    requires GoodRun(m, Empty(root), actions)
    ensures var s := Run(m, Empty(root), actions);
      NoneLost(s.log) && Linear(root, s.log, s.head) && FreshQueue(s.head, s.queue)
  {
    NoLostUpdate(m, root, Empty(root), actions);
  }

  // ---------- A later row published first ----------

  /** Puts the file `after` where `before` was. */
  function Replacing(p: Path, before: File, after: File): Patchset
  {
    Patchset(map[p := before], [Upsert(p, after)], map[p := after], [], Authored)
  }

  /** Two accepted changes of one file, the second on top of the first. */
  function TwoAccepted(p: Path, f0: File, f1: File, f2: File): State
  {
    State(map[p := f0],
          map["one" := Changeset(Pending, None, [Replacing(p, f0, f1)]),
              "two" := Changeset(Pending, None, [Replacing(p, f1, f2)])],
          [Queued("one", Replacing(p, f0, f1)), Queued("two", Replacing(p, f1, f2))], [])
  }

  lemma Replaces(t: Tree, p: Path, before: File, after: File)
    requires t.Keys == {p}
    ensures ApplyEdits(t, Replacing(p, before, after).edits) == Some(map[p := after])
    ensures LandOne(t, Replacing(p, before, after)) == map[p := after]
    ensures ReadSet(Replacing(p, before, after).edits) == {p}
  {
    var edits := Replacing(p, before, after).edits;
    assert edits[1..] == [] && t[p := after] == map[p := after];
    assert ApplyEdits(t, edits) == ApplyEdits(t[p := after], []);
    assert ReadSet(edits) == Reads(edits[0]) + ReadSet([]);
  }

  lemma LandSingle(t: Tree, q: Queued)
    requires ApplyEdits(t, q.patchset.edits).Some?
    ensures CanLand(t, [q]) && LandAll(t, [q]) == LandOne(t, q.patchset)
    ensures Landings(t, [q]) == [Landed(q.changeset, q.patchset, t, LandOne(t, q.patchset))]
  {
    var t' := LandOne(t, q.patchset);
    assert [q][1..] == [] && LandAll(t', []) == t' && Landings(t', []) == [];
  }

  lemma TwoAcceptedIsSafe(m: Merger, p: Path, f0: File, f1: File, f2: File)
    ensures Safe(m, map[p := f0], TwoAccepted(p, f0, f1, f2)) && Accepted(TwoAccepted(p, f0, f1, f2)) == map[p := f2]
  {
    var s := TwoAccepted(p, f0, f1, f2);
    Replaces(s.head, p, f0, f1);
    Replaces(map[p := f1], p, f1, f2);
    var two := s.queue[1];
    assert s.queue[1..] == [two] && [two][1..] == [];
    LandSingle(map[p := f1], two);
    assert FreshQueue(map[p := f1], [two]);
  }

  /** A claim of the second of two rows, and of a single row. */
  lemma SecondOfTwo(one: Queued, two: Queued)
    ensures Part([one, two], [false, true], true) == [two] && Part([one, two], [false, true], false) == [one]
  {
    var queue := [one, two];
    assert queue[1..] == [two] && Later([false, true]) == [true];
    OnlyRow(two);
    PartNext(queue, [false, true], true);
    PartNext(queue, [false, true], false);
  }

  lemma OnlyRow(q: Queued)
    ensures Part([q], [true], true) == [q] && Part([q], [true], false) == []
  {
    assert [q][1..] == [] && Part([], [], true) == [] && Part([], [], false) == [];
  }

  /** A claim of just one row that can be applied lands that row. */
  lemma PublishesOne(s: State, claim: seq<bool>, q: Queued)
    requires Part(s.queue, claim, true) == [q] && ApplyEdits(s.head, q.patchset.edits).Some?
    ensures CanLand(s.head, [q])
    ensures var s' := PublishClaim(s, claim);
      && s'.head == LandOne(s.head, q.patchset) && s'.queue == Part(s.queue, claim, false)
      && s'.log == s.log + [Landed(q.changeset, q.patchset, s.head, s'.head)]
  {
    LandSingle(s.head, q);
  }

  lemma RunTwo(m: Merger, s: State, a: Action, b: Action)
    ensures Run(m, s, [a, b]) == Step(m, Step(m, s, a), b)
  {
    var s1 := Step(m, s, a);
    assert [a, b][1..] == [b] && [b][1..] == [] && Run(m, Step(m, s1, b), []) == Step(m, s1, b);
    assert Run(m, s1, [b]) == Run(m, Step(m, s1, b), []);
  }

  /** Row two alone lands on the first tree. */
  lemma TwoLands(m: Merger, s: State, p: Path, f0: File, f1: File, f2: File)
    requires s.head == map[p := f0] && s.log == [] && s.queue == TwoAccepted(p, f0, f1, f2).queue
    ensures var s1 := PublishClaim(s, [false, true]);
      && CanLand(s.head, Part(s.queue, [false, true], true))
      && s1.head == map[p := f2] && s1.queue == [s.queue[0]]
      && s1.log == [Landed(s.queue[1].changeset, s.queue[1].patchset, s.head, s1.head)]
  {
    Replaces(s.head, p, f1, f2);
    SecondOfTwo(s.queue[0], s.queue[1]);
    PublishesOne(s, [false, true], s.queue[1]);
  }

  /** Then row one lands over it. */
  lemma OneLands(m: Merger, s: State, p: Path, f0: File, f1: File)
    requires s.head.Keys == {p} && s.queue == [Queued("one", Replacing(p, f0, f1))]
    ensures var s1 := PublishClaim(s, [true]);
      && s1.head == map[p := f1] && s1.queue == []
      && s1.log == s.log + [Landed(s.queue[0].changeset, s.queue[0].patchset, s.head, s1.head)]
  {
    Replaces(s.head, p, f0, f1);
    OnlyRow(s.queue[0]);
    PublishesOne(s, [true], s.queue[0]);
  }

  lemma BothPending(p: Path, f0: File, f1: File, f2: File)
    ensures var s := TwoAccepted(p, f0, f1, f2);
      Live(s, [false, true]) == [false, true] && Live(PublishClaim(s, [false, true]), [true]) == [true]
  {
    var s := TwoAccepted(p, f0, f1, f2);
    Replaces(s.head, p, f1, f2);
    SecondOfTwo(s.queue[0], s.queue[1]);
    PublishesOne(s, [false, true], s.queue[1]);
    var s1 := PublishClaim(s, [false, true]);
    assert s1.changesets == MarkSubmitted(s.changesets, [s.queue[1]]) && "one" in s1.changesets;
    assert s1.changesets["one"] == s.changesets["one"];
  }

  /** Two publishers, the first of which holds row one: row two lands first, on a file
      that is not its base, then row one over it.  The head ends at the first change, and
      the second, though accepted and landed, is gone. */
  lemma LaterRowFirst(m: Merger, p: Path, f0: File, f1: File, f2: File)
    requires f0 != f1 && f1 != f2
    ensures var s := TwoAccepted(p, f0, f1, f2);
      && Safe(m, map[p := f0], s) && Accepted(s) == map[p := f2]
      && !Orderly(s, [false, true])
      && var r := Run(m, s, [Publish([false, true]), Publish([true])]);
      && r.head == map[p := f1] && r.queue == [] && |r.log| == 2
      && r.log[0].patchset == s.queue[1].patchset && !LostNothing(r.log[0])
  {
    var s := TwoAccepted(p, f0, f1, f2);
    TwoAcceptedIsSafe(m, p, f0, f1, f2);
    BothPending(p, f0, f1, f2);
    SwappedRun(m, s, p, f0, f1, f2);
    SwappedLoses(m, s, p, f0, f1, f2);
  }

  lemma SwappedRun(m: Merger, s: State, p: Path, f0: File, f1: File, f2: File)
    requires s.head == map[p := f0] && s.log == [] && s.queue == TwoAccepted(p, f0, f1, f2).queue
    requires Live(s, [false, true]) == [false, true] && Live(PublishClaim(s, [false, true]), [true]) == [true]
    ensures var r := Run(m, s, [Publish([false, true]), Publish([true])]);
      r.head == map[p := f1] && r.queue == [] && |r.log| == 2
      && r.log[0] == Landed(s.queue[1].changeset, s.queue[1].patchset, s.head, map[p := f2])
  {
    TwoLands(m, s, p, f0, f1, f2);
    OneLands(m, PublishClaim(s, [false, true]), p, f0, f1);
    RunTwo(m, s, Publish([false, true]), Publish([true]));
  }

  lemma SwappedLoses(m: Merger, s: State, p: Path, f0: File, f1: File, f2: File)
    requires Safe(m, map[p := f0], s) && f0 != f1
    requires s.head == map[p := f0] && s.log == [] && s.queue == TwoAccepted(p, f0, f1, f2).queue
    ensures !Orderly(s, [false, true])
    ensures !LostNothing(Landed(s.queue[1].changeset, s.queue[1].patchset, s.head, map[p := f2]))
  {
    TwoLands(m, s, p, f0, f1, f2);
    ReplacingReads(p, f1, f2);
    NotItsBase(PublishClaim(s, [false, true]).log, p);
    PublishSafeIff(m, map[p := f0], s, [false, true]);
  }

  lemma ReplacingReads(p: Path, before: File, after: File)
    ensures p in ReadSet(Replacing(p, before, after).edits)
  {
    Replaces(map[p := before], p, before, after);
  }

  lemma NotItsBase(log: seq<Landed>, p: Path)
    requires log != [] && p in ReadSet(log[0].patchset.edits) && Get(log[0].patchset.base, p) != Get(log[0].before, p)
    ensures !LostNothing(log[0]) && !NoneLost(log)
  {
  }

  // ---------- Abandoned while accepted ----------

  lemma {:induction false} LeftIsKept(queue: seq<Queued>, claim: seq<bool>, i: nat)
    requires i < |queue| && (i < |claim| ==> !claim[i])
    ensures queue[i] in Part(queue, claim, false)
    decreases |queue|
  {
    PartNext(queue, claim, false);
    if i > 0 {
      assert queue[i] == queue[1..][i - 1];
      LeftIsKept(queue[1..], Later(claim), i - 1);
    }
  }

  ghost predicate HeldBack(s: State, id: Id, q: Queued)
  {
    id in s.changesets && s.changesets[id].status == Abandoned && q.changeset == id && q in s.queue
  }

  lemma StepHoldsBack(m: Merger, s: State, a: Action, id: Id, q: Queued)
    requires HeldBack(s, id, q)
    ensures HeldBack(Step(m, s, a), id, q)
  {
    if a.Publish? { PublishHoldsBack(s, a.claim, id, q); }
  }

  lemma PublishHoldsBack(s: State, claim: seq<bool>, id: Id, q: Queued)
    requires HeldBack(s, id, q)
    ensures HeldBack(PublishClaim(s, Live(s, claim)), id, q)
  {
    var live := Live(s, claim);
    var i :| 0 <= i < |s.queue| && s.queue[i] == q;
    LeftIsKept(s.queue, live, i);
    TakenArePending(s.queue, live, id);
  }

  /** No row that is taken belongs to a changeset that is not pending. */
  lemma {:induction false} TakenArePending(queue: seq<Queued>, claim: seq<bool>, id: Id)
    requires forall i :: 0 <= i < |claim| && claim[i] ==> i < |queue| && queue[i].changeset != id
    ensures forall i :: 0 <= i < |Part(queue, claim, true)| ==> Part(queue, claim, true)[i].changeset != id
    decreases |queue|
  {
    if queue != [] {
      PartNext(queue, claim, true);
      var later := Later(claim);
      forall i | 0 <= i < |later| && later[i] ensures i < |queue[1..]| && queue[1..][i].changeset != id {
        assert later[i] == claim[i + 1];
      }
      TakenArePending(queue[1..], later, id);
    }
  }

  /** A changeset that is abandoned while it waits in the queue stays there: over any run its
      row is never taken, and keeps counting as accepted. */
  lemma {:induction false} AbandonedStays(m: Merger, s: State, actions: seq<Action>, id: Id, q: Queued)
    requires HeldBack(s, id, q)
    ensures HeldBack(Run(m, s, actions), id, q)
    decreases |actions|
  {
    if actions != [] {
      StepHoldsBack(m, s, actions[0], id, q);
      AbandonedStays(m, Step(m, s, actions[0]), actions[1..], id, q);
    }
  }

  /** Of two accepted changes of one file the first is abandoned: the second, made on top of
      it, lands on a file that is not its base. */
  lemma AbandonedUnderneath(m: Merger, p: Path, f0: File, f1: File, f2: File)
    requires f0 != f1
    ensures var s := TwoAccepted(p, f0, f1, f2);
      var r := Run(m, s, [Abandon("one"), Publish([true, true])]);
      && r.head == map[p := f2] && r.queue == [s.queue[0]] && |r.log| == 1
      && r.log[0].patchset == s.queue[1].patchset && !LostNothing(r.log[0])
  {
    var s := TwoAccepted(p, f0, f1, f2);
    var s1 := Step(m, s, Abandon("one"));
    assert s1.queue == s.queue && s1.head == s.head && s1.log == [];
    assert s1.changesets["one"].status == Abandoned && s1.changesets["two"] == s.changesets["two"];
    assert Live(s1, [true, true]) == [false, true];
    TwoLands(m, s1, p, f0, f1, f2);
    RunTwo(m, s, Abandon("one"), Publish([true, true]));
    ReplacingReads(p, f1, f2);
    NotItsBase(PublishClaim(s1, [false, true]).log, p);
  }

  // ---------- What a merge on submit lands ----------

  /** A merged patchset that lands combines the author's change with exactly what was
      on the head just before: untouched files keep the author's version, files both
      sides changed hold a clean merge, and the rest of the tree stays. */
  lemma MergeLandsBoth(m: Merger, prev: Patchset, ps: Patchset, l: Landed)
    requires IsMergeOf(m, prev, ps) && Previewed(ps) && l.patchset == ps && LostNothing(l)
    requires Plain(prev.edits) && "" !in ReadSet(prev.edits)
    ensures forall p :: p !in WriteSet(ps.edits) ==> Get(l.after, p) == Get(l.before, p)
    ensures forall i, p :: 0 <= i < |prev.edits| && p in Writes(prev.edits[i]) && p in WriteSet(ps.edits) ==>
      Honest(m, prev.base, l.before, prev.edits[i], [], p, Get(l.after, p))
  {
    RebaseNeverSilent(m, prev.base, ps.base, prev.edits, ps.result);
    forall i, p | 0 <= i < |prev.edits| && p in Writes(prev.edits[i]) && p in WriteSet(ps.edits)
      ensures Honest(m, prev.base, l.before, prev.edits[i], [], p, Get(l.after, p))
    {
      var e := prev.edits[i];
      assert Honest(m, prev.base, ps.base, e, [], p, Get(ps.result, p));
      KeptReads(m, Bases(prev.base, prev.edits), ps.base, prev.edits, i, p);
      assert AgreeOn(ps.base, l.before, Reads(e));
      assert e.path in Reads(e) && Get(ps.base, e.path) == Get(l.before, e.path);
      assert forall q :: q in Reads(e) ==> Get(ps.base, q) == Get(l.before, q);
    }
  }

  /** An edit whose path a rebase still writes is kept with its whole read set. */
  lemma {:induction false} KeptReads(m: Merger, bases: map<Path, Option<File>>, onto: Tree, edits: seq<Edit>, i: nat,
                                     p: Path)
    requires Plain(edits) && i < |edits| && p in Writes(edits[i]) && p in WriteSet(Rebased(m, bases, onto, edits))
    ensures Reads(edits[i]) <= ReadSet(Rebased(m, bases, onto, edits))
    decreases |edits|
  {
    var one, rest := RebaseOne(m, bases, onto, edits[0]).0, Rebased(m, bases, onto, edits[1..]);
    FootprintConcat(one, rest);
    if i == 0 {
      NotWrittenLater(m, bases, onto, edits, p);
      assert one[0] in one && Reads(one[0]) == Reads(edits[0]);
    } else {
      assert Writes(edits[0]) !! Reads(edits[i]);
      assert one == [] || one == [one[0]];
      assert WriteSet(one) <= Writes(edits[0]);
      KeptReads(m, bases, onto, edits[1..], i - 1, p);
    }
  }

  lemma {:induction false} NotWrittenLater(m: Merger, bases: map<Path, Option<File>>, onto: Tree, edits: seq<Edit>,
                                           p: Path)
    requires Plain(edits) && edits != [] && p in Writes(edits[0])
    ensures p !in WriteSet(Rebased(m, bases, onto, edits[1..]))
  {
    RebaseWrites(m, bases, onto, edits[1..]);
    forall j | 0 <= j < |edits[1..]| ensures p !in Writes(edits[1..][j]) { assert edits[1..][j] == edits[j + 1]; }
    WriteSetIs(edits[1..], p);
  }
}
