/**
  What a changeset's status says over whole runs: it is submitted exactly when it has
  landed, and it lands at most once (internal/postgres/changeset_submit.go,
  internal/postgres/changeset_publish.go).  This needs nothing of the runs: it holds
  however the publishers claim, and whatever the admission table says.
 */
module LandsOnce {
  import opened Options
  import opened Patchsets
  import opened Rebase
  import opened Landing
  import opened PathHeads

  predicate HasLanded(log: seq<Landed>, id: Id)
  {
    exists i :: 0 <= i < |log| && log[i].changeset == id
  }

  predicate Waits(queue: seq<Queued>, id: Id)
  {
    exists i :: 0 <= i < |queue| && queue[i].changeset == id
  }

  predicate Distinct(queue: seq<Queued>)
  {
    forall i, j :: 0 <= i < j < |queue| ==> queue[i].changeset != queue[j].changeset
  }

  /** No changeset landed twice. */
  predicate Once(log: seq<Landed>)
  {
    forall i, j :: 0 <= i < j < |log| ==> log[i].changeset != log[j].changeset
  }

  /** A changeset is submitted exactly when it has landed, it landed once, and it waits once,
      pending or abandoned since. */
  ghost predicate Tracked(s: State)
  {
    && Once(s.log) && Distinct(s.queue)
    && (forall id :: HasLanded(s.log, id) ==> id in s.changesets)
    && (forall id :: id in s.changesets ==> (s.changesets[id].status == Submitted <==> HasLanded(s.log, id)))
    && (forall id :: Waits(s.queue, id) ==>
          id in s.changesets && (s.changesets[id].status == Pending || s.changesets[id].status == Abandoned))
    && (forall id :: id in s.changesets && s.changesets[id].status == Pending ==> Waits(s.queue, id))
  }

  lemma DraftTracked(m: Merger, s: State, a: Action)
    requires Tracked(s) && (a.Create? || a.Push? || a.Merge? || a.Abandon?)
    ensures Tracked(Draft(m, s, a))
  {
  }

  lemma EnqueueTracked(s: State, id: Id)
    requires Tracked(s) && Acceptable(s, id)
    ensures Tracked(Enqueue(s, id))
  {
    var r := Enqueue(s, id);
    assert !Waits(s.queue, id);
    assert r.queue[|s.queue|].changeset == id;
    forall k ensures Waits(r.queue, k) <==> Waits(s.queue, k) || k == id {
      if Waits(s.queue, k) {
        var i :| 0 <= i < |s.queue| && s.queue[i].changeset == k;
        assert r.queue[i].changeset == k;
      }
    }
  }

  /** A claim parts the queue's changesets. */
  lemma {:induction false} PartWaits(queue: seq<Queued>, claim: seq<bool>, id: Id)
    requires Distinct(queue)
    ensures Waits(queue, id) <==> Waits(Part(queue, claim, true), id) || Waits(Part(queue, claim, false), id)
    ensures !(Waits(Part(queue, claim, true), id) && Waits(Part(queue, claim, false), id))
    decreases |queue|
  {
    if queue != [] {
      TailWaits(queue, id);
      PartWaits(queue[1..], Later(claim), id);
      PartNext(queue, claim, true);
      PartNext(queue, claim, false);
      var part := Part(queue, claim, Takes(claim));
      TailWaits(part, id);
    }
  }

  lemma TailWaits(queue: seq<Queued>, id: Id)
    requires queue != []
    ensures Waits(queue, id) <==> queue[0].changeset == id || Waits(queue[1..], id)
    ensures Distinct(queue) ==> Distinct(queue[1..]) && !Waits(queue[1..], queue[0].changeset)
  {
    assert forall i :: 0 <= i < |queue[1..]| ==> queue[1..][i] == queue[i + 1];
    if Waits(queue, id) && queue[0].changeset != id {
      var i :| 0 <= i < |queue| && queue[i].changeset == id;
      assert queue[1..][i - 1].changeset == id;
    }
  }

  lemma {:induction false} PartDistinct(queue: seq<Queued>, claim: seq<bool>, taken: bool)
    requires Distinct(queue)
    ensures Distinct(Part(queue, claim, taken))
    decreases |queue|
  {
    if queue != [] {
      TailWaits(queue, queue[0].changeset);
      PartDistinct(queue[1..], Later(claim), taken);
      PartNext(queue, claim, taken);
      PartWaits(queue[1..], Later(claim), queue[0].changeset);
      var part, rest := Part(queue, claim, taken), Part(queue[1..], Later(claim), taken);
      if Takes(claim) == taken {
        forall i, j | 0 <= i < j < |part| ensures part[i].changeset != part[j].changeset {
          assert part[j] == rest[j - 1] && (i > 0 ==> part[i] == rest[i - 1]);
        }
      }
    }
  }

  lemma {:induction false} LandingsOf(t: Tree, queue: seq<Queued>)
    ensures |Landings(t, queue)| == |queue|
    ensures forall i :: 0 <= i < |queue| ==> Landings(t, queue)[i].changeset == queue[i].changeset
    decreases |queue|
  {
    if queue != [] { LandingsOf(LandOne(t, queue[0].patchset), queue[1..]); }
  }

  lemma LogMore(log: seq<Landed>, more: seq<Landed>, queue: seq<Queued>, id: Id)
    requires |more| == |queue| && forall i :: 0 <= i < |queue| ==> more[i].changeset == queue[i].changeset
    ensures HasLanded(log + more, id) <==> HasLanded(log, id) || Waits(queue, id)
  {
    var all := log + more;
    if HasLanded(log, id) {
      var i :| 0 <= i < |log| && log[i].changeset == id;
      assert all[i].changeset == id;
    }
    if Waits(queue, id) {
      var i :| 0 <= i < |queue| && queue[i].changeset == id;
      assert all[|log| + i].changeset == id;
    }
  }

  lemma OnceMore(log: seq<Landed>, more: seq<Landed>, queue: seq<Queued>)
    requires |more| == |queue| && forall i :: 0 <= i < |queue| ==> more[i].changeset == queue[i].changeset
    requires Once(log) && Distinct(queue) && forall id :: Waits(queue, id) ==> !HasLanded(log, id)
    ensures Once(log + more)
  {
    var all, n := log + more, |log|;
    forall i, j | 0 <= i < j < |all| ensures all[i].changeset != all[j].changeset {
      if i < n <= j { assert Waits(queue, queue[j - n].changeset) && HasLanded(log, log[i].changeset); }
    }
  }

  /** What is live in a claim is pending. */
  lemma {:induction false} LivePart(s: State, queue: seq<Queued>, claim: seq<bool>)
    requires forall i :: 0 <= i < |queue| && i < |claim| && claim[i] ==> IsPending(s, queue[i].changeset)
    ensures forall id :: Waits(Part(queue, claim, true), id) ==> IsPending(s, id)
    decreases |queue|
  {
    if queue != [] {
      assert forall i :: 0 <= i < |queue[1..]| ==> queue[1..][i] == queue[i + 1];
      assert forall i :: 0 <= i < |Later(claim)| ==> Later(claim)[i] == claim[i + 1];
      LivePart(s, queue[1..], Later(claim));
      PartNext(queue, claim, true);
      forall id | Waits(Part(queue, claim, true), id) ensures IsPending(s, id) {
        if Takes(claim) { TailWaits(Part(queue, claim, true), id); }
      }
    }
  }

  lemma MarksSubmitted(changesets: map<Id, Changeset>, queue: seq<Queued>, id: Id)
    requires id in changesets
    ensures id in MarkSubmitted(changesets, queue)
    ensures MarkSubmitted(changesets, queue)[id].status ==
      if Waits(queue, id) then Submitted else changesets[id].status
  {
  }

  lemma PublishTracked(s: State, claim: seq<bool>)
    requires Tracked(s)
    ensures Tracked(PublishClaim(s, Live(s, claim)))
  {
    var live := Live(s, claim);
    var taken, left := Part(s.queue, live, true), Part(s.queue, live, false);
    if CanLand(s.head, taken) {
      var more := Landings(s.head, taken);
      LivePart(s, s.queue, live);
      PartDistinct(s.queue, live, true);
      PartDistinct(s.queue, live, false);
      LandingsOf(s.head, taken);
      OnceMore(s.log, more, taken);
      var r := PublishClaim(s, live);
      forall id ensures HasLanded(r.log, id) <==> HasLanded(s.log, id) || Waits(taken, id) {
        LogMore(s.log, more, taken, id);
      }
      forall id ensures Waits(s.queue, id) <==> Waits(taken, id) || Waits(left, id)
        ensures !(Waits(taken, id) && Waits(left, id))
      {
        PartWaits(s.queue, live, id);
      }
      forall id | id in s.changesets
        ensures id in r.changesets
        ensures r.changesets[id].status == if Waits(taken, id) then Submitted else s.changesets[id].status
      {
        MarksSubmitted(s.changesets, taken, id);
      }
    }
  }

  lemma StepTracked(m: Merger, s: State, a: Action)
    requires Tracked(s)
    ensures Tracked(Step(m, s, a))
  {
    match a
    case Accept(id) => if Acceptable(s, id) { EnqueueTracked(s, id); }
    case Publish(claim) => PublishTracked(s, claim);
    case _ => DraftTracked(m, s, a);
  }

  lemma StoreStepTracked(m: Merger, st: Store, a: Action)
    requires Tracked(st.s)
    ensures Tracked(StoreStep(m, st, a).s)
  {
    match a
    case Accept(id) => if Acceptable(st.s, id) { EnqueueTracked(st.s, id); }
    case Publish(claim) => PublishTracked(st.s, claim);
    case _ => DraftTracked(m, st.s, a);
  }

  lemma {:induction false} RunTracked(m: Merger, s: State, actions: seq<Action>)
    requires Tracked(s)
    ensures Tracked(Run(m, s, actions))
    decreases |actions|
  {
    if actions != [] {
      StepTracked(m, s, actions[0]);
      RunTracked(m, Step(m, s, actions[0]), actions[1..]);
    }
  }

  lemma {:induction false} StoreRunTracked(m: Merger, st: Store, actions: seq<Action>)
    requires Tracked(st.s)
    ensures Tracked(StoreRun(m, st, actions).s)
    decreases |actions|
  {
    if actions != [] {
      StoreStepTracked(m, st, actions[0]);
      StoreRunTracked(m, StoreStep(m, st, actions[0]), actions[1..]);
    }
  }

  /** From the empty store on, whatever happens, by the rule of the state machine or by the
      table: a changeset is submitted exactly when it has landed, and it landed once. */
  lemma SubmittedIsLandedOnce(m: Merger, root: Tree, actions: seq<Action>)
    ensures Tracked(Run(m, Empty(root), actions))
    ensures Tracked(StoreRun(m, Store(Empty(root), map[]), actions).s)
  {
    RunTracked(m, Empty(root), actions);
    StoreRunTracked(m, Store(Empty(root), map[]), actions);
  }

  // ---------- Changes do land ----------

  lemma RunFour(m: Merger, s: State, a: Action, b: Action, c: Action, d: Action)
    ensures Run(m, s, [a, b, c, d]) == Step(m, Step(m, Step(m, Step(m, s, a), b), c), d)
  {
    var s2 := Step(m, Step(m, s, a), b);
    assert [a, b, c, d][1..] == [b, c, d] && [b, c, d][1..] == [c, d];
    assert Run(m, Step(m, s, a), [b, c, d]) == Run(m, s2, [c, d]);
    RunTwo(m, s2, c, d);
  }

  lemma PushMakes(m: Merger, s: State, id: Id, edits: seq<Edit>)
    requires id !in s.changesets && ApplyEdits(s.head, edits).Some?
    ensures
      var ps := Patchset(s.head, edits, ApplyEdits(s.head, edits).value, [], Authored);
      Step(m, Step(m, s, Create(id, None)), Push(id, s.head, edits, [], false)) ==
        s.(changesets := s.changesets[id := Changeset(Open, None, [ps])])
  {
    var s1 := Step(m, s, Create(id, None));
    var ps := Patchset(s.head, edits, ApplyEdits(s.head, edits).value, [], Authored);
    assert s1.changesets[id] == Changeset(Open, None, []) && AddPatchset(s1.changesets[id], ps).patchsets == [ps];
    assert s.changesets[id := s1.changesets[id]][id := Changeset(Open, None, [ps])] ==
      s.changesets[id := Changeset(Open, None, [ps])];
  }

  lemma AcceptQueues(m: Merger, s: State, id: Id, ps: Patchset)
    requires s.queue == [] && id in s.changesets && s.changesets[id] == Changeset(Open, None, [ps])
    requires ps.base == s.head && ps.conflicts == []
    ensures Step(m, s, Accept(id)) ==
      s.(queue := [Queued(id, ps)], changesets := s.changesets[id := Changeset(Pending, None, [ps])])
  {
    assert LandAll(s.head, s.queue) == s.head;
  }

  lemma PublishLands(m: Merger, s: State, q: Queued)
    requires s.queue == [q] && IsPending(s, q.changeset) && ApplyEdits(s.head, q.patchset.edits).Some?
    ensures var r := Step(m, s, Publish([true]));
      && r.head == ApplyEdits(s.head, q.patchset.edits).value && r.queue == []
      && r.log == s.log + [Landed(q.changeset, q.patchset, s.head, r.head)]
      && r.changesets == MarkSubmitted(s.changesets, [q])
  {
    assert Live(s, [true]) == [true];
    OnlyRow(q);
    PublishesOne(s, [true], q);
  }

  /** A new changeset whose edits apply to the head, pushed on it, accepted and published,
      lands its edits, and nothing else happens. */
  lemma ChangeLands(m: Merger, s: State, id: Id, edits: seq<Edit>)
    requires s.queue == [] && id !in s.changesets && ApplyEdits(s.head, edits).Some?
    ensures
      var r := Run(m, s, [Create(id, None), Push(id, s.head, edits, [], false), Accept(id), Publish([true])]);
      && r.head == ApplyEdits(s.head, edits).value && r.queue == []
      && id in r.changesets && r.changesets[id].status == Submitted
      && |r.log| == |s.log| + 1 && r.log[|s.log|].changeset == id && r.log[|s.log|].after == r.head
      && (forall k :: k in s.changesets ==> k in r.changesets && r.changesets[k] == s.changesets[k])
  {
    var push := Push(id, s.head, edits, [], false);
    RunFour(m, s, Create(id, None), push, Accept(id), Publish([true]));
    var ps := Patchset(s.head, edits, ApplyEdits(s.head, edits).value, [], Authored);
    PushMakes(m, s, id, edits);
    var s2 := s.(changesets := s.changesets[id := Changeset(Open, None, [ps])]);
    AcceptQueues(m, s2, id, ps);
    var s3 := s2.(queue := [Queued(id, ps)], changesets := s2.changesets[id := Changeset(Pending, None, [ps])]);
    PublishLands(m, s3, Queued(id, ps));
    assert s3.queue[0].changeset == id;
  }
}
