/**
  Moving the changesets of a stack onto their parents (service/changeset_stack.go), over
  the rows of changesets and patchsets (internal/postgres/changeset_patchset.go).
 */
module Restack {
  import opened Options
  import opened Patchsets
  import opened Rebase
  import opened StackSelect

  datatype RowStatus = Open | Submitted | Abandoned
  datatype RowKind = Authored | SubmitMerge | Conflicted

  /** A row of a patchset: the tree it starts from, the parent's patchset that tree is the
      result of, if any, its edits and its result. */
  datatype PatchsetRow =
    PatchsetRow(base: Tree, on: Option<nat>, edits: seq<Edit>, result: Tree, conflicts: seq<Conflict>, kind: RowKind)

  datatype ChangesetRow = ChangesetRow(status: RowStatus, parent: Option<Id>, current: Option<nat>)

  datatype World = World(changesets: map<Id, ChangesetRow>, patchsets: map<nat, PatchsetRow>, next: nat)

  /** `refuses`: what the validator says of edits on a base, and whether its error may become
      a conflict.  `together`: a changeset and its parent are in one stack, on one target and
      slice. */
  datatype Env = Env(merger: Merger, refuses: (Tree, seq<Edit>) -> Option<bool>, together: (Id, Id) -> bool)

  datatype Base = OnCommit(tree: Tree) | OnPatchset(id: nat)

  datatype Update = Update(base: Base, edits: seq<Edit>, conflicts: seq<Conflict>, kind: RowKind)

  // ---------- Rows ----------

  ghost predicate GoodRow(w: World, ps: PatchsetRow)
  {
    && (ps.on.Some? ==> ps.on.value in w.patchsets && w.patchsets[ps.on.value].result == ps.base)
    && ApplyEdits(ps.base, ps.edits) == Some(ps.result)
  }

  /** Every patchset holds what its edits make of its base, every base is the result of the
      patchset it names, and current patchsets exist. */
  ghost predicate Good(w: World)
  {
    && (forall id :: id in w.patchsets ==> id < w.next && GoodRow(w, w.patchsets[id]))
    && (forall c :: c in w.changesets && w.changesets[c].current.Some? ==> w.changesets[c].current.value in w.patchsets)
  }

  predicate HasCurrent(w: World, id: Id)
  {
    id in w.changesets && w.changesets[id].current.Some? && w.changesets[id].current.value in w.patchsets
  }

  function CurrentRow(w: World, id: Id): PatchsetRow
    requires HasCurrent(w, id)
  {
    w.patchsets[w.changesets[id].current.value]
  }

  // ---------- One update ----------

  /** `patchsetBaseSource`: the tree of a base; an error says whether it may become a
      conflict. */
  function BaseSource(env: Env, w: World, id: Id, base: Base): (r: Result<(Option<nat>, Tree), bool>)
    requires id in w.changesets
    ensures r.Ok? && base.OnPatchset? ==>
      base.id in w.patchsets && r.value == (Some(base.id), w.patchsets[base.id].result)
    ensures r.Ok? && base.OnCommit? ==> r.value == (None, base.tree)
  {
    match base
    case OnCommit(tree) => Ok((None, tree))
    case OnPatchset(p) =>
      if w.changesets[id].parent.None? then Err(false)
      else
        var parent := w.changesets[id].parent.value;
        if !HasCurrent(w, parent) || !env.together(id, parent) || w.changesets[parent].current != Some(p) then Err(true)
        else Ok((Some(p), CurrentRow(w, parent).result))
  }

  /** The store keeps the current patchset instead of a new one without conflicts that has
      its base and result. */
  predicate IsRepeat(w: World, id: Id, base: Tree, result: Tree, conflicts: seq<Conflict>)
  {
    conflicts == [] && HasCurrent(w, id) && CurrentRow(w, id).base == base && CurrentRow(w, id).result == result
  }

  /** `UpdateChangeset`, down to `AddPatchset`. */
  function Updated(env: Env, w: World, id: Id, u: Update): (r: Result<World, bool>)
    requires id in w.changesets
  {
    match BaseSource(env, w, id, u.base)
    case Err(e) => Err(e)
    case Ok((on, base)) =>
      var refused := env.refuses(base, u.edits);
      if refused.Some? then Err(refused.value)
      else if w.changesets[id].status != Open then Err(true)
      else
        match ApplyEdits(base, u.edits)
        case None => Err(true)
        case Some(result) =>
          if IsRepeat(w, id, base, result, u.conflicts) then Ok(w)
          else Ok(w.(patchsets := w.patchsets[w.next := PatchsetRow(base, on, u.edits, result, u.conflicts, u.kind)],
                     changesets := w.changesets[id := w.changesets[id].(current := Some(w.next))], next := w.next + 1))
  }

  // ---------- Conflicts ----------

  predicate Names(conflicts: seq<Conflict>, p: Path)
  {
    exists i :: 0 <= i < |conflicts| && conflicts[i].path == p
  }

  /** The conflicts a patchset still has that the rebase did not find again. */
  function Unresolved(found: seq<Conflict>, before: seq<Conflict>): (r: seq<Conflict>)
  {
    if before == [] then []
    else (if Names(found, before[0].path) then [] else [before[0]]) + Unresolved(found, before[1..])
  }

  lemma NamesConcat(a: seq<Conflict>, b: seq<Conflict>, p: Path)
    ensures Names(a + b, p) <==> Names(a, p) || Names(b, p)
  {
    if Names(a, p) {
      var i :| 0 <= i < |a| && a[i].path == p;
      assert (a + b)[i].path == p;
    } else if Names(b, p) {
      var i :| 0 <= i < |b| && b[i].path == p;
      assert (a + b)[|a| + i].path == p;
    }
  }

  lemma {:induction false} UnresolvedNames(found: seq<Conflict>, before: seq<Conflict>, p: Path)
    ensures Names(Unresolved(found, before), p) <==> Names(before, p) && !Names(found, p)
    decreases |before|
  {
    if before != [] {
      var first := if Names(found, before[0].path) then [] else [before[0]];
      UnresolvedNames(found, before[1..], p);
      NamesConcat(first, Unresolved(found, before[1..]), p);
      assert before == [before[0]] + before[1..];
      NamesConcat([before[0]], before[1..], p);
      assert Names([before[0]], p) <==> before[0].path == p by {
        assert [before[0]][0].path == before[0].path;
      }
      assert Names(first, p) <==> before[0].path == p && !Names(found, p) by {
        assert first != [] ==> first[0].path == before[0].path;
      }
    }
  }

  /** The conflicts of a restacked patchset name the paths the rebase found and those the
      patchset had, and no others. */
  lemma CarriedNames(found: seq<Conflict>, before: seq<Conflict>, p: Path)
    ensures Names(found + Unresolved(found, before), p) <==> Names(found, p) || Names(before, p)
  {
    UnresolvedNames(found, before, p);
    NamesConcat(found, Unresolved(found, before), p);
  }

  /** Lines 299 to 307. */
  method Carry(found: seq<Conflict>, before: seq<Conflict>) returns (conflicts: seq<Conflict>)
    ensures conflicts == found + Unresolved(found, before)
  {
    var seen := set i | 0 <= i < |found| :: found[i].path;
    conflicts := found;
    for i := 0 to |before|
      invariant conflicts + Unresolved(found, before[i..]) == found + Unresolved(found, before)
    {
      assert before[i..][1..] == before[i + 1..];
      if before[i].path !in seen {
        conflicts := conflicts + [before[i]];
      }
    }
  }

  /** The paths an edit names: the one it makes, then the one it moves from. */
  function NamedOne(e: Edit): seq<Path>
  {
    match e case Rename(from, p, _) => [p, from] case Copy(from, p) => [p, from] case _ => [e.path]
  }

  function NamedBy(edits: seq<Edit>): seq<Path>
  {
    if edits == [] then [] else NamedOne(edits[0]) + NamedBy(edits[1..])
  }

  /** `restackConflictsFromEdits`: one conflict for each path. */
  function Replays(paths: seq<Path>): (r: seq<Conflict>)
    decreases |paths|
  {
    if paths == [] then []
    else
      var rest, p := Replays(paths[..|paths| - 1]), paths[|paths| - 1];
      if p == "" || Names(rest, p) then rest else rest + [Conflict(p, Replay)]
  }

  lemma {:induction false} ReplaysName(paths: seq<Path>, p: Path)
    ensures Names(Replays(paths), p) <==> p in paths && p != ""
    decreases |paths|
  {
    if paths != [] {
      var rest, q := paths[..|paths| - 1], paths[|paths| - 1];
      assert paths == rest + [q];
      ReplaysName(rest, p);
      ReplaysName(rest, q);
      if q != "" && !Names(Replays(rest), q) {
        NamesConcat(Replays(rest), [Conflict(q, Replay)], p);
        assert Names([Conflict(q, Replay)], p) <==> p == q by {
          assert [Conflict(q, Replay)][0].path == q;
        }
      }
    }
  }

  // ---------- Restacking ----------

  /** `rebasedUpdate`. */
  function Rebasing(env: Env, current: PatchsetRow, base: Base, onto: Tree): Update
  {
    var bases := Bases(current.base, current.edits);
    var found := Reported(env.merger, bases, onto, current.edits);
    var conflicts := found + Unresolved(found, current.conflicts);
    Update(base, Rebased(env.merger, bases, onto, current.edits), conflicts,
           if conflicts == [] then current.kind else Conflicted)
  }

  /** The update of last resort: no edits, and a conflict on every path the edits named. */
  function LastResort(u: Update): Update
  {
    var replays := Replays(NamedBy(u.edits));
    Update(u.base, [], if replays == [] then [Conflict("/", Replay)] else replays, Conflicted)
  }

  /** `restackUpdateOrConflict`. */
  function UpdateOrConflict(env: Env, w: World, id: Id, u: Update): (r: Option<World>)
    requires id in w.changesets
  {
    match Updated(env, w, id, u)
    case Ok(w') => Some(w')
    case Err(mayConflict) =>
      if !mayConflict then None
      else match Updated(env, w, id, LastResort(u)) case Ok(w') => Some(w') case Err(_) => None
  }

  /** One turn of the loop of `Restack`, lines 203 to 269; `target` is the tree of the target
      commit, if one is given. */
  function RestackEntry(env: Env, w: World, e: Entry, target: Option<Tree>): (r: Option<World>)
  {
    if e.id !in w.changesets then None
    else if w.changesets[e.id].status == Submitted || !HasCurrent(w, e.id) then Some(w)
    else if e.parent.None? then
      if target.None? then Some(w)
      else UpdateOrConflict(env, w, e.id, Rebasing(env, CurrentRow(w, e.id), OnCommit(target.value), target.value))
    else if !HasCurrent(w, e.parent.value) then None
    else
      var p := w.changesets[e.parent.value].current.value;
      if CurrentRow(w, e.id).on == Some(p) && !e.needsRestack then Some(w)
      else UpdateOrConflict(env, w, e.id, Rebasing(env, CurrentRow(w, e.id), OnPatchset(p), w.patchsets[p].result))
  }

  /** The whole loop: the state it ends in and whether it ran through. */
  function RestackAll(env: Env, w: World, entries: seq<Entry>, target: Option<Tree>): (r: (World, bool))
    decreases |entries|
  {
    if entries == [] then (w, true)
    else match RestackEntry(env, w, entries[0], target)
      case None => (w, false)
      case Some(w') => RestackAll(env, w', entries[1..], target)
  }

  /** The turn moves the changeset: it is not submitted and has a patchset, and either it
      has no parent and there is a target, or its parent has a patchset it is not on, or it
      is marked for restacking. */
  predicate Acts(w: World, e: Entry, target: Option<Tree>)
  {
    && e.id in w.changesets && w.changesets[e.id].status != Submitted && HasCurrent(w, e.id)
    && (e.parent.None? ==> target.Some?)
    && (e.parent.Some? ==> HasCurrent(w, e.parent.value)
                           && (CurrentRow(w, e.id).on != w.changesets[e.parent.value].current || e.needsRestack))
  }

  /** The changesets whose turns moved them, in order. */
  function Refreshed(env: Env, w: World, entries: seq<Entry>, target: Option<Tree>): (ids: seq<Id>)
    decreases |entries|
  {
    if entries == [] then []
    else match RestackEntry(env, w, entries[0], target)
      case None => []
      case Some(w') => (if Acts(w, entries[0], target) then [entries[0].id] else [])
                       + Refreshed(env, w', entries[1..], target)
  }

  // ---------- What one entry's turn does ----------

  /** The changeset was left alone or got a new current patchset; nothing else changed. */
  ghost predicate Moves(w: World, w': World, id: Id)
  {
    && w'.changesets.Keys == w.changesets.Keys
    && (forall c :: c in w.changesets && c != id ==> w'.changesets[c] == w.changesets[c])
    && (forall p :: p in w.patchsets ==> p in w'.patchsets && w'.patchsets[p] == w.patchsets[p])
    && (id in w.changesets ==>
          w'.changesets[id].status == w.changesets[id].status && w'.changesets[id].parent == w.changesets[id].parent)
    && (HasCurrent(w, id) ==> HasCurrent(w', id))
  }

  lemma UpdatedMoves(env: Env, w: World, id: Id, u: Update)
    requires Good(w) && id in w.changesets && Updated(env, w, id, u).Ok?
    ensures Good(Updated(env, w, id, u).value) && Moves(w, Updated(env, w, id, u).value, id)
  {
    var w' := Updated(env, w, id, u).value;
    forall p | p in w'.patchsets
      ensures p < w'.next && GoodRow(w', w'.patchsets[p])
    {
      assert p in w.patchsets ==> GoodRow(w, w.patchsets[p]);
    }
  }

  /** The new current patchset is the one asked for, or the kept one has its trees. */
  lemma UpdatedCurrent(env: Env, w: World, id: Id, u: Update)
    requires Good(w) && id in w.changesets && Updated(env, w, id, u).Ok?
    ensures var w' := Updated(env, w, id, u).value;
      && HasCurrent(w', id)
      && CurrentRow(w', id).base == BaseSource(env, w, id, u.base).value.1
      && (u.conflicts != [] ==> CurrentRow(w', id).conflicts == u.conflicts && CurrentRow(w', id).kind == u.kind)
      && (w' != w ==> CurrentRow(w', id).on == BaseSource(env, w, id, u.base).value.0)
      && (w' == w ==> CurrentRow(w, id).result == ApplyEdits(CurrentRow(w, id).base, u.edits).value)
  {
  }

  lemma UpdateOrConflictMoves(env: Env, w: World, id: Id, u: Update)
    requires Good(w) && id in w.changesets && UpdateOrConflict(env, w, id, u).Some?
    ensures Good(UpdateOrConflict(env, w, id, u).value) && Moves(w, UpdateOrConflict(env, w, id, u).value, id)
  {
    if Updated(env, w, id, u).Ok? {
      UpdatedMoves(env, w, id, u);
    } else {
      UpdatedMoves(env, w, id, LastResort(u));
    }
  }

  lemma UpdateOrConflictCurrent(env: Env, w: World, id: Id, u: Update)
    requires Good(w) && id in w.changesets && UpdateOrConflict(env, w, id, u).Some?
    ensures var w' := UpdateOrConflict(env, w, id, u).value;
      && BaseSource(env, w, id, u.base).Ok? && HasCurrent(w', id)
      && CurrentRow(w', id).base == BaseSource(env, w, id, u.base).value.1
      && (w' != w ==> CurrentRow(w', id).on == BaseSource(env, w, id, u.base).value.0)
      && (u.conflicts != [] && u.kind == Conflicted ==>
            CurrentRow(w', id).conflicts != [] && CurrentRow(w', id).kind == Conflicted)
  {
    if Updated(env, w, id, u).Ok? {
      UpdatedCurrent(env, w, id, u);
    } else {
      UpdatedCurrent(env, w, id, LastResort(u));
    }
  }

  lemma EntryMoves(env: Env, w: World, e: Entry, target: Option<Tree>)
    requires Good(w) && RestackEntry(env, w, e, target).Some?
    ensures Good(RestackEntry(env, w, e, target).value) && Moves(w, RestackEntry(env, w, e, target).value, e.id)
  {
    var w' := RestackEntry(env, w, e, target).value;
    if w' != w && e.parent.None? {
      UpdateOrConflictMoves(env, w, e.id, Rebasing(env, CurrentRow(w, e.id), OnCommit(target.value), target.value));
    } else if w' != w {
      var p := w.changesets[e.parent.value].current.value;
      UpdateOrConflictMoves(env, w, e.id, Rebasing(env, CurrentRow(w, e.id), OnPatchset(p), w.patchsets[p].result));
    }
  }

  /** The entry is submitted, has no patchset or no parent, or starts from the tree its
      parent's current patchset results in. */
  ghost predicate Sits(w: World, e: Entry)
  {
    e.parent.Some? && HasCurrent(w, e.id) && w.changesets[e.id].status != Submitted ==>
      HasCurrent(w, e.parent.value) && CurrentRow(w, e.id).base == CurrentRow(w, e.parent.value).result
  }

  lemma EntrySits(env: Env, w: World, e: Entry, target: Option<Tree>)
    requires Good(w) && RestackEntry(env, w, e, target).Some? && e.parent != Some(e.id)
    ensures Sits(RestackEntry(env, w, e, target).value, e)
  {
    var w' := RestackEntry(env, w, e, target).value;
    EntryMoves(env, w, e, target);
    if e.parent.Some? && HasCurrent(w, e.id) && w.changesets[e.id].status != Submitted {
      var p := w.changesets[e.parent.value].current.value;
      if CurrentRow(w, e.id).on == Some(p) && !e.needsRestack {
        assert GoodRow(w, CurrentRow(w, e.id));
      } else {
        UpdateOrConflictCurrent(env, w, e.id, Rebasing(env, CurrentRow(w, e.id), OnPatchset(p), w.patchsets[p].result));
      }
    }
  }

  // ---------- Whole stacks ----------

  /** Only the listed changesets change, and no patchset does. */
  ghost predicate Frame(w: World, w': World, entries: seq<Entry>)
  {
    && w'.changesets.Keys == w.changesets.Keys
    && (forall c :: c in w.changesets && (forall i :: 0 <= i < |entries| ==> entries[i].id != c) ==>
          w'.changesets[c] == w.changesets[c])
    && (forall p :: p in w.patchsets ==> p in w'.patchsets && w'.patchsets[p] == w.patchsets[p])
  }

  lemma {:induction false} RestackFrame(env: Env, w: World, entries: seq<Entry>, target: Option<Tree>)
    requires Good(w)
    ensures Good(RestackAll(env, w, entries, target).0) && Frame(w, RestackAll(env, w, entries, target).0, entries)
    decreases |entries|
  {
    if entries != [] && RestackEntry(env, w, entries[0], target).Some? {
      var w1 := RestackEntry(env, w, entries[0], target).value;
      var rest := entries[1..];
      EntryMoves(env, w, entries[0], target);
      RestackFrame(env, w1, rest, target);
      forall c | c in w.changesets && (forall i :: 0 <= i < |entries| ==> entries[i].id != c)
        ensures RestackAll(env, w, entries, target).0.changesets[c] == w.changesets[c]
      {
        assert entries[0].id != c;
        assert forall i :: 0 <= i < |rest| ==> rest[i] == entries[i + 1];
      }
    }
  }

  lemma NotActing(env: Env, w: World, e: Entry, target: Option<Tree>)
    requires RestackEntry(env, w, e, target).Some? && !Acts(w, e, target)
    ensures RestackEntry(env, w, e, target) == Some(w)
  {
  }

  /** What is not reported as refreshed was left alone. */
  lemma {:induction false} OthersAreLeft(env: Env, w: World, entries: seq<Entry>, target: Option<Tree>, id: Id)
    requires Good(w) && id in w.changesets && id !in Refreshed(env, w, entries, target)
    ensures var w' := RestackAll(env, w, entries, target).0;
      id in w'.changesets && w'.changesets[id] == w.changesets[id]
    decreases |entries|
  {
    if entries != [] {
      OneTurn(env, w, entries, target);
      var turn := RestackEntry(env, w, entries[0], target);
      if turn.Some? {
        EntryMoves(env, w, entries[0], target);
        if !Acts(w, entries[0], target) { NotActing(env, w, entries[0], target); }
        OthersAreLeft(env, turn.value, entries[1..], target, id);
      }
    }
  }

  /** After `Restack` ran through a stack listed parents first, every selected changeset
      that is not submitted, has a patchset and a parent starts from its parent's current
      result. */
  lemma {:induction false} RestackedSits(env: Env, w: World, entries: seq<Entry>, target: Option<Tree>)
    requires Good(w) && ParentsFirst(entries) && RestackAll(env, w, entries, target).1
    ensures forall i :: 0 <= i < |entries| ==> Sits(RestackAll(env, w, entries, target).0, entries[i])
    decreases |entries|
  {
    if entries != [] {
      var w1 := RestackEntry(env, w, entries[0], target).value;
      var w', rest := RestackAll(env, w, entries, target).0, entries[1..];
      EntryMoves(env, w, entries[0], target);
      EntrySits(env, w, entries[0], target);
      RestackedSits(env, w1, rest, target);
      RestackFrame(env, w1, rest, target);
      forall i | 0 <= i < |entries|
        ensures Sits(w', entries[i])
      {
        if i == 0 {
          SitsStays(w1, w', entries[0], rest);
        } else {
          assert entries[i] == rest[i - 1];
        }
      }
    }
  }

  lemma SitsStays(w: World, w': World, e: Entry, rest: seq<Entry>)
    requires Good(w) && Frame(w, w', rest) && Sits(w, e)
    requires forall i :: 0 <= i < |rest| ==> rest[i].id != e.id && e.parent != Some(rest[i].id)
    ensures Sits(w', e)
  {
    if e.id in w.changesets {
      assert w'.changesets[e.id] == w.changesets[e.id];
    }
    if e.parent.Some? && e.parent.value in w.changesets {
      assert w'.changesets[e.parent.value] == w.changesets[e.parent.value];
    }
  }

  // ---------- Conflicts stay ----------

  predicate InConflict(w: World, id: Id)
  {
    HasCurrent(w, id) && CurrentRow(w, id).conflicts != []
  }

  lemma EntryKeepsConflict(env: Env, w: World, e: Entry, target: Option<Tree>, id: Id)
    requires Good(w) && RestackEntry(env, w, e, target).Some? && InConflict(w, id)
    ensures InConflict(RestackEntry(env, w, e, target).value, id)
  {
    var w' := RestackEntry(env, w, e, target).value;
    EntryMoves(env, w, e, target);
    if id == e.id && w' != w {
      var current := CurrentRow(w, id);
      var base := if e.parent.None? then OnCommit(target.value)
                  else OnPatchset(w.changesets[e.parent.value].current.value);
      var onto := if e.parent.None? then target.value else CurrentRow(w, e.parent.value).result;
      var u := Rebasing(env, current, base, onto);
      var found := Reported(env.merger, Bases(current.base, current.edits), onto, current.edits);
      assert Names(current.conflicts, current.conflicts[0].path);
      CarriedNames(found, current.conflicts, current.conflicts[0].path);
      assert u.conflicts != [];
      UpdateOrConflictCurrent(env, w, id, u);
    }
  }

  lemma {:induction false} RestackKeepsConflict(env: Env, w: World, entries: seq<Entry>, target: Option<Tree>, id: Id)
    requires Good(w) && InConflict(w, id)
    ensures InConflict(RestackAll(env, w, entries, target).0, id)
    decreases |entries|
  {
    if entries != [] && RestackEntry(env, w, entries[0], target).Some? {
      EntryMoves(env, w, entries[0], target);
      EntryKeepsConflict(env, w, entries[0], target, id);
      RestackKeepsConflict(env, RestackEntry(env, w, entries[0], target).value, entries[1..], target, id);
    }
  }

  datatype Call = Call(entries: seq<Entry>, target: Option<Tree>)

  /** Any number of restacks, of any entries onto any targets, failed ones included. */
  ghost function Restacks(env: Env, w: World, calls: seq<Call>): World
    decreases |calls|
  {
    if calls == [] then w else Restacks(env, RestackAll(env, w, calls[0].entries, calls[0].target).0, calls[1..])
  }

  /** No restack ever resolves a conflict. */
  lemma {:induction false} ConflictsStay(env: Env, w: World, calls: seq<Call>, id: Id)
    requires Good(w) && InConflict(w, id)
    ensures Good(Restacks(env, w, calls)) && InConflict(Restacks(env, w, calls), id)
    decreases |calls|
  {
    if calls != [] {
      RestackFrame(env, w, calls[0].entries, calls[0].target);
      RestackKeepsConflict(env, w, calls[0].entries, calls[0].target, id);
      ConflictsStay(env, RestackAll(env, w, calls[0].entries, calls[0].target).0, calls[1..], id);
    }
  }

  // ---------- The parent's patchset by its id ----------

  /** The child has no conflicts and starts from the tree of the parent's current patchset
      already, but as the result of another patchset: the store then takes the moved
      patchset for a repeat. */
  predicate StaysBehind(env: Env, w: World, e: Entry, p: nat)
    requires HasCurrent(w, e.id) && p in w.patchsets
  {
    var current := CurrentRow(w, e.id);
    current.on != Some(p) && current.base == w.patchsets[p].result && current.conflicts == []
    && env.refuses(current.base, current.edits).None?
  }

  /** Moved onto a base that holds the recorded bases, a patchset is unchanged. */
  lemma RebasingOntoItsBase(env: Env, current: PatchsetRow, base: Base)
    ensures Rebasing(env, current, base, current.base).edits == current.edits
    ensures Rebasing(env, current, base, current.base).conflicts == Unresolved([], current.conflicts)
  {
    RebaseOntoSameBase(env.merger, current.base, Bases(current.base, current.edits), current.edits);
  }

  lemma {:induction false} NoneFoundAgain(conflicts: seq<Conflict>)
    ensures Unresolved([], conflicts) == conflicts
    decreases |conflicts|
  {
    if conflicts != [] {
      NoneFoundAgain(conflicts[1..]);
      assert conflicts == [conflicts[0]] + conflicts[1..];
    }
  }

  /** An update changes nothing exactly when it repeats the current patchset. */
  lemma KeptIffRepeat(env: Env, w: World, id: Id, u: Update)
    requires id in w.changesets && UpdateOrConflict(env, w, id, u).Some?
    ensures UpdateOrConflict(env, w, id, u) == Some(w) <==>
      && Updated(env, w, id, u).Ok? && BaseSource(env, w, id, u.base).Ok?
      && ApplyEdits(BaseSource(env, w, id, u.base).value.1, u.edits).Some?
      && IsRepeat(w, id, BaseSource(env, w, id, u.base).value.1,
                  ApplyEdits(BaseSource(env, w, id, u.base).value.1, u.edits).value, u.conflicts)
  {
  }

  /** The update of an entry that stays behind repeats its current patchset. */
  lemma BehindIsRepeat(env: Env, w: World, e: Entry, p: nat)
    requires Good(w) && HasCurrent(w, e.id) && p in w.patchsets && StaysBehind(env, w, e, p)
    requires UpdateOrConflict(env, w, e.id,
                              Rebasing(env, CurrentRow(w, e.id), OnPatchset(p), w.patchsets[p].result)).Some?
    ensures UpdateOrConflict(env, w, e.id, Rebasing(env, CurrentRow(w, e.id), OnPatchset(p), w.patchsets[p].result)) ==
      Some(w)
  {
    var current := CurrentRow(w, e.id);
    RebasingOntoItsBase(env, current, OnPatchset(p));
    assert GoodRow(w, current);
  }

  /** An entry whose update repeats its current patchset stays behind. */
  lemma RepeatIsBehind(env: Env, w: World, e: Entry, p: nat)
    requires Good(w) && HasCurrent(w, e.id) && p in w.patchsets && CurrentRow(w, e.id).on != Some(p)
    requires UpdateOrConflict(env, w, e.id,
                              Rebasing(env, CurrentRow(w, e.id), OnPatchset(p), w.patchsets[p].result)) == Some(w)
    ensures StaysBehind(env, w, e, p)
  {
    var current := CurrentRow(w, e.id);
    var u := Rebasing(env, current, OnPatchset(p), w.patchsets[p].result);
    KeptIffRepeat(env, w, e.id, u);
    RebasingOntoItsBase(env, current, OnPatchset(p));
    NoneFoundAgain(current.conflicts);
  }

  /** After its turn an entry names its parent's current patchset as its base exactly when
      it did not stay behind. */
  lemma SitsByIdIff(env: Env, w: World, e: Entry, target: Option<Tree>)
    requires Good(w) && RestackEntry(env, w, e, target).Some?
    requires e.parent.Some? && e.parent != Some(e.id) && HasCurrent(w, e.id) && w.changesets[e.id].status != Submitted
    ensures HasCurrent(w, e.parent.value)
    ensures var w', p := RestackEntry(env, w, e, target).value, w.changesets[e.parent.value].current.value;
      HasCurrent(w', e.id) && (CurrentRow(w', e.id).on == Some(p) <==> !StaysBehind(env, w, e, p))
  {
    var w', p := RestackEntry(env, w, e, target).value, w.changesets[e.parent.value].current.value;
    if CurrentRow(w, e.id).on != Some(p) || e.needsRestack {
      UpdateOrConflictCurrent(env, w, e.id, Rebasing(env, CurrentRow(w, e.id), OnPatchset(p), w.patchsets[p].result));
      if StaysBehind(env, w, e, p) {
        BehindIsRepeat(env, w, e, p);
      } else if CurrentRow(w, e.id).on != Some(p) && w' == w {
        RepeatIsBehind(env, w, e, p);
      }
    }
  }

  /** The entry had no conflicts before the call and started from the tree its parent has in
      the end, but as the result of another patchset than the parent's. */
  predicate LeavesBehind(env: Env, before: World, after: World, e: Entry)
    requires HasCurrent(before, e.id) && e.parent.Some? && HasCurrent(after, e.parent.value)
  {
    var current := CurrentRow(before, e.id);
    && current.on != after.changesets[e.parent.value].current
    && current.base == CurrentRow(after, e.parent.value).result
    && current.conflicts == [] && env.refuses(current.base, current.edits).None?
  }

  /** After the call the entry names its parent's current patchset exactly when it was not
      left behind. */
  ghost predicate NamesIff(env: Env, before: World, after: World, e: Entry)
  {
    e.parent.Some? && HasCurrent(before, e.id) && before.changesets[e.id].status != Submitted ==>
      && HasCurrent(after, e.id) && HasCurrent(after, e.parent.value)
      && (CurrentRow(after, e.id).on == after.changesets[e.parent.value].current <==>
            !LeavesBehind(env, before, after, e))
  }

  lemma TurnNamesIff(env: Env, w: World, e: Entry, target: Option<Tree>)
    requires Good(w) && RestackEntry(env, w, e, target).Some? && e.parent != Some(e.id)
    ensures NamesIff(env, w, RestackEntry(env, w, e, target).value, e)
  {
    if e.parent.Some? && HasCurrent(w, e.id) && w.changesets[e.id].status != Submitted {
      SitsByIdIff(env, w, e, target);
      EntryMoves(env, w, e, target);
    }
  }

  lemma NamesStays(env: Env, w: World, w': World, w'': World, e: Entry, rest: seq<Entry>)
    requires Good(w') && Frame(w', w'', rest) && NamesIff(env, w, w', e)
    requires forall i :: 0 <= i < |rest| ==> rest[i].id != e.id && e.parent != Some(rest[i].id)
    ensures NamesIff(env, w, w'', e)
  {
    if e.id in w'.changesets { assert w''.changesets[e.id] == w'.changesets[e.id]; }
    if e.parent.Some? && e.parent.value in w'.changesets {
      assert w''.changesets[e.parent.value] == w'.changesets[e.parent.value];
    }
  }

  lemma NamesFromEarlier(env: Env, w: World, w1: World, w': World, e: Entry, id: Id)
    requires Good(w) && Moves(w, w1, id) && id != e.id && NamesIff(env, w1, w', e)
    ensures NamesIff(env, w, w', e)
  {
    if HasCurrent(w, e.id) {
      assert w1.changesets[e.id] == w.changesets[e.id] && CurrentRow(w1, e.id) == CurrentRow(w, e.id);
    }
  }

  /** Over a whole restack of a stack listed parents first: which of the selected entries
      name their parent's current patchset in the end. */
  lemma {:induction false} RestackedNames(env: Env, w: World, entries: seq<Entry>, target: Option<Tree>, i: nat)
    requires Good(w) && ParentsFirst(entries) && RestackAll(env, w, entries, target).1 && i < |entries|
    ensures NamesIff(env, w, RestackAll(env, w, entries, target).0, entries[i])
    decreases |entries|
  {
    var w1, rest := RestackEntry(env, w, entries[0], target).value, entries[1..];
    var w' := RestackAll(env, w, entries, target).0;
    OneTurn(env, w, entries, target);
    EntryMoves(env, w, entries[0], target);
    if i == 0 {
      TurnNamesIff(env, w, entries[0], target);
      RestackFrame(env, w1, rest, target);
      NamesStays(env, w, w1, w', entries[0], rest);
    } else {
      RestackedNames(env, w1, rest, target, i - 1);
      NamesFromEarlier(env, w, w1, w', entries[i], entries[0].id);
    }
  }

  /** A parent whose new patchset has the tree of the one before: the child, restacked
      without error, still names the old one. */
  lemma LeftBehind(m: Merger, a: Id, b: Id, t: Tree)
    requires a != b
    ensures var env := Env(m, (_, _) => None, (_, _) => true);
      var w := World(map[a := ChangesetRow(Open, None, Some(1)), b := ChangesetRow(Open, Some(a), Some(2))],
                     map[0 := PatchsetRow(t, None, [], t, [], Authored),
                         1 := PatchsetRow(t, None, [], t, [Conflict("/", Replay)], Conflicted),
                         2 := PatchsetRow(t, Some(0), [], t, [], Authored)], 3);
      Good(w) && RestackAll(env, w, [Entry(b, Some(a), true)], None) == (w, true) && CurrentRow(w, b).on == Some(0)
  {
    var env := Env(m, (_, _) => None, (_, _) => true);
    var w := World(map[a := ChangesetRow(Open, None, Some(1)), b := ChangesetRow(Open, Some(a), Some(2))],
                   map[0 := PatchsetRow(t, None, [], t, [], Authored),
                       1 := PatchsetRow(t, None, [], t, [Conflict("/", Replay)], Conflicted),
                       2 := PatchsetRow(t, Some(0), [], t, [], Authored)], 3);
    var e := Entry(b, Some(a), true);
    assert GoodRow(w, w.patchsets[0]) && GoodRow(w, w.patchsets[1]) && GoodRow(w, w.patchsets[2]);
    assert StaysBehind(env, w, e, 1);
    RebasingOntoItsBase(env, w.patchsets[2], OnPatchset(1));
    assert RestackEntry(env, w, e, None) == Some(w);
    assert [e][1..] == [];
  }

  // ---------- What a moved patchset holds ----------

  /** The patchset can be taken onto the tree as it is: it has no conflicts, none of its edits
      clashes, and the validator takes what they become. */
  ghost predicate GoesCleanly(env: Env, before: PatchsetRow, onto: Tree)
  {
    && before.conflicts == []
    && (forall i :: 0 <= i < |before.edits| ==> ClashOf(env.merger, before.base, onto, before.edits[i]) == None)
    && env.refuses(onto, Rebased(env.merger, Bases(before.base, before.edits), onto, before.edits)).None?
  }

  /** The moved patchset overwrites nothing silently: what the edits did not write is as its
      new base has it, and every path they wrote holds the author's result where nothing they
      read had changed, a change that is there already, a clean merge, or is in conflict.  It
      has conflicts exactly when it could not go cleanly. */
  ghost predicate Replayed(env: Env, before: PatchsetRow, after: PatchsetRow)
  {
    Plain(before.edits) && "" !in ReadSet(before.edits) ==>
      && (forall p :: p !in WriteSet(before.edits) ==> Get(after.result, p) == Get(after.base, p))
      && (forall i, p :: 0 <= i < |before.edits| && p in Writes(before.edits[i]) ==>
            Honest(env.merger, before.base, after.base, before.edits[i], after.conflicts, p, Get(after.result, p)))
      && (after.conflicts == [] <==> GoesCleanly(env, before, after.base))
  }

  lemma NoClashIff(m: Merger, base: Tree, onto: Tree, edits: seq<Edit>)
    requires "" !in ReadSet(edits)
    ensures Reported(m, Bases(base, edits), onto, edits) == [] <==>
      forall i :: 0 <= i < |edits| ==> ClashOf(m, base, onto, edits[i]) == None
  {
    var found := Reported(m, Bases(base, edits), onto, edits);
    if found != [] {
      ReportedIff(m, base, onto, Bases(base, edits), edits, found[0]);
    }
    forall i | 0 <= i < |edits| && ClashOf(m, base, onto, edits[i]).Some? ensures found != [] {
      var c := Conflict(edits[i].path, ClashOf(m, base, onto, edits[i]).value);
      assert edits[i].path == c.path && SomeClash(m, base, onto, edits, c);
      ReportedIff(m, base, onto, Bases(base, edits), edits, c);
    }
  }

  lemma MoreConflicts(m: Merger, base: Tree, onto: Tree, e: Edit, found: seq<Conflict>, more: seq<Conflict>, p: Path,
                      f: Option<File>)
    requires Honest(m, base, onto, e, found, p, f)
    ensures Honest(m, base, onto, e, found + more, p, f)
  {
    if c :| c in found && c.path == e.path { assert c in found + more; }
  }

  /** The update does, where it applies to the tree; and it has no conflicts exactly when the
      patchset had none and none of its edits clashes. */
  ghost predicate UpdateReplays(env: Env, before: PatchsetRow, u: Update, onto: Tree)
  {
    && ApplyEdits(before.base, before.edits) == Some(before.result)
    && Plain(before.edits) && "" !in ReadSet(before.edits) ==>
      && (u.conflicts == [] <==>
            && before.conflicts == []
            && forall i :: 0 <= i < |before.edits| ==> ClashOf(env.merger, before.base, onto, before.edits[i]) == None)
      && (ApplyEdits(onto, u.edits).Some? ==>
            var result := ApplyEdits(onto, u.edits).value;
            && (forall p :: p !in WriteSet(before.edits) ==> Get(result, p) == Get(onto, p))
            && (forall i, p :: 0 <= i < |before.edits| && p in Writes(before.edits[i]) ==>
                  Honest(env.merger, before.base, onto, before.edits[i], u.conflicts, p, Get(result, p))))
  }

  lemma RebasingReplays(env: Env, before: PatchsetRow, base: Base, onto: Tree)
    ensures UpdateReplays(env, before, Rebasing(env, before, base, onto), onto)
  {
    var u := Rebasing(env, before, base, onto);
    if ApplyEdits(before.base, before.edits) == Some(before.result) && Plain(before.edits)
       && "" !in ReadSet(before.edits) {
      var bases := Bases(before.base, before.edits);
      var found := Reported(env.merger, bases, onto, before.edits);
      NoClashIff(env.merger, before.base, onto, before.edits);
      NoneFoundAgain(before.conflicts);
      if ApplyEdits(onto, u.edits).Some? {
        var result := ApplyEdits(onto, u.edits).value;
        RebaseNeverSilent(env.merger, before.base, onto, before.edits, result);
        forall i, p | 0 <= i < |before.edits| && p in Writes(before.edits[i])
          ensures Honest(env.merger, before.base, onto, before.edits[i], u.conflicts, p, Get(result, p))
        {
          MoreConflicts(env.merger, before.base, onto, before.edits[i], found, Unresolved(found, before.conflicts), p,
                        Get(result, p));
        }
      }
    }
  }

  /** The rebased edits, applied. */
  lemma RebasedReplays(env: Env, before: PatchsetRow, after: PatchsetRow, onto: Tree)
    requires ApplyEdits(before.base, before.edits) == Some(before.result) && after.base == onto
    requires var u := Rebasing(env, before, OnCommit(onto), onto);
      && ApplyEdits(onto, u.edits) == Some(after.result) && after.conflicts == u.conflicts
      && env.refuses(onto, u.edits).None?
    ensures Replayed(env, before, after)
  {
    RebasingReplays(env, before, OnCommit(onto), onto);
  }

  lemma {:induction false} NamedHas(edits: seq<Edit>, i: nat)
    requires i < |edits|
    ensures edits[i].path in NamedBy(edits)
    decreases |edits|
  {
    if i > 0 {
      assert edits[1..][i - 1] == edits[i];
      NamedHas(edits[1..], i - 1);
    }
  }

  /** An edit that a rebase keeps keeps its path. */
  lemma {:induction false} RebasedHas(m: Merger, bases: map<Path, Option<File>>, onto: Tree, edits: seq<Edit>, i: nat)
    requires i < |edits| && RebaseOne(m, bases, onto, edits[i]).0 != []
    ensures edits[i].path in NamedBy(Rebased(m, bases, onto, edits))
    decreases |edits|
  {
    var one, rest := RebaseOne(m, bases, onto, edits[0]).0, Rebased(m, bases, onto, edits[1..]);
    if i == 0 {
      assert (one + rest)[0] == one[0];
      NamedHas(one + rest, 0);
    } else {
      assert edits[1..][i - 1] == edits[i];
      RebasedHas(m, bases, onto, edits[1..], i - 1);
      NamedConcat(one, rest, edits[i].path);
    }
  }

  lemma {:induction false} NamedConcat(x: seq<Edit>, y: seq<Edit>, p: Path)
    requires p in NamedBy(y)
    ensures p in NamedBy(x + y)
    decreases |x|
  {
    if x == [] {
      assert x + y == y;
    } else {
      assert (x + y)[1..] == x[1..] + y;
      NamedConcat(x[1..], y, p);
    }
  }

  /** The update of last resort: nothing of the edits is left, and all that is missing is
      named. */
  lemma LastResortReplays(env: Env, before: PatchsetRow, after: PatchsetRow, onto: Tree)
    requires ApplyEdits(before.base, before.edits) == Some(before.result) && after.base == after.result == onto
    requires var u := Rebasing(env, before, OnCommit(onto), onto);
      && (env.refuses(onto, u.edits).Some? || ApplyEdits(onto, u.edits).None?)
      && after.conflicts == LastResort(u).conflicts
    ensures Replayed(env, before, after)
  {
    if Plain(before.edits) && "" !in ReadSet(before.edits) {
      var bases := Bases(before.base, before.edits);
      forall i, p | 0 <= i < |before.edits| && p in Writes(before.edits[i])
        ensures Honest(env.merger, before.base, onto, before.edits[i], after.conflicts, p, Get(onto, p))
      {
        NamedOrDropped(env, before, onto, i, p);
      }
      NoClashIff(env.merger, before.base, onto, before.edits);
      if GoesCleanly(env, before, onto) {
        CleanApplies(env.merger, bases, onto, before.base, onto, before.edits);
      }
    }
  }

  lemma NamedOrDropped(env: Env, before: PatchsetRow, onto: Tree, i: nat, p: Path)
    requires "" !in ReadSet(before.edits) && i < |before.edits| && p in Writes(before.edits[i])
    ensures var conflicts := LastResort(Rebasing(env, before, OnCommit(onto), onto)).conflicts;
      Honest(env.merger, before.base, onto, before.edits[i], conflicts, p, Get(onto, p))
  {
    var bases, e := Bases(before.base, before.edits), before.edits[i];
    var edits := Rebased(env.merger, bases, onto, before.edits);
    if RebaseOne(env.merger, bases, onto, e).0 != [] {
      RebasedHas(env.merger, bases, onto, before.edits, i);
      ReadsAreRead(before.edits, i);
      assert e.path in Reads(e);
      ReplaysName(NamedBy(edits), e.path);
      var k :| 0 <= k < |Replays(NamedBy(edits))| && Replays(NamedBy(edits))[k].path == e.path;
      assert Replays(NamedBy(edits))[k] in Replays(NamedBy(edits));
    }
  }

  /** A move, in whichever way it ends, replays the patchset on its new base. */
  lemma MoveReplays(env: Env, w: World, id: Id, base: Base, onto: Tree)
    requires Good(w) && HasCurrent(w, id) && (base.OnCommit? ==> base.tree == onto)
    requires base.OnPatchset? ==> base.id in w.patchsets && w.patchsets[base.id].result == onto
    requires UpdateOrConflict(env, w, id, Rebasing(env, CurrentRow(w, id), base, onto)).Some?
    ensures var w' := UpdateOrConflict(env, w, id, Rebasing(env, CurrentRow(w, id), base, onto)).value;
      && HasCurrent(w', id) && CurrentRow(w', id).base == onto && Replayed(env, CurrentRow(w, id), CurrentRow(w', id))
      && CurrentRow(w', id).kind == (if InConflict(w', id) then Conflicted else CurrentRow(w, id).kind)
  {
    var before := CurrentRow(w, id);
    var u := Rebasing(env, before, base, onto);
    var after := CurrentRow(UpdateOrConflict(env, w, id, u).value, id);
    assert GoodRow(w, before);
    if Updated(env, w, id, u).Ok? {
      UpdatedRow(env, w, id, u);
      NoneFoundAgain(before.conflicts);
      RebasedReplays(env, before, after, onto);
    } else {
      UpdatedRow(env, w, id, LastResort(u));
      LastResortReplays(env, before, after, onto);
    }
  }

  /** The row an update leaves current holds what was asked for. */
  lemma UpdatedRow(env: Env, w: World, id: Id, u: Update)
    requires Good(w) && id in w.changesets && Updated(env, w, id, u).Ok?
    ensures w.changesets[id].status == Open && BaseSource(env, w, id, u.base).Ok?
    ensures var w', onto := Updated(env, w, id, u).value, BaseSource(env, w, id, u.base).value.1;
      && HasCurrent(w', id) && env.refuses(onto, u.edits).None?
      && var row := CurrentRow(w', id);
      && row.base == onto && ApplyEdits(onto, u.edits) == Some(row.result)
      && ((row.conflicts == u.conflicts && row.kind == u.kind) || (w' == w && u.conflicts == []))
  {
  }

  /** What a turn made of the changeset's patchset. */
  ghost predicate MovedTo(env: Env, w: World, w': World, e: Entry, target: Option<Tree>)
  {
    && HasCurrent(w, e.id) && HasCurrent(w', e.id)
    && Replayed(env, CurrentRow(w, e.id), CurrentRow(w', e.id))
    && CurrentRow(w', e.id).kind == (if InConflict(w', e.id) then Conflicted else CurrentRow(w, e.id).kind)
    && (e.parent.None? ==> target == Some(CurrentRow(w', e.id).base))
  }

  lemma TurnMovesTo(env: Env, w: World, e: Entry, target: Option<Tree>)
    requires Good(w) && RestackEntry(env, w, e, target).Some? && Acts(w, e, target)
    ensures MovedTo(env, w, RestackEntry(env, w, e, target).value, e, target)
  {
    if e.parent.None? {
      MoveReplays(env, w, e.id, OnCommit(target.value), target.value);
    } else {
      var p := w.changesets[e.parent.value].current.value;
      MoveReplays(env, w, e.id, OnPatchset(p), w.patchsets[p].result);
    }
  }

  lemma MovedStays(env: Env, w: World, w1: World, w': World, e: Entry, target: Option<Tree>, rest: seq<Entry>)
    requires Good(w1) && Frame(w1, w', rest) && MovedTo(env, w, w1, e, target)
    requires forall i :: 0 <= i < |rest| ==> rest[i].id != e.id
    ensures MovedTo(env, w, w', e, target)
  {
    assert w'.changesets[e.id] == w1.changesets[e.id];
  }

  lemma MovedFromEarlier(env: Env, w: World, w1: World, w': World, e: Entry, target: Option<Tree>, id: Id)
    requires Good(w) && Moves(w, w1, id) && id != e.id && MovedTo(env, w1, w', e, target)
    ensures MovedTo(env, w, w', e, target)
  {
    assert w1.changesets[e.id] == w.changesets[e.id] && CurrentRow(w1, e.id) == CurrentRow(w, e.id);
  }

  /** Over a whole restack, finished or not: what every reported changeset holds in the end,
      in terms of what it held before the call. */
  lemma {:induction false} RefreshedReplays(env: Env, w: World, entries: seq<Entry>, target: Option<Tree>, i: nat)
    requires Good(w) && ParentsFirst(entries) && i < |entries| && entries[i].id in Refreshed(env, w, entries, target)
    ensures MovedTo(env, w, RestackAll(env, w, entries, target).0, entries[i], target)
    decreases |entries|
  {
    OneTurn(env, w, entries, target);
    var w1, rest := RestackEntry(env, w, entries[0], target).value, entries[1..];
    var w' := RestackAll(env, w, entries, target).0;
    EntryMoves(env, w, entries[0], target);
    if i == 0 {
      RefreshedAreListed(env, w1, rest, target, entries[0].id);
      TurnMovesTo(env, w, entries[0], target);
      RestackFrame(env, w1, rest, target);
      MovedStays(env, w, w1, w', entries[0], target, rest);
    } else {
      assert rest[i - 1] == entries[i];
      RefreshedReplays(env, w1, rest, target, i - 1);
      MovedFromEarlier(env, w, w1, w', entries[i], target, entries[0].id);
    }
  }

  /** The changeset was to be moved: it is not submitted and has a patchset, and has no parent
      but there is a target, or is marked, or was not on the patchset its parent has in the
      end. */
  ghost predicate Due(w: World, w': World, e: Entry, target: Option<Tree>)
  {
    && HasCurrent(w, e.id) && w.changesets[e.id].status != Submitted
    && if e.parent.None? then target.Some?
       else
         || e.needsRestack
         || (e.parent.value in w'.changesets && CurrentRow(w, e.id).on != w'.changesets[e.parent.value].current)
  }

  lemma TurnIsDue(env: Env, w: World, e: Entry, target: Option<Tree>)
    requires Good(w) && RestackEntry(env, w, e, target).Some? && e.parent != Some(e.id)
    ensures Acts(w, e, target) <==> Due(w, RestackEntry(env, w, e, target).value, e, target)
  {
    EntryMoves(env, w, e, target);
  }

  lemma DueStays(w: World, w1: World, w': World, e: Entry, target: Option<Tree>, rest: seq<Entry>)
    requires Frame(w1, w', rest) && forall i :: 0 <= i < |rest| ==> e.parent != Some(rest[i].id)
    ensures Due(w, w1, e, target) <==> Due(w, w', e, target)
  {
    if e.parent.Some? && e.parent.value in w1.changesets {
      assert w'.changesets[e.parent.value] == w1.changesets[e.parent.value];
    }
  }

  lemma DueFromEarlier(w: World, w1: World, w': World, e: Entry, target: Option<Tree>, id: Id)
    requires Good(w) && Good(w1) && Moves(w, w1, id) && id != e.id
    ensures Due(w, w', e, target) <==> Due(w1, w', e, target)
  {
    if e.id in w.changesets { assert w1.changesets[e.id] == w.changesets[e.id]; }
  }

  /** A restack that ran through reports exactly what was to be moved. */
  lemma {:induction false} RefreshedIffDue(env: Env, w: World, entries: seq<Entry>, target: Option<Tree>, i: nat)
    requires Good(w) && ParentsFirst(entries) && i < |entries| && RestackAll(env, w, entries, target).1
    ensures entries[i].id in Refreshed(env, w, entries, target) <==>
      Due(w, RestackAll(env, w, entries, target).0, entries[i], target)
    decreases |entries|
  {
    OneTurn(env, w, entries, target);
    var w1, rest := RestackEntry(env, w, entries[0], target).value, entries[1..];
    var w' := RestackAll(env, w, entries, target).0;
    EntryMoves(env, w, entries[0], target);
    if i == 0 {
      RefreshedAreListed(env, w1, rest, target, entries[0].id);
      TurnIsDue(env, w, entries[0], target);
      RestackFrame(env, w1, rest, target);
      DueStays(w, w1, w', entries[0], target, rest);
    } else {
      assert rest[i - 1] == entries[i];
      RefreshedIffDue(env, w1, rest, target, i - 1);
      DueFromEarlier(w, w1, w', entries[i], target, entries[0].id);
    }
  }

  lemma {:induction false} RefreshedAreListed(env: Env, w: World, entries: seq<Entry>, target: Option<Tree>, id: Id)
    requires forall i :: 0 <= i < |entries| ==> entries[i].id != id
    ensures id !in Refreshed(env, w, entries, target)
    decreases |entries|
  {
    if entries != [] && RestackEntry(env, w, entries[0], target).Some? {
      OneTurn(env, w, entries, target);
      assert forall i :: 0 <= i < |entries[1..]| ==> entries[1..][i] == entries[i + 1];
      RefreshedAreListed(env, RestackEntry(env, w, entries[0], target).value, entries[1..], target, id);
    }
  }

  // ---------- The service ----------

  lemma ReplaysSnoc(paths: seq<Path>, p: Path)
    ensures Replays(paths + [p]) == if p ==
      "" || Names(Replays(paths), p) then Replays(paths) else Replays(paths) + [Conflict(p, Replay)]
  {
    assert (paths + [p])[..|paths + [p]| - 1] == paths;
  }

  method AddReplay(conflicts: seq<Conflict>, ghost paths: seq<Path>, p: Path) returns (r: seq<Conflict>)
    requires conflicts == Replays(paths)
    ensures r == Replays(paths + [p])
  {
    ReplaysSnoc(paths, p);
    if p == "" {
      return conflicts;
    }
    for i := 0 to |conflicts|
      invariant forall j :: 0 <= j < i ==> conflicts[j].path != p
    {
      if conflicts[i].path == p {
        return conflicts;
      }
    }
    r := conflicts + [Conflict(p, Replay)];
  }

  method AddReplays(conflicts: seq<Conflict>, ghost paths: seq<Path>, e: Edit) returns (r: seq<Conflict>)
    requires conflicts == Replays(paths)
    ensures r == Replays(paths + NamedOne(e))
  {
    r := AddReplay(conflicts, paths, e.path);
    if e.Rename? || e.Copy? {
      r := AddReplay(r, paths + [e.path], e.from);
      assert paths + [e.path] + [e.from] == paths + NamedOne(e);
    }
  }

  lemma NamedNext(paths: seq<Path>, edits: seq<Edit>, i: nat)
    requires i < |edits|
    ensures paths + NamedBy(edits[i..]) == paths + NamedOne(edits[i]) + NamedBy(edits[i + 1..])
  {
    assert edits[i..][0] == edits[i] && edits[i..][1..] == edits[i + 1..];
  }

  /** `restackConflictsFromEdits`. */
  method ReplayConflicts(edits: seq<Edit>) returns (conflicts: seq<Conflict>)
    ensures conflicts == Replays(NamedBy(edits))
  {
    conflicts := [];
    ghost var paths: seq<Path> := [];
    ghost var all := NamedBy(edits);
    for i := 0 to |edits|
      invariant conflicts == Replays(paths) && paths + NamedBy(edits[i..]) == all
    {
      NamedNext(paths, edits, i);
      conflicts := AddReplays(conflicts, paths, edits[i]);
      paths := paths + NamedOne(edits[i]);
    }
    assert edits[|edits|..] == [] && paths + [] == paths;
  }

  /** `rebasedUpdate`. */
  method RebasedUpdate(env: Env, current: PatchsetRow, base: Base, onto: Tree) returns (u: Update)
    ensures u == Rebasing(env, current, base, onto)
    ensures u.base == base && (u.conflicts != [] ==> u.kind == Conflicted) && UpdateReplays(env, current, u, onto)
  {
    RebasingReplays(env, current, base, onto);
    var edits, conflicts := RebaseEdits(env.merger, Bases(current.base, current.edits), onto, current.edits);
    conflicts := Carry(conflicts, current.conflicts);
    u := Update(base, edits, conflicts, current.kind);
    if |conflicts| > 0 {
      u := u.(kind := Conflicted);
    }
  }

  /** `restackUpdateOrConflict`, and whether it fell back to a conflict. */
  method TryUpdate(env: Env, w: World, id: Id, u: Update) returns (r: Option<World>, conflicted: bool)
    requires id in w.changesets
    ensures r == UpdateOrConflict(env, w, id, u)
    ensures r.Some? ==> (conflicted <==> Updated(env, w, id, u).Err?)
  {
    var updated := Updated(env, w, id, u);
    if updated.Ok? {
      return Some(updated.value), false;
    }
    if !updated.error {
      return None, false;
    }
    var conflicts := ReplayConflicts(u.edits);
    if |conflicts| == 0 {
      conflicts := [Conflict("/", Replay)];
    }
    updated := Updated(env, w, id, Update(u.base, [], conflicts, Conflicted));
    if updated.Err? {
      return None, true;
    }
    r, conflicted := Some(updated.value), true;
  }

  /** Moves one changeset, and says whether the patchset it has then is in conflict. */
  method Move(env: Env, w: World, id: Id, base: Base, onto: Tree) returns (r: Option<World>, conflicts: bool)
    requires Good(w) && HasCurrent(w, id)
    ensures r == UpdateOrConflict(env, w, id, Rebasing(env, CurrentRow(w, id), base, onto))
    ensures r.Some? ==> (conflicts <==> InConflict(r.value, id))
  {
    var u := RebasedUpdate(env, CurrentRow(w, id), base, onto);
    var conflicted;
    r, conflicted := TryUpdate(env, w, id, u);
    conflicts := conflicted || |u.conflicts| > 0;
    if r.Some? {
      MoveConflicts(env, w, id, base, onto);
    }
  }

  lemma MoveConflicts(env: Env, w: World, id: Id, base: Base, onto: Tree)
    requires Good(w) && HasCurrent(w, id)
    requires UpdateOrConflict(env, w, id, Rebasing(env, CurrentRow(w, id), base, onto)).Some?
    ensures var u := Rebasing(env, CurrentRow(w, id), base, onto);
      InConflict(UpdateOrConflict(env, w, id, u).value, id) <==> Updated(env, w, id, u).Err? || u.conflicts != []
  {
    var u := Rebasing(env, CurrentRow(w, id), base, onto);
    UpdateOrConflictCurrent(env, w, id, u);
    if Updated(env, w, id, u).Err? {
      UpdatedCurrent(env, w, id, LastResort(u));
    } else {
      UpdatedCurrent(env, w, id, u);
      NoneFoundAgain(CurrentRow(w, id).conflicts);
    }
  }

  /** One turn of the loop, and whether the changeset was moved and is in conflict then. */
  method Turn(env: Env, w: World, e: Entry, target: Option<Tree>)
    returns (r: Option<World>, moved: bool, conflicts: bool)
    requires Good(w)
    ensures r == RestackEntry(env, w, e, target)
    ensures r.Some? ==> moved == Acts(w, e, target)
    ensures r.Some? ==> if moved then conflicts <==> InConflict(r.value, e.id) else r.value == w && !conflicts
  {
    if e.id !in w.changesets {
      return None, false, false;
    }
    if w.changesets[e.id].status == Submitted || !HasCurrent(w, e.id) {
      return Some(w), false, false;
    }
    if e.parent.None? {
      if target.None? {
        return Some(w), false, false;
      }
      r, conflicts := Move(env, w, e.id, OnCommit(target.value), target.value);
      moved := true;
      return;
    }
    if !HasCurrent(w, e.parent.value) {
      return None, false, false;
    }
    var parent := w.changesets[e.parent.value].current.value;
    if CurrentRow(w, e.id).on == Some(parent) && !e.needsRestack {
      return Some(w), false, false;
    }
    r, conflicts := Move(env, w, e.id, OnPatchset(parent), w.patchsets[parent].result);
    moved := true;
  }

  ghost predicate SomeInConflict(w: World, ids: seq<Id>)
  {
    exists i :: 0 <= i < |ids| && InConflict(w, ids[i])
  }

  lemma TurnFlags(w: World, w': World, ids: seq<Id>, id: Id)
    requires Good(w) && Moves(w, w', id) && id !in ids
    ensures SomeInConflict(w', ids) <==> SomeInConflict(w, ids)
    ensures SomeInConflict(w', ids + [id]) <==> SomeInConflict(w, ids) || InConflict(w', id)
  {
    forall i | 0 <= i < |ids|
      ensures InConflict(w', ids[i]) <==> InConflict(w, ids[i])
    {
      assert ids[i] != id;
    }
    assert (ids + [id])[|ids|] == id;
    assert forall i :: 0 <= i < |ids| ==> (ids + [id])[i] == ids[i];
    if SomeInConflict(w, ids) {
      var i :| 0 <= i < |ids| && InConflict(w, ids[i]);
      assert InConflict(w', (ids + [id])[i]);
    }
  }

  /** `Restack`: it selects what `SelectedForRestack` does, and the state is that of the loop
      over these entries.  When it runs through, on a stack listed parents first, every
      selected entry sits on its parent, and names its current patchset unless it was left
      behind.  It reports exactly the changesets it moved, whose patchsets overwrite nothing
      silently, and conflicts exactly when one of them is in conflict. */
  method Restack(env: Env, w0: World, stack: seq<Entry>, start: Option<Id>, includeSiblings: bool, target: Option<Tree>)
    returns (w: World, ok: bool, refreshed: seq<Id>, conflicts: bool, ghost entries: seq<Entry>)
    requires Good(w0) && ParentsFirst(stack)
    ensures Good(w) && ForRestack(stack, start, includeSiblings, entries)
    ensures entries != [] ==> (w, ok) == RestackAll(env, w0, entries, target)
    ensures entries == [] ==> w == w0 && !ok
    ensures ok ==> forall i :: 0 <= i < |entries| ==> Sits(w, entries[i]) && NamesIff(env, w0, w, entries[i])
    ensures ok ==> forall i :: 0 <= i < |entries| ==> (entries[i].id in refreshed <==> Due(w0, w, entries[i], target))
    ensures refreshed == Refreshed(env, w0, entries, target)
    ensures forall id :: id in w0.changesets && id !in refreshed ==>
      id in w.changesets && w.changesets[id] == w0.changesets[id]
    ensures forall i :: 0 <= i < |entries| && entries[i].id in refreshed ==> MovedTo(env, w0, w, entries[i], target)
    ensures conflicts <==> SomeInConflict(w, refreshed)
  {
    var selected: seq<Entry>;
    ghost var below;
    selected, below := SelectedForRestack(stack, start, includeSiblings);
    entries := selected;
    SelectionParentsFirst(stack, below);
    SelectedAreEntries(stack, below);
    w, ok, refreshed, conflicts := w0, false, [], false;
    if selected == [] {
      return;
    }
    w, ok, refreshed, conflicts := RestackSelected(env, w0, selected, target);
    RestackFrame(env, w0, selected, target);
    forall id | id in w0.changesets && id !in refreshed
      ensures id in w.changesets && w.changesets[id] == w0.changesets[id]
    {
      OthersAreLeft(env, w0, selected, target, id);
    }
    forall i | 0 <= i < |selected| && selected[i].id in refreshed ensures MovedTo(env, w0, w, selected[i], target) {
      RefreshedReplays(env, w0, selected, target, i);
    }
    if ok {
      RestackedSits(env, w0, selected, target);
      forall i | 0 <= i < |selected| ensures NamesIff(env, w0, w, selected[i]) {
        RestackedNames(env, w0, selected, target, i);
      }
      forall i | 0 <= i < |selected| ensures selected[i].id in refreshed <==> Due(w0, w, selected[i], target) {
        RefreshedIffDue(env, w0, selected, target, i);
      }
    }
  }

  /** The loop is at entry i, in state w, with these changesets refreshed. */
  ghost predicate At(env: Env, w0: World, entries: seq<Entry>, target: Option<Tree>, i: nat, w: World,
                     refreshed: seq<Id>)
  {
    && i <= |entries|
    && RestackAll(env, w, entries[i..], target) == RestackAll(env, w0, entries, target)
    && Refreshed(env, w0, entries, target) == refreshed + Refreshed(env, w, entries[i..], target)
  }

  lemma AtNext(env: Env, w0: World, entries: seq<Entry>, target: Option<Tree>, i: nat, w: World, refreshed: seq<Id>)
    requires i < |entries| && At(env, w0, entries, target, i, w, refreshed)
    ensures var turn := RestackEntry(env, w, entries[i], target);
      if turn.None? then RestackAll(env, w0, entries, target) == (w, false)
                         && Refreshed(env, w0, entries, target) == refreshed
      else At(env, w0, entries, target, i + 1, turn.value,
              if Acts(w, entries[i], target) then refreshed + [entries[i].id] else refreshed)
  {
    var left, turn := entries[i..], RestackEntry(env, w, entries[i], target);
    assert left[0] == entries[i] && left[1..] == entries[i + 1..];
    OneTurn(env, w, left, target);
    if turn.Some? {
      var one := if Acts(w, entries[i], target) then [entries[i].id] else [];
      var later := Refreshed(env, turn.value, entries[i + 1..], target);
      assert refreshed + (one + later) == (refreshed + one) + later;
      assert one == [] ==> refreshed + one == refreshed;
    } else {
      assert refreshed + [] == refreshed;
    }
  }

  lemma OneTurn(env: Env, w: World, entries: seq<Entry>, target: Option<Tree>)
    requires entries != []
    ensures var turn := RestackEntry(env, w, entries[0], target);
      if turn.None? then RestackAll(env, w, entries, target) == (w, false) && Refreshed(env, w, entries, target) == []
      else
        && RestackAll(env, w, entries, target) == RestackAll(env, turn.value, entries[1..], target)
        && Refreshed(env, w, entries, target) ==
           (if Acts(w, entries[0], target) then [entries[0].id] else [])
           + Refreshed(env, turn.value, entries[1..], target)
  {
  }

  lemma AtEnds(env: Env, w0: World, entries: seq<Entry>, target: Option<Tree>, w: World, refreshed: seq<Id>)
    ensures At(env, w0, entries, target, 0, w0, [])
    ensures At(env, w0, entries, target, |entries|, w, refreshed) ==>
      RestackAll(env, w0, entries, target) == (w, true) && Refreshed(env, w0, entries, target) == refreshed
  {
    assert entries[0..] == entries && entries[|entries|..] == [];
  }

  /** The loop of `Restack`, lines 202 to 270. */
  method RestackSelected(env: Env, w0: World, entries: seq<Entry>, target: Option<Tree>)
    returns (w: World, ok: bool, refreshed: seq<Id>, conflicts: bool)
    requires Good(w0) && ParentsFirst(entries)
    ensures (w, ok) == RestackAll(env, w0, entries, target)
    ensures refreshed == Refreshed(env, w0, entries, target)
    ensures conflicts <==> SomeInConflict(w, refreshed)
  {
    w, ok, refreshed, conflicts := w0, true, [], false;
    AtEnds(env, w0, entries, target, w, refreshed);
    for i := 0 to |entries|
      invariant Good(w) && ok && At(env, w0, entries, target, i, w, refreshed)
      invariant conflicts <==> SomeInConflict(w, refreshed)
      invariant forall k :: i <= k < |entries| ==> entries[k].id !in refreshed
    {
      AtNext(env, w0, entries, target, i, w, refreshed);
      var turn, moved, conflicted := Turn(env, w, entries[i], target);
      if turn.None? {
        ok := false;
        return;
      }
      EntryMoves(env, w, entries[i], target);
      TurnFlags(w, turn.value, refreshed, entries[i].id);
      w := turn.value;
      if moved {
        conflicts := conflicts || conflicted;
        refreshed := refreshed + [entries[i].id];
      }
    }
    AtEnds(env, w0, entries, target, w, refreshed);
  }
}
