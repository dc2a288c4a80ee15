/**
  Taking a patchset onto a new base (service/restack_merge.go).

  The line merge (`diffutil.Merge3`) and the test for a text file small enough to
  merge (`restackContent`) are parameters: everything below holds for any.
 */
module Rebase {
  import opened Options
  import opened Patchsets

  datatype Class = RenameConflict | ModifyDelete | AddDelete | Binary | Overlap | Replay

  datatype Conflict = Conflict(path: Path, kind: Class)

  /** `mergeable`: a text file of at most 4 MiB.  `merge`: base, ours and theirs to
      the merged content, and whether it is clean. */
  datatype Merger = Merger(mergeable: Hash -> bool, merge: (Hash, Hash, Hash) -> (Hash, bool))

  /** The recorded path bases of a patchset: what its base held on its read set. */
  function Bases(base: Tree, edits: seq<Edit>): (bs: map<Path, Option<File>>)
  {
    map p | p in ReadSet(edits) :: Get(base, p)
  }

  /** The new base differs from the recorded one at p. */
  predicate ChangedUpstream(bases: map<Path, Option<File>>, onto: Tree, p: Path)
  {
    p != "" && p in bases && bases[p] != Get(onto, p)
  }

  /** Lines 120 to 151. */
  function MergeUpstream(m: Merger, ours: File, was: Option<File>, upstream: Option<File>): (r: (File, Option<Class>))
  {
    if upstream.Some? && upstream.value.content == ours.content then (ours, None)
    else if was.None? || upstream.None? then (ours, Some(AddDelete))
    else if !m.mergeable(was.value.content) || !m.mergeable(ours.content) || !m.mergeable(upstream.value.content) then
      (ours, Some(Binary))
    else
      var (merged, clean) := m.merge(was.value.content, ours.content, upstream.value.content);
      (File(merged, ours.mode), if clean then None else Some(Overlap))
  }

  /** What one edit becomes: the edits kept and the conflicts reported. */
  function RebaseOne(m: Merger, bases: map<Path, Option<File>>, onto: Tree, e: Edit): (r: (seq<Edit>, seq<Conflict>))
  {
    var changed := ChangedUpstream(bases, onto, e.path);
    match e
    case Mkdir(_) => ([e], [])
    case Rename(from, p, _) =>
      ([e], if changed || ChangedUpstream(bases, onto, from) then [Conflict(p, RenameConflict)] else [])
    case Copy(from, p) =>
      ([e], if changed || ChangedUpstream(bases, onto, from) then [Conflict(p, RenameConflict)] else [])
    case Delete(p) =>
      if !changed then ([e], [])
      else if p !in onto then ([], [])
      else ([e], [Conflict(p, ModifyDelete)])
    case Upsert(p, f) =>
      if !changed then ([e], [])
      else
        var (f', kind) := MergeUpstream(m, f, bases[p], Get(onto, p));
        ([Upsert(p, f')], if kind.Some? then [Conflict(p, kind.value)] else [])
  }

  /** The edits a rebase keeps. */
  function Rebased(m: Merger, bases: map<Path, Option<File>>, onto: Tree, edits: seq<Edit>): (r: seq<Edit>)
  {
    if edits == [] then [] else RebaseOne(m, bases, onto, edits[0]).0 + Rebased(m, bases, onto, edits[1..])
  }

  /** The conflicts a rebase reports. */
  function Reported(m: Merger, bases: map<Path, Option<File>>, onto: Tree, edits: seq<Edit>): (r: seq<Conflict>)
  {
    if edits == [] then [] else RebaseOne(m, bases, onto, edits[0]).1 + Reported(m, bases, onto, edits[1..])
  }

  // ---------- The loop ----------

  /** The memo of new bases read so far holds what the new base holds. */
  ghost predicate Memo(newBases: map<Path, Option<File>>, onto: Tree)
  {
    forall p :: p in newBases ==> newBases[p] == Get(onto, p)
  }

  /** Lines 34 to 48, with the memo of the new bases read. */
  method Changed(bases: map<Path, Option<File>>, onto: Tree, newBases0: map<Path, Option<File>>, p: Path)
    returns (changed: bool, newBases: map<Path, Option<File>>)
    requires Memo(newBases0, onto)
    ensures changed == ChangedUpstream(bases, onto, p)
    ensures Memo(newBases, onto) && newBases0.Keys <= newBases.Keys && (changed ==> p in newBases)
  {
    newBases := newBases0;
    if p == "" || p !in bases { return false, newBases; }
    if p !in newBases { newBases := newBases[p := Get(onto, p)]; }
    changed := newBases[p] != bases[p];
  }

  lemma {:induction false} RebaseSnoc(m: Merger, bases: map<Path, Option<File>>, onto: Tree, edits: seq<Edit>, e: Edit)
    ensures Rebased(m, bases, onto, edits + [e]) == Rebased(m, bases, onto, edits) + RebaseOne(m, bases, onto, e).0
    ensures Reported(m, bases, onto, edits + [e]) == Reported(m, bases, onto, edits) + RebaseOne(m, bases, onto, e).1
    decreases |edits|
  {
    if edits == [] {
      assert (edits + [e])[1..] == [];
    } else {
      assert (edits + [e])[1..] == edits[1..] + [e];
      RebaseSnoc(m, bases, onto, edits[1..], e);
    }
  }

  /** Lines 66 to 114. */
  method RebaseEdits(m: Merger, bases: map<Path, Option<File>>, onto: Tree, edits: seq<Edit>)
    returns (out: seq<Edit>, conflicts: seq<Conflict>)
    ensures out == Rebased(m, bases, onto, edits) && conflicts == Reported(m, bases, onto, edits)
  {
    out, conflicts := [], [];
    var newBases: map<Path, Option<File>> := map[];
    for k := 0 to |edits|
      invariant Memo(newBases, onto)
      invariant out == Rebased(m, bases, onto, edits[..k]) && conflicts == Reported(m, bases, onto, edits[..k])
    {
      var edit := edits[k];
      assert edits[..k + 1] == edits[..k] + [edit];
      RebaseSnoc(m, bases, onto, edits[..k], edit);
      var changed;
      changed, newBases := Changed(bases, onto, newBases, edit.path);
      match edit {
        case Mkdir(_) =>
          out := out + [edit];
        case Rename(from, p, _) =>
          var oldChanged;
          oldChanged, newBases := Changed(bases, onto, newBases, from);
          if changed || oldChanged { conflicts := conflicts + [Conflict(p, RenameConflict)]; }
          out := out + [edit];
        case Copy(from, p) =>
          var oldChanged;
          oldChanged, newBases := Changed(bases, onto, newBases, from);
          if changed || oldChanged { conflicts := conflicts + [Conflict(p, RenameConflict)]; }
          out := out + [edit];
        case Delete(p) =>
          if !changed {
            out := out + [edit];
          } else if newBases[p].None? {
            // Deleted upstream too.
          } else {
            conflicts := conflicts + [Conflict(p, ModifyDelete)];
            out := out + [edit];
          }
        case Upsert(p, f) =>
          if !changed {
            out := out + [edit];
          } else {
            var (f', kind) := MergeUpstream(m, f, bases[p], newBases[p]);
            if kind.Some? { conflicts := conflicts + [Conflict(p, kind.value)]; }
            out := out + [Upsert(p, f')];
          }
      }
    }
    assert edits[..|edits|] == edits;
  }

  // ---------- Rebasing never overwrites silently ----------

  lemma {:induction false} ApplyConcat(t: Tree, x: seq<Edit>, y: seq<Edit>)
    ensures ApplyEdits(t, x + y) == Then(ApplyEdits(t, x), y)
    decreases |x|
  {
    if x == [] {
      assert x + y == y;
    } else {
      assert (x + y)[1..] == x[1..] + y;
      if ApplyEdit(t, x[0]).Some? { ApplyConcat(ApplyEdit(t, x[0]).value, x[1..], y); }
    }
  }

  lemma OneWrites(m: Merger, bases: map<Path, Option<File>>, onto: Tree, e: Edit)
    ensures WriteSet(RebaseOne(m, bases, onto, e).0) <= Writes(e) && ReadSet(RebaseOne(m, bases, onto, e).0) <= Reads(e)
  {
    var one := RebaseOne(m, bases, onto, e).0;
    if one != [] {
      assert one == [one[0]] && one[1..] == [];
      assert WriteSet(one) == Writes(one[0]) + WriteSet([]) && ReadSet(one) == Reads(one[0]) + ReadSet([]);
    }
  }

  lemma {:induction false} RebaseWrites(m: Merger, bases: map<Path, Option<File>>, onto: Tree, edits: seq<Edit>)
    ensures WriteSet(Rebased(m, bases, onto, edits)) <= WriteSet(edits)
    decreases |edits|
  {
    if edits != [] {
      RebaseWrites(m, bases, onto, edits[1..]);
      FootprintConcat(RebaseOne(m, bases, onto, edits[0]).0, Rebased(m, bases, onto, edits[1..]));
      OneWrites(m, bases, onto, edits[0]);
    }
  }

  /** Every conflict of an edit is reported. */
  lemma {:induction false} ReportedHas(m: Merger, bases: map<Path, Option<File>>, onto: Tree, edits: seq<Edit>, i: nat,
                                       c: Conflict)
    requires i < |edits| && c in RebaseOne(m, bases, onto, edits[i]).1
    ensures c in Reported(m, bases, onto, edits)
    decreases |edits|
  {
    if i > 0 {
      assert edits[1..][i - 1] == edits[i];
      ReportedHas(m, bases, onto, edits[1..], i - 1, c);
    }
  }

  /** At a path edit i writes, the rebased edits do what edit i alone became. */
  lemma {:induction false} RebasedLands(m: Merger, bases: map<Path, Option<File>>, onto: Tree, t: Tree,
                                        edits: seq<Edit>, i: nat, p: Path)
    requires Plain(edits) && i < |edits| && p in Writes(edits[i])
    requires ApplyEdits(t, Rebased(m, bases, onto, edits)).Some?
    ensures var one := RebaseOne(m, bases, onto, edits[i]).0;
      && ApplyEdits(t, one).Some?
      && Get(ApplyEdits(t, Rebased(m, bases, onto, edits)).value, p) == Get(ApplyEdits(t, one).value, p)
    decreases |edits|
  {
    var one, rest := RebaseOne(m, bases, onto, edits[0]).0, Rebased(m, bases, onto, edits[1..]);
    ApplyConcat(t, one, rest);
    var t1 := ApplyEdits(t, one).value;
    RebaseWrites(m, bases, onto, edits[1..]);
    OneWrites(m, bases, onto, edits[0]);
    if i == 0 {
      forall j | 0 <= j < |edits[1..]| ensures p !in Writes(edits[1..][j]) { assert edits[1..][j] == edits[j + 1]; }
      WriteSetIs(edits[1..], p);
      ApplyFrame(t1, rest, p);
    } else {
      assert Plain(edits[1..]);
      RebasedLands(m, bases, onto, t1, edits[1..], i - 1, p);
      var mine := RebaseOne(m, bases, onto, edits[i]).0;
      OneWrites(m, bases, onto, edits[i]);
      forall q | q in Reads(edits[i]) ensures Get(t, q) == Get(t1, q) {
        assert Writes(edits[0]) !! Reads(edits[i]);
        ApplyFrame(t, one, q);
      }
      ApplyAgrees(t, t1, mine, Reads(edits[i]));
    }
  }

  /** A clean line merge of the author's and the upstream change of one file. */
  ghost predicate CleanMerge(m: Merger, base: Tree, onto: Tree, e: Edit, f: Option<File>)
  {
    && e.Upsert? && e.path in base && e.path in onto
    && var (merged, clean) := m.merge(base[e.path].content, e.file.content, onto[e.path].content);
      clean && f == Some(File(merged, e.file.mode))
  }

  /** Upstream already holds what the edit makes of its file; a folder is no file. */
  ghost predicate SameChange(onto: Tree, e: Edit, f: Option<File>)
  {
    || (e.Upsert? && f == Some(e.file) && ContentAt(onto, e.path) == Some(e.file.content))
    || (e.Delete? && f == None && e.path !in onto)
    || (e.Mkdir? && f == Get(onto, e.path))
  }

  /** What may be found at p, which edit e writes, once e has been taken from `base`
      onto `onto`: a conflict was reported; or nothing e reads had changed, and p is
      what the author made it; or upstream had made the same change; or a clean merge. */
  ghost predicate Honest(m: Merger, base: Tree, onto: Tree, e: Edit, conflicts: seq<Conflict>, p: Path, f: Option<File>)
  {
    || (exists c :: c in conflicts && c.path == e.path)
    || (AgreeOn(base, onto, Reads(e)) && ApplyEdit(base, e).Some? && f == Get(ApplyEdit(base, e).value, p))
    || (p == e.path && SameChange(onto, e, f))
    || (p == e.path && CleanMerge(m, base, onto, e, f))
  }

  /** For every path: the rebased edits on the new base leave what the patchset does
      not write as upstream has it, and overwrite nothing silently. */
  lemma RebaseNeverSilent(m: Merger, base: Tree, onto: Tree, edits: seq<Edit>, after: Tree)
    requires Plain(edits) && "" !in ReadSet(edits)
    requires ApplyEdits(onto, Rebased(m, Bases(base, edits), onto, edits)) == Some(after)
    ensures forall p :: p !in WriteSet(edits) ==> Get(after, p) == Get(onto, p)
    ensures forall i, p :: 0 <= i < |edits| && p in Writes(edits[i]) ==>
      Honest(m, base, onto, edits[i], Reported(m, Bases(base, edits), onto, edits), p, Get(after, p))
  {
    var bases := Bases(base, edits);
    var out, conflicts := Rebased(m, bases, onto, edits), Reported(m, bases, onto, edits);
    RebaseWrites(m, bases, onto, edits);
    forall p | p !in WriteSet(edits) ensures Get(after, p) == Get(onto, p) {
      ApplyFrame(onto, out, p);
    }
    forall i, p | 0 <= i < |edits| && p in Writes(edits[i])
      ensures Honest(m, base, onto, edits[i], conflicts, p, Get(after, p))
    {
      ReadsAreRead(edits, i);
      RebasedLands(m, bases, onto, onto, edits, i, p);
      OneIsHonest(m, base, onto, bases, edits[i], p);
      var (one, c) := RebaseOne(m, bases, onto, edits[i]);
      if c != [] { ReportedHas(m, bases, onto, edits, i, c[0]); }
    }
  }

  lemma OneIsHonest(m: Merger, base: Tree, onto: Tree, bases: map<Path, Option<File>>, e: Edit, p: Path)
    requires p in Writes(e) && "" !in Reads(e) && forall q :: q in Reads(e) ==> q in bases && bases[q] == Get(base, q)
    ensures var (one, c) := RebaseOne(m, bases, onto, e);
      && |c| <= 1 && (c != [] ==> c[0].path == e.path)
      && (ApplyEdits(onto, one).Some? ==> Honest(m, base, onto, e, c, p, Get(ApplyEdits(onto, one).value, p)))
  {
    var (one, c) := RebaseOne(m, bases, onto, e);
    if one == [] {
    } else {
      assert one[1..] == [];
      assert ApplyEdits(onto, one) == ApplyEdit(onto, one[0]);
    }
    if c != [] {
      assert c[0] in c;
    } else if one == [e] && AgreeOn(base, onto, Reads(e)) {
      ApplyEditAgrees(base, onto, e, Reads(e));
    }
  }

  lemma {:induction false} RebaseOntoSameBase(m: Merger, onto: Tree, bases: map<Path, Option<File>>, edits: seq<Edit>)
    requires forall p :: p in bases ==> bases[p] == Get(onto, p)
    ensures Rebased(m, bases, onto, edits) == edits && Reported(m, bases, onto, edits) == []
  {
    if edits != [] {
      RebaseOntoSameBase(m, onto, bases, edits[1..]);
    }
  }

  // ---------- When a conflict is reported, and when not ----------

  /** The conflict of one edit between two bases: a moved or copied file that changed at
      either end, a deleted file that upstream changed and kept, or a written file that
      upstream changed to other content, where a side is missing, not mergeable, or the
      merge is not clean. */
  ghost function ClashOf(m: Merger, base: Tree, onto: Tree, e: Edit): Option<Class>
  {
    var was, upstream := Get(base, e.path), Get(onto, e.path);
    match e
    case Mkdir(_) => None
    case Rename(from, _, _) =>
      if was != upstream || Get(base, from) != Get(onto, from) then Some(RenameConflict) else None
    case Copy(from, _) => if was != upstream || Get(base, from) != Get(onto, from) then Some(RenameConflict) else None
    case Delete(_) => if was != upstream && upstream.Some? then Some(ModifyDelete) else None
    case Upsert(p, f) =>
      if was == upstream || ContentAt(onto, p) == Some(f.content) then None
      else if was.None? || upstream.None? then Some(AddDelete)
      else if exists c :: c in {base[p].content, f.content, onto[p].content} && !m.mergeable(c) then Some(Binary)
      else if !m.merge(base[p].content, f.content, onto[p].content).1 then Some(Overlap)
      else None
  }

  lemma OneClashes(m: Merger, base: Tree, onto: Tree, bases: map<Path, Option<File>>, e: Edit)
    requires "" !in Reads(e) && forall q :: q in Reads(e) ==> q in bases && bases[q] == Get(base, q)
    ensures RebaseOne(m, bases, onto, e).1 ==
      match ClashOf(m, base, onto, e) { case None => [] case Some(kind) => [Conflict(e.path, kind)] }
  {
    assert e.path in Reads(e);
    if e.Rename? || e.Copy? {
      assert e.from in Reads(e);
    } else if e.Upsert? && e.path in base && e.path in onto {
      var contents := {base[e.path].content, e.file.content, onto[e.path].content};
      assert base[e.path].content in contents && e.file.content in contents && onto[e.path].content in contents;
    }
  }

  ghost predicate SomeClash(m: Merger, base: Tree, onto: Tree, edits: seq<Edit>, c: Conflict)
  {
    exists i :: 0 <= i < |edits| && edits[i].path == c.path && ClashOf(m, base, onto, edits[i]) == Some(c.kind)
  }

  /** What is reported: exactly the clashes of the edits. */
  lemma {:induction false} ReportedIff(m: Merger, base: Tree, onto: Tree, bases: map<Path, Option<File>>,
                                       edits: seq<Edit>, c: Conflict)
    requires "" !in ReadSet(edits) && forall q :: q in ReadSet(edits) ==> q in bases && bases[q] == Get(base, q)
    ensures c in Reported(m, bases, onto, edits) <==> SomeClash(m, base, onto, edits, c)
    decreases |edits|
  {
    if edits != [] {
      var rest := edits[1..];
      OneClashes(m, base, onto, bases, edits[0]);
      ReportedIff(m, base, onto, bases, rest, c);
      if SomeClash(m, base, onto, rest, c) {
        var i :| 0 <= i < |rest| && rest[i].path == c.path && ClashOf(m, base, onto, rest[i]) == Some(c.kind);
        assert edits[i + 1] == rest[i];
      }
      if SomeClash(m, base, onto, edits, c) {
        var i :| 0 <= i < |edits| && edits[i].path == c.path && ClashOf(m, base, onto, edits[i]) == Some(c.kind);
        assert i > 0 ==> rest[i - 1] == edits[i];
      }
    }
  }

  /** A patchset without clashes can be applied on the new base. */
  lemma {:induction false} CleanApplies(m: Merger, bases: map<Path, Option<File>>, onto: Tree, t: Tree, u: Tree,
                                        edits: seq<Edit>)
    requires Plain(edits) && "" !in ReadSet(edits) && ApplyEdits(t, edits).Some?
    requires Reported(m, bases, onto, edits) == []
    requires forall p :: p in ReadSet(edits) ==> p in bases && bases[p] == Get(t, p) && Get(u, p) == Get(onto, p)
    ensures ApplyEdits(u, Rebased(m, bases, onto, edits)).Some?
    decreases |edits|
  {
    if edits != [] {
      var e, rest := edits[0], edits[1..];
      var one := RebaseOne(m, bases, onto, e).0;
      ApplyConcat(u, one, Rebased(m, bases, onto, rest));
      OneApplies(m, bases, onto, t, u, e);
      OneWrites(m, bases, onto, e);
      var t', u' := ApplyEdit(t, e).value, ApplyEdits(u, one).value;
      forall p | p in ReadSet(rest) ensures Get(t', p) == Get(t, p) && Get(u', p) == Get(u, p) {
        NotWrittenFirst(edits, p);
        ApplyFrame(u, one, p);
      }
      assert Plain(rest) by { assert forall i :: 0 <= i < |rest| ==> rest[i] == edits[i + 1]; }
      CleanApplies(m, bases, onto, t', u', rest);
    }
  }

  lemma OneApplies(m: Merger, bases: map<Path, Option<File>>, onto: Tree, t: Tree, u: Tree, e: Edit)
    requires "" !in Reads(e) && ApplyEdit(t, e).Some? && RebaseOne(m, bases, onto, e).1 == []
    requires forall p :: p in Reads(e) ==> p in bases && bases[p] == Get(t, p) && Get(u, p) == Get(onto, p)
    ensures ApplyEdits(u, RebaseOne(m, bases, onto, e).0).Some?
  {
    var one := RebaseOne(m, bases, onto, e).0;
    if e.Rename? || e.Copy? { assert e.from in Reads(e) && Get(t, e.from) == Get(u, e.from); }
    if one != [] { assert one[1..] == [] && ApplyEdits(u, one) == ApplyEdit(u, one[0]); }
  }

  lemma {:induction false} NotWrittenFirst(edits: seq<Edit>, p: Path)
    requires Plain(edits) && edits != [] && p in ReadSet(edits[1..])
    ensures p !in Writes(edits[0])
  {
    var i := ReadBy(edits[1..], p);
    assert edits[1..][i] == edits[i + 1];
  }

  lemma {:induction false} ReadBy(edits: seq<Edit>, p: Path) returns (i: nat)
    requires p in ReadSet(edits)
    ensures i < |edits| && p in Reads(edits[i])
    decreases |edits|
  {
    if p in Reads(edits[0]) {
      i := 0;
    } else {
      var j := ReadBy(edits[1..], p);
      i := j + 1;
    }
  }

  // ---------- Modes ----------

  /** A file lands with the mode of the edit, whatever was merged: if edit i puts a file at
      its path and no later edit writes there, the tree has the upstream mode there exactly
      when the edit has it. */
  lemma {:induction false} UpstreamModeKept(m: Merger, bases: map<Path, Option<File>>, onto: Tree, t: Tree,
                                            edits: seq<Edit>, i: nat, after: Tree)
    requires i < |edits| && edits[i].Upsert? && forall j :: i < j < |edits| ==> edits[i].path !in Writes(edits[j])
    requires ApplyEdits(t, Rebased(m, bases, onto, edits)) == Some(after)
    ensures var p := edits[i].path;
      && p in after && after[p].mode == edits[i].file.mode
      && (p in onto ==> (after[p].mode == onto[p].mode <==> edits[i].file.mode == onto[p].mode))
    decreases |edits|
  {
    var one, rest := RebaseOne(m, bases, onto, edits[0]).0, Rebased(m, bases, onto, edits[1..]);
    assert forall j :: 0 <= j < |edits[1..]| ==> edits[1..][j] == edits[j + 1];
    ApplyConcat(t, one, rest);
    var t1 := ApplyEdits(t, one).value;
    if i > 0 {
      UpstreamModeKept(m, bases, onto, t1, edits[1..], i - 1, after);
    } else {
      var p := edits[0].path;
      assert one[1..] == [] && ApplyEdits(t, one) == ApplyEdit(t, one[0]);
      assert Get(t1, p) == Some(one[0].file) && one[0].file.mode == edits[0].file.mode;
      RebaseWrites(m, bases, onto, edits[1..]);
      WriteSetIs(edits[1..], p);
      ApplyFrame(t1, rest, p);
      assert Get(after, p) == Get(t1, p);
    }
  }

  /** An upstream change of the mode alone is undone by a clean rebase. */
  lemma ModeChangeIsLost(m: Merger)
    requires m.mergeable("old") && m.mergeable("new") && m.merge("old", "new", "old") == ("new", true)
    ensures var base: Tree, onto: Tree := map["/a/s/run.sh" := File("old", 0x1a4)],
        map["/a/s/run.sh" := File("old", 0x1ed)];
      var edits := [Upsert("/a/s/run.sh", File("new", 0x1a4))];
      Rebased(m, Bases(base, edits), onto, edits) == edits && Reported(m, Bases(base, edits), onto, edits) == []
  {
    var base: Tree, onto: Tree := map["/a/s/run.sh" := File("old", 0x1a4)], map["/a/s/run.sh" := File("old", 0x1ed)];
    var edits := [Upsert("/a/s/run.sh", File("new", 0x1a4))];
    assert edits[0].path in Reads(edits[0]);
    assert edits[1..] == [];
  }
}
