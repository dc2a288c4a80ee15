/**
  Trees, edits and patchsets (service/diff_validator.go, service/changeset_diff.go,
  internal/treestore/tree_edit.go), over a flat map from paths to files.

  Content hashes and tree ids are names for what they hash, so equal hashes are
  equal contents and equal tree ids are equal trees.
 */
module Patchsets {
  import opened Options

  type Path = string
  type Hash = string

  datatype File = File(content: Hash, mode: nat)

  type Tree = map<Path, File>

  /** A normalized edit.  A rename may carry content of its own (`own`). */
  datatype Edit =
    | Upsert(path: Path, file: File)
    | Delete(path: Path)
    | Rename(from: Path, path: Path, own: Option<File>)
    | Copy(from: Path, path: Path)
    | Mkdir(path: Path)

  function Get(t: Tree, p: Path): Option<File>
  {
    if p in t then Some(t[p]) else None
  }

  // ---------- Footprints ----------

  function Writes(e: Edit): set<Path>
  {
    if e.Rename? then {e.path, e.from} else {e.path}
  }

  function Reads(e: Edit): set<Path>
  {
    if e.Rename? || e.Copy? then {e.path, e.from} else {e.path}
  }

  /** The paths the validator reports as affected: the write set. */
  function WriteSet(edits: seq<Edit>): (ps: set<Path>)
  {
    if edits == [] then {} else Writes(edits[0]) + WriteSet(edits[1..])
  }

  /** The paths that get a path base: the write set and the sources of copies. */
  function ReadSet(edits: seq<Edit>): (ps: set<Path>)
    ensures WriteSet(edits) <= ps
  {
    if edits == [] then {} else Reads(edits[0]) + ReadSet(edits[1..])
  }

  /** The write set holds what some edit writes. */
  lemma {:induction false} WriteSetIs(edits: seq<Edit>, p: Path)
    ensures p in WriteSet(edits) <==> exists i :: 0 <= i < |edits| && p in Writes(edits[i])
    decreases |edits|
  {
    if edits != [] {
      WriteSetIs(edits[1..], p);
      assert forall i :: 0 <= i < |edits[1..]| ==> edits[1..][i] == edits[i + 1];
      if i :| 0 <= i < |edits| && p in Writes(edits[i]) && i > 0 {
        assert edits[1..][i - 1] == edits[i];
      }
    }
  }

  /** The read set holds what any edit reads. */
  lemma {:induction false} ReadsAreRead(edits: seq<Edit>, i: nat)
    requires i < |edits|
    ensures Reads(edits[i]) <= ReadSet(edits)
    decreases |edits|
  {
    if i > 0 {
      assert edits[1..][i - 1] == edits[i];
      ReadsAreRead(edits[1..], i - 1);
    }
  }

  lemma {:induction false} FootprintConcat(x: seq<Edit>, y: seq<Edit>)
    ensures WriteSet(x + y) == WriteSet(x) + WriteSet(y) && ReadSet(x + y) == ReadSet(x) + ReadSet(y)
    decreases |x|
  {
    if x == [] {
      assert x + y == y;
    } else {
      assert (x + y)[0] == x[0] && (x + y)[1..] == x[1..] + y;
      FootprintConcat(x[1..], y);
    }
  }

  ghost predicate AgreeOn(t: Tree, t': Tree, ps: set<Path>)
  {
    forall p :: p in ps ==> Get(t, p) == Get(t', p)
  }

  /** Two trees that hold the same file at every path are the same tree. */
  lemma TreeExtensional(t: Tree, t': Tree)
    requires forall p :: Get(t, p) == Get(t', p)
    ensures t == t'
  {
    assert forall p :: p in t <==> Get(t, p).Some?;
    assert forall p :: p in t' <==> Get(t', p).Some?;
  }

  // ---------- Landing edits, in order ----------

  /** One edit on a tree; a rename or copy of a file that is not there fails. */
  function ApplyEdit(t: Tree, e: Edit): (r: Option<Tree>)
  {
    match e
    case Upsert(p, f) => Some(t[p := f])
    case Delete(p) => Some(t - {p})
    case Rename(from, p, _) => if from in t then Some((t - {from})[p := t[from]]) else None
    case Copy(from, p) => if from in t then Some(t[p := t[from]]) else None
    case Mkdir(_) => Some(t)
  }

  function ApplyEdits(t: Tree, edits: seq<Edit>): (r: Option<Tree>)
    decreases |edits|
  {
    if edits == [] then Some(t)
    else match ApplyEdit(t, edits[0]) case None => None case Some(t') => ApplyEdits(t', edits[1..])
  }

  lemma ApplyEditAgrees(t: Tree, t': Tree, e: Edit, ps: set<Path>)
    requires AgreeOn(t, t', ps) && Reads(e) <= ps
    ensures ApplyEdit(t, e).Some? == ApplyEdit(t', e).Some?
    ensures ApplyEdit(t, e).Some? ==> AgreeOn(ApplyEdit(t, e).value, ApplyEdit(t', e).value, ps)
  {
    assert forall p :: p in ps ==> Get(t, p) == Get(t', p);
    if e.Rename? || e.Copy? { assert Get(t, e.from) == Get(t', e.from); }
  }

  /** Edits see a tree only through their read set. */
  lemma {:induction false} ApplyAgrees(t: Tree, t': Tree, edits: seq<Edit>, ps: set<Path>)
    requires AgreeOn(t, t', ps) && ReadSet(edits) <= ps
    ensures ApplyEdits(t, edits).Some? == ApplyEdits(t', edits).Some?
    ensures ApplyEdits(t, edits).Some? ==> AgreeOn(ApplyEdits(t, edits).value, ApplyEdits(t', edits).value, ps)
    decreases |edits|
  {
    if edits != [] {
      ApplyEditAgrees(t, t', edits[0], ps);
      if ApplyEdit(t, edits[0]).Some? {
        ApplyAgrees(ApplyEdit(t, edits[0]).value, ApplyEdit(t', edits[0]).value, edits[1..], ps);
      }
    }
  }

  /** Edits leave everything outside their write set as it was. */
  lemma {:induction false} ApplyFrame(t: Tree, edits: seq<Edit>, p: Path)
    requires ApplyEdits(t, edits).Some? && p !in WriteSet(edits)
    ensures Get(ApplyEdits(t, edits).value, p) == Get(t, p)
    decreases |edits|
  {
    if edits != [] {
      ApplyFrame(ApplyEdit(t, edits[0]).value, edits[1..], p);
    }
  }

  /** A patchset's effect depends only on its footprint. */
  lemma EffectIsFootprint(t: Tree, t': Tree, edits: seq<Edit>)
    requires AgreeOn(t, t', ReadSet(edits))
    ensures ApplyEdits(t, edits).Some? == ApplyEdits(t', edits).Some?
    ensures ApplyEdits(t, edits).Some? ==>
      && AgreeOn(ApplyEdits(t, edits).value, ApplyEdits(t', edits).value, WriteSet(edits))
      && (forall p :: p !in WriteSet(edits) ==> Get(ApplyEdits(t, edits).value, p) == Get(t, p))
  {
    ApplyAgrees(t, t', edits, ReadSet(edits));
    if ApplyEdits(t, edits).Some? {
      forall p | p !in WriteSet(edits) ensures Get(ApplyEdits(t, edits).value, p) == Get(t, p) {
        ApplyFrame(t, edits, p);
      }
    }
  }

  function Then(r: Option<Tree>, edits: seq<Edit>): Option<Tree>
  {
    match r case None => None case Some(t) => ApplyEdits(t, edits)
  }

  /** Neither patchset writes what the other reads. */
  predicate Independent(x: seq<Edit>, y: seq<Edit>)
  {
    WriteSet(x) !! ReadSet(y) && WriteSet(y) !! ReadSet(x)
  }

  /** What `y` does is the same whether or not an independent `x` landed first. */
  lemma LandsTheSame(t: Tree, x: seq<Edit>, y: seq<Edit>)
    requires WriteSet(x) !! ReadSet(y) && ApplyEdits(t, x).Some?
    ensures ApplyEdits(t, y).Some? == ApplyEdits(ApplyEdits(t, x).value, y).Some?
    ensures ApplyEdits(t, y).Some? ==>
      AgreeOn(ApplyEdits(t, y).value, ApplyEdits(ApplyEdits(t, x).value, y).value, WriteSet(y))
  {
    var tx := ApplyEdits(t, x).value;
    forall p | p in ReadSet(y) ensures Get(t, p) == Get(tx, p) { ApplyFrame(t, x, p); }
    EffectIsFootprint(t, tx, y);
  }

  /** Independent patchsets that can each land do so in either order, to the same tree. */
  lemma IndependentCommute(t: Tree, x: seq<Edit>, y: seq<Edit>)
    requires Independent(x, y) && ApplyEdits(t, x).Some? && ApplyEdits(t, y).Some?
    ensures Then(ApplyEdits(t, x), y).Some? && Then(ApplyEdits(t, x), y) == Then(ApplyEdits(t, y), x)
  {
    LandsTheSame(t, x, y);
    LandsTheSame(t, y, x);
    var tx, ty := ApplyEdits(t, x).value, ApplyEdits(t, y).value;
    var xy, yx := ApplyEdits(tx, y).value, ApplyEdits(ty, x).value;
    forall p ensures Get(xy, p) == Get(yx, p) {
      if p in WriteSet(x) {
        ApplyFrame(tx, y, p);
        assert Get(tx, p) == Get(yx, p);
      } else if p in WriteSet(y) {
        ApplyFrame(ty, x, p);
        assert Get(ty, p) == Get(xy, p);
      } else {
        ApplyFrame(tx, y, p);
        ApplyFrame(ty, x, p);
        ApplyFrame(t, x, p);
        ApplyFrame(t, y, p);
      }
    }
    TreeExtensional(xy, yx);
  }

  // ---------- What a patchset gives at one path ----------

  function ContentAt(t: Tree, p: Path): Option<Hash>
  {
    if p in t then Some(t[p].content) else None
  }

  /** The edit brings content of its own to p. */
  predicate Brings(e: Edit, p: Path)
  {
    e.path == p && (e.Upsert? || (e.Rename? && e.own.Some?))
  }

  function Brought(e: Edit): Hash
    requires e.Upsert? || (e.Rename? && e.own.Some?)
  {
    if e.Upsert? then e.file.content else e.own.value.content
  }

  /** The edit decides p from the base: removes it, or fills it from another path. */
  predicate Decides(e: Edit, p: Path)
  {
    (e.path == p && (e.Delete? || e.Copy? || e.Rename?)) || (e.Rename? && e.from == p)
  }

  function Decided(base: Tree, e: Edit, p: Path): Option<Hash>
  {
    if e.path == p && (e.Copy? || e.Rename?) then ContentAt(base, e.from) else None
  }

  ghost predicate FirstBringing(edits: seq<Edit>, p: Path, i: int)
  {
    0 <= i < |edits| && Brings(edits[i], p) && forall j :: 0 <= j < i ==> !Brings(edits[j], p)
  }

  ghost predicate LastDeciding(edits: seq<Edit>, p: Path, i: int)
  {
    0 <= i < |edits| && Decides(edits[i], p) && forall j :: i < j < |edits| ==> !Decides(edits[j], p)
  }

  /** What a patchset gives at p: the first content brought to p, else what the last
      edit that decides p takes from the base, else the base's file. */
  ghost function EffectAt(base: Tree, edits: seq<Edit>, p: Path): Option<Hash>
  {
    if i :| FirstBringing(edits, p, i) then Some(Brought(edits[i]))
    else if i :| LastDeciding(edits, p, i) then Decided(base, edits[i], p)
    else ContentAt(base, p)
  }

  /** Lines 193 to 240 of service/changeset_diff.go. */
  method PatchsetFile(base: Tree, edits: seq<Edit>, p: Path) returns (r: Option<Hash>)
    ensures r == EffectAt(base, edits, p)
  {
    var file: Option<Hash> := None;
    var fileSet := false;
    ghost var last := -1;
    for k := 0 to |edits|
      invariant forall i :: 0 <= i < k ==> !Brings(edits[i], p)
      invariant fileSet ==> 0 <= last < k && Decides(edits[last], p) && file == Decided(base, edits[last], p)
      invariant forall i :: last < i < k ==> !Decides(edits[i], p)
      invariant !fileSet ==> last == -1
    {
      var edit := edits[k];
      match edit {
        case Delete(q) =>
          if q == p { file, fileSet, last := None, true, k; }
        case Copy(from, q) =>
          if q == p { file, fileSet, last := ContentAt(base, from), true, k; }
        case Rename(from, q, own) =>
          if from == p { file, fileSet, last := None, true, k; }
          if q == p {
            if own.Some? {
              assert FirstBringing(edits, p, k);
              return Some(own.value.content);
            }
            file, fileSet, last := ContentAt(base, from), true, k;
          }
        case Upsert(q, f) =>
          if q == p {
            assert FirstBringing(edits, p, k);
            return Some(f.content);
          }
        case Mkdir(_) =>
      }
    }
    if !fileSet { return ContentAt(base, p); }
    assert LastDeciding(edits, p, last);
    return file;
  }

  /** The same footprint theorem for the per-path form. */
  lemma EffectAtIsFootprint(base: Tree, base': Tree, edits: seq<Edit>, p: Path)
    requires AgreeOn(base, base', ReadSet(edits))
    ensures p in WriteSet(edits) ==> EffectAt(base, edits, p) == EffectAt(base', edits, p)
    ensures p !in WriteSet(edits) ==> EffectAt(base, edits, p) == ContentAt(base, p)
  {
    WriteSetIs(edits, p);
    forall i | 0 <= i < |edits|
      ensures Brings(edits[i], p) || Decides(edits[i], p) ==> p in Writes(edits[i])
      ensures Decides(edits[i], p) ==> Decided(base, edits[i], p) == Decided(base', edits[i], p)
    {
      DecidedAgrees(base, base', edits, i, p);
    }
    assert p in WriteSet(edits) ==> Get(base, p) == Get(base', p);
  }

  lemma DecidedAgrees(base: Tree, base': Tree, edits: seq<Edit>, i: nat, p: Path)
    requires AgreeOn(base, base', ReadSet(edits)) && i < |edits|
    ensures Brings(edits[i], p) || Decides(edits[i], p) ==> p in Writes(edits[i])
    ensures Decides(edits[i], p) ==> Decided(base, edits[i], p) == Decided(base', edits[i], p)
  {
    ReadsAreRead(edits, i);
    if edits[i].Copy? || edits[i].Rename? {
      assert edits[i].from in Reads(edits[i]);
      assert Get(base, edits[i].from) == Get(base', edits[i].from);
    }
  }

  /** No edit touches what an earlier one wrote. */
  ghost predicate Plain(edits: seq<Edit>)
  {
    forall i, j :: 0 <= i < j < |edits| ==> Writes(edits[i]) !! Reads(edits[j])
  }

  /** Every rename that carries content carries the content it moves. */
  ghost predicate CarriesWhatItMoves(t: Tree, edits: seq<Edit>)
  {
    forall i :: 0 <= i < |edits| && edits[i].Rename? && edits[i].own.Some? ==>
      ContentAt(t, edits[i].from) == Some(edits[i].own.value.content)
  }

  lemma {:induction false} PlainLands(t: Tree, edits: seq<Edit>, i: nat, p: Path)
    requires Plain(edits) && i < |edits| && p in Writes(edits[i]) && ApplyEdits(t, edits).Some?
    ensures ApplyEdit(t, edits[i]).Some?
    ensures Get(ApplyEdits(t, edits).value, p) == Get(ApplyEdit(t, edits[i]).value, p)
    decreases |edits|
  {
    var t1 := ApplyEdit(t, edits[0]).value;
    if i == 0 {
      assert forall j :: 0 <= j < |edits[1..]| ==> edits[1..][j] == edits[j + 1];
      WriteSetIs(edits[1..], p);
      ApplyFrame(t1, edits[1..], p);
    } else {
      assert Plain(edits[1..]);
      PlainLands(t1, edits[1..], i - 1, p);
      assert Writes(edits[0]) !! Reads(edits[i]);
      assert AgreeOn(t, t1, Reads(edits[i]));
      ApplyEditAgrees(t, t1, edits[i], Reads(edits[i]));
    }
  }

  /** What the per-path form shows and what landing gives at a path edit i writes. */
  lemma PlainShows(t: Tree, edits: seq<Edit>, i: nat, p: Path)
    requires Plain(edits) && i < |edits| && p in Writes(edits[i]) && ApplyEdits(t, edits).Some?
    ensures EffectAt(t, edits, p) == (if Brings(edits[i], p) then Some(Brought(edits[i]))
                                      else if edits[i].Mkdir? then ContentAt(t, p) else Decided(t, edits[i], p))
    ensures ContentAt(ApplyEdits(t, edits).value, p) ==
      (if edits[i].Upsert? then Some(edits[i].file.content)
       else if edits[i].Mkdir? then ContentAt(t, p) else Decided(t, edits[i], p))
  {
    assert forall j :: 0 <= j < |edits| && j != i ==> p !in Writes(edits[j]) by {
      forall j | 0 <= j < |edits| && j != i ensures p !in Writes(edits[j]) {
        assert j < i ==> Writes(edits[j]) !! Reads(edits[i]);
        assert i < j ==> Writes(edits[i]) !! Reads(edits[j]);
      }
    }
    PlainLands(t, edits, i, p);
    assert Brings(edits[i], p) ==> FirstBringing(edits, p, i);
    assert Decides(edits[i], p) ==> LastDeciding(edits, p, i);
    assert Get(ApplyEdits(t, edits).value, p) == Get(ApplyEdit(t, edits[i]).value, p);
  }

  /** The per-path form shows what landing the edits in order gives, at every path,
      exactly when every rename that carries content carries the content it moves. */
  lemma ShownIsLanded(t: Tree, edits: seq<Edit>)
    requires Plain(edits) && ApplyEdits(t, edits).Some?
    requires forall i :: 0 <= i < |edits| && edits[i].Rename? ==> edits[i].from != edits[i].path
    ensures (forall p :: EffectAt(t, edits, p) == ContentAt(ApplyEdits(t, edits).value, p)) <==>
      CarriesWhatItMoves(t, edits)
  {
    forall i | 0 <= i < |edits| && edits[i].Rename? && edits[i].own.Some?
      ensures EffectAt(t, edits, edits[i].path) == Some(edits[i].own.value.content)
      ensures ContentAt(ApplyEdits(t, edits).value, edits[i].path) == ContentAt(t, edits[i].from)
    {
      PlainShows(t, edits, i, edits[i].path);
    }
    if CarriesWhatItMoves(t, edits) {
      forall p ensures EffectAt(t, edits, p) == ContentAt(ApplyEdits(t, edits).value, p) {
        if i :| 0 <= i < |edits| && p in Writes(edits[i]) {
          PlainShows(t, edits, i, p);
        } else {
          WriteSetIs(edits, p);
          ApplyFrame(t, edits, p);
          EffectAtIsFootprint(t, t, edits, p);
        }
      }
    }
  }

  /** A rename that brings its own content is shown with it, and lands without it. */
  lemma RenameWithContentIsLost()
    ensures var base: Tree, edits := map["/a/s/x" := File("1", 420)],
        [Rename("/a/s/x", "/a/s/y", Some(File("2", 420)))];
      && EffectAt(base, edits, "/a/s/y") == Some("2")
      && ApplyEdits(base, edits).Some? && ContentAt(ApplyEdits(base, edits).value, "/a/s/y") == Some("1")
  {
    var edits := [Rename("/a/s/x", "/a/s/y", Some(File("2", 420)))];
    assert FirstBringing(edits, "/a/s/y", 0);
    assert forall i :: FirstBringing(edits, "/a/s/y", i) ==> i == 0;
    var base: Tree := map["/a/s/x" := File("1", 420)];
    var t := ApplyEdit(base, edits[0]).value;
    assert ApplyEdits(t, edits[1..]) == Some(t);
  }
}
