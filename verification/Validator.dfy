/**
  The validator of a patchset's edits (service/diff_validator.go): what it writes, what it
  reads and what the base holds there.
 */
module Validator {
  import opened Options
  import opened Patchsets

  /** The paths a slice includes, and the ones it may read besides. */
  datatype Slice = Slice(includes: Path -> bool, mayRead: Path -> bool)

  datatype Refusal = Outside(path: Path) | SourceOutside(path: Path) | NoSource(path: Path)

  datatype Footprint = Footprint(writeSet: set<Path>, readSet: set<Path>, bases: map<Path, Option<File>>)

  /** The edit stays within the slice. */
  predicate Within(slice: Slice, e: Edit)
  {
    match e
    case Copy(from, p) => (slice.includes(from) || slice.mayRead(from)) && slice.includes(p)
    case Rename(from, p, _) => slice.includes(p) && slice.includes(from)
    case _ => slice.includes(e.path)
  }

  /** Every edit stays within the slice, and what is copied and not written is there. */
  ghost predicate Admissible(slice: Slice, base: Tree, edits: seq<Edit>)
  {
    && (forall i :: 0 <= i < |edits| ==> Within(slice, edits[i]))
    && (forall p :: p in ReadSet(edits) - WriteSet(edits) ==> p in base)
  }

  /** Lines 48 to 71: the paths written and the sources of copies. */
  method Collect(slice: Slice, edits: seq<Edit>)
    returns (refusal: Option<Refusal>, changed: set<Path>, readOnly: set<Path>)
    ensures refusal.None? <==> forall i :: 0 <= i < |edits| ==> Within(slice, edits[i])
    ensures refusal.None? ==> changed == WriteSet(edits) && changed + readOnly == ReadSet(edits)
  {
    changed, readOnly := {}, {};
    for i := 0 to |edits|
      invariant forall j :: 0 <= j < i ==> Within(slice, edits[j])
      invariant changed == WriteSet(edits[..i]) && changed + readOnly == ReadSet(edits[..i])
    {
      var edit := edits[i];
      assert edits[..i + 1] == edits[..i] + [edit];
      FootprintConcat(edits[..i], [edit]);
      assert WriteSet([edit]) == Writes(edit) && ReadSet([edit]) == Reads(edit);
      if edit.Copy? {
        if !slice.includes(edit.from) && !slice.mayRead(edit.from) {
          return Some(SourceOutside(edit.from)), changed, readOnly;
        }
        readOnly := readOnly + {edit.from};
        if !slice.includes(edit.path) {
          return Some(Outside(edit.path)), changed, readOnly;
        }
        changed := changed + {edit.path};
        continue;
      }
      if !slice.includes(edit.path) {
        return Some(Outside(edit.path)), changed, readOnly;
      }
      changed := changed + {edit.path};
      if edit.Rename? {
        if !slice.includes(edit.from) {
          return Some(Outside(edit.from)), changed, readOnly;
        }
        changed := changed + {edit.from};
      }
    }
    assert edits[..|edits|] == edits;
    refusal := None;
  }

  /** `validateFileEditsReading`: refuses exactly what is not admissible, and records the write
      set, the read set and what the base holds on the read set. */
  method Validate(slice: Slice, base: Tree, edits: seq<Edit>) returns (r: Result<Footprint, Refusal>)
    ensures r.Ok? <==> Admissible(slice, base, edits)
    ensures r.Ok? ==> r.value.writeSet == WriteSet(edits) && r.value.readSet == ReadSet(edits)
    ensures r.Ok? ==> r.value.bases.Keys == ReadSet(edits) && forall p :: p in r.value.bases ==>
      r.value.bases[p] == Get(base, p)
  {
    var refusal, changed, readOnly := Collect(slice, edits);
    if refusal.Some? {
      return Err(refusal.value);
    }
    var missing, sources := CheckSources(base, readOnly - changed);
    assert readOnly - changed == ReadSet(edits) - WriteSet(edits);
    if missing.Some? {
      return Err(NoSource(missing.value));
    }
    var written := map p | p in changed :: Get(base, p);
    var readSet := changed + (readOnly - changed);
    assert readSet == ReadSet(edits);
    r := Ok(Footprint(changed, readSet, written + sources));
  }

  /** Lines 104 to 113: the bases of the sources of copies, all of which are there, or one that
      is not. */
  method CheckSources(base: Tree, sources: set<Path>) returns (missing: Option<Path>, bases: map<Path, Option<File>>)
    ensures missing.Some? ==> missing.value in sources && missing.value !in base
    ensures missing.None? ==> sources <= base.Keys && bases.Keys == sources && forall p :: p in bases ==>
      bases[p] == Get(base, p)
  {
    bases := map[];
    var todo := sources;
    while todo != {}
      invariant bases.Keys + todo == sources && forall p :: p in bases ==> p in base && bases[p] == Get(base, p)
      decreases |todo|
    {
      var p :| p in todo;
      if p !in base {
        return Some(p), bases;
      }
      bases := bases[p := Get(base, p)];
      todo := todo - {p};
    }
    missing := None;
  }
}
