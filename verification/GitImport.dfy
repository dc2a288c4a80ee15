/**
  Importing a Git history under a mount path, commit by commit (service/git_import.go,
  service/git_snapshots.go, service/git_cli.go): the first commit as a difference from what
  the mount holds, every later one as Git's own difference from the commit before.
 */
module GitImport {
  import opened Options
  import opened Patchsets

  datatype Node = Blob(id: string, mode: nat) | Gitlink(id: string)

  /** The leaves of a commit's tree, by path inside the repository. */
  type Commit = map<Path, Node>

  /** `content`: the content hash of a Git blob.  `diffTree`: the tokens of
      `git diff-tree -r -z --name-status --find-renames`. */
  datatype Git = Git(content: string -> Hash, diffTree: (Commit, Commit) -> seq<string>)

  // ---------- Mounted paths ----------

  function At(mount: Path, g: Path): (p: Path)
    ensures mount + "/" <= p && p[|mount| + 1..] == g
  {
    mount + "/" + g
  }

  predicate Under(mount: Path, p: Path)
  {
    mount + "/" <= p
  }

  lemma UnderIsAt(mount: Path, p: Path)
    requires Under(mount, p)
    ensures At(mount, p[|mount| + 1..]) == p
  {
  }

  function FileAt(git: Git, c: Commit, g: Path): Option<File>
  {
    if g in c && c[g].Blob? then Some(File(git.content(c[g].id), c[g].mode)) else None
  }

  /** The tree holds the files of the commit under the mount. */
  ghost predicate Mounted(git: Git, t: Tree, mount: Path, c: Commit)
  {
    forall g :: Get(t, At(mount, g)) == FileAt(git, c, g)
  }

  ghost predicate SameElsewhere(t: Tree, t': Tree, mount: Path)
  {
    forall p :: !Under(mount, p) ==> Get(t', p) == Get(t, p)
  }

  // ---------- Edits that name a path once ----------

  function Outcome(e: Edit): Option<File>
  {
    if e.Upsert? then Some(e.file) else None
  }

  ghost predicate Mentions(edits: seq<Edit>, p: Path)
  {
    exists i :: 0 <= i < |edits| && edits[i].path == p
  }

  ghost predicate NamedOnce(edits: seq<Edit>)
  {
    && (forall i :: 0 <= i < |edits| ==> edits[i].Upsert? || edits[i].Delete?)
    && (forall i, j :: 0 <= i < j < |edits| ==> edits[i].path != edits[j].path)
  }

  lemma {:induction false} ApplyOnce(t: Tree, edits: seq<Edit>, p: Path)
    requires NamedOnce(edits)
    ensures ApplyEdits(t, edits).Some?
    ensures forall i :: 0 <= i < |edits| && edits[i].path == p ==>
      Get(ApplyEdits(t, edits).value, p) == Outcome(edits[i])
    ensures !Mentions(edits, p) ==> Get(ApplyEdits(t, edits).value, p) == Get(t, p)
    decreases |edits|
  {
    if edits != [] {
      var e, rest := edits[0], edits[1..];
      assert forall i :: 0 <= i < |rest| ==> rest[i] == edits[i + 1];
      ApplyOnce(ApplyEdit(t, e).value, rest, p);
      if e.path == p {
        assert !Mentions(rest, p);
      } else if Mentions(rest, p) {
        var i :| 0 <= i < |rest| && rest[i].path == p;
        assert edits[i + 1].path == p;
      }
      forall i | 0 <= i < |edits| && edits[i].path == p
        ensures Get(ApplyEdits(t, edits).value, p) == Outcome(edits[i])
      {
        assert i > 0 ==> edits[i] == rest[i - 1];
      }
    }
  }

  /** The edits name paths under the mount, each once, give each what it holds in the commit,
      and name every path at which the tree holds something else. */
  ghost predicate Takes(git: Git, edits: seq<Edit>, t: Tree, mount: Path, c: Commit)
  {
    && NamedOnce(edits)
    && (forall i :: 0 <= i < |edits| ==>
          Under(mount, edits[i].path) && Outcome(edits[i]) == FileAt(git, c, edits[i].path[|mount| + 1..]))
    && (forall g :: Get(t, At(mount, g)) != FileAt(git, c, g) ==> Mentions(edits, At(mount, g)))
  }

  lemma TakesApply(git: Git, edits: seq<Edit>, t: Tree, mount: Path, c: Commit)
    requires Takes(git, edits, t, mount, c)
    ensures ApplyEdits(t, edits).Some?
    ensures Mounted(git, ApplyEdits(t, edits).value, mount, c) && SameElsewhere(t, ApplyEdits(t, edits).value, mount)
  {
    ApplyOnce(t, edits, "");
    forall g
      ensures Get(ApplyEdits(t, edits).value, At(mount, g)) == FileAt(git, c, g)
    {
      ApplyOnce(t, edits, At(mount, g));
      if Mentions(edits, At(mount, g)) {
        var i :| 0 <= i < |edits| && edits[i].path == At(mount, g);
        assert Outcome(edits[i]) == FileAt(git, c, g);
      }
    }
    forall p | !Under(mount, p)
      ensures Get(ApplyEdits(t, edits).value, p) == Get(t, p)
    {
      ApplyOnce(t, edits, p);
    }
  }

  // ---------- Reading a commit, with the blobs already read ----------

  /** Every blob remembered has its own content. */
  ghost predicate Known(git: Git, known: map<string, Hash>)
  {
    forall id :: id in known ==> known[id] == git.content(id)
  }

  /** The files found at some of the paths. */
  ghost predicate IsSnapshot(git: Git, c: Commit, mount: Path, paths: set<Path>, s: Tree)
  {
    && (forall p :: p in s ==> Under(mount, p))
    && (forall g :: Get(s, At(mount, g)) == if g in paths then FileAt(git, c, g) else None)
  }

  /** `gitSnapshotFromTreeRecords`: whatever is remembered, the files are those of the
      commit, and what is remembered stays true. */
  method Snapshot(git: Git, c: Commit, mount: Path, paths: set<Path>, known0: map<string, Hash>)
    returns (s: Tree, known: map<string, Hash>)
    requires Known(git, known0)
    ensures IsSnapshot(git, c, mount, paths, s) && Known(git, known)
  {
    s, known := map[], known0;
    var todo := paths;
    while todo != {}
      invariant todo <= paths && Known(git, known) && IsSnapshot(git, c, mount, paths - todo, s)
      decreases |todo|
    {
      var g :| g in todo;
      ghost var before := s;
      if g in c && c[g].Blob? {
        var id := c[g].id;
        if id !in known {
          known := known[id := git.content(id)];
        }
        s := s[At(mount, g) := File(known[id], c[g].mode)];
      }
      SnapshotAdd(git, c, mount, paths - todo, before, g, s);
      assert paths - (todo - {g}) == (paths - todo) + {g};
      todo := todo - {g};
    }
    assert paths - {} == paths;
  }

  lemma SnapshotAdd(git: Git, c: Commit, mount: Path, done: set<Path>, s: Tree, g: Path, s': Tree)
    requires IsSnapshot(git, c, mount, done, s)
    requires s' == if g in c && c[g].Blob? then s[At(mount, g) := File(git.content(c[g].id), c[g].mode)] else s
    ensures IsSnapshot(git, c, mount, done + {g}, s')
  {
    AtIsInjective(mount, g);
  }

  lemma AtIsInjective(mount: Path, g: Path)
    ensures forall h :: h != g ==> At(mount, h) != At(mount, g)
  {
  }

  // ---------- The difference from what the mount holds ----------

  /** The edits name exactly the paths among `done` at which the two differ, each once, with
      what the second holds. */
  ghost predicate Differs(edits: seq<Edit>, previous: Tree, current: Tree, done: set<Path>)
  {
    && NamedOnce(edits)
    && (forall i :: 0 <= i < |edits| ==>
          edits[i].path in done && Get(previous, edits[i].path) != Get(current, edits[i].path) == Outcome(edits[i]))
    && (forall p :: p in done && Get(previous, p) != Get(current, p) ==> Mentions(edits, p))
  }

  lemma DiffersAdd(edits: seq<Edit>, previous: Tree, current: Tree, done: set<Path>, p: Path, e: Edit)
    requires Differs(edits, previous, current, done) && p !in done && e.path == p && (e.Upsert? || e.Delete?)
    requires Get(previous, p) != Get(current, p) == Outcome(e)
    ensures Differs(edits + [e], previous, current, done + {p})
  {
    var out := edits + [e];
    assert out[|edits|] == e;
    assert forall i :: 0 <= i < |edits| ==> out[i] == edits[i];
    forall q | q in done + {p} && Get(previous, q) != Get(current, q)
      ensures Mentions(out, q)
    {
      if q != p {
        var i :| 0 <= i < |edits| && edits[i].path == q;
        assert out[i].path == q;
      }
    }
  }

  /** `diffImportSnapshots`. */
  method DiffSnapshots(previous: Tree, current: Tree) returns (edits: seq<Edit>)
    ensures Differs(edits, previous, current, previous.Keys + current.Keys)
  {
    edits := [];
    var seen := previous.Keys + current.Keys;
    var todo := seen;
    while todo != {}
      invariant todo <= seen && Differs(edits, previous, current, seen - todo)
      decreases |todo|
    {
      var p :| p in todo;
      ghost var done := seen - todo;
      todo := todo - {p};
      assert seen - todo == done + {p};
      if p !in current {
        DiffersAdd(edits, previous, current, done, p, Delete(p));
        edits := edits + [Delete(p)];
      } else if p !in previous || previous[p].content != current[p].content || previous[p].mode != current[p].mode {
        DiffersAdd(edits, previous, current, done, p, Upsert(p, current[p]));
        edits := edits + [Upsert(p, current[p])];
      }
    }
    assert seen - todo == seen;
  }

  /** The first import: from what the mount holds to the commit. */
  lemma DifferenceTakes(git: Git, edits: seq<Edit>, t: Tree, previous: Tree, current: Tree, mount: Path, c: Commit)
    requires Differs(edits, previous, current, previous.Keys + current.Keys)
    requires forall p :: p in previous ==> Under(mount, p)
    requires forall g :: Get(previous, At(mount, g)) == Get(t, At(mount, g))
    requires IsSnapshot(git, c, mount, c.Keys, current)
    ensures Takes(git, edits, t, mount, c)
  {
    forall i | 0 <= i < |edits|
      ensures Under(mount, edits[i].path) && Outcome(edits[i]) == FileAt(git, c, edits[i].path[|mount| + 1..])
    {
      assert edits[i].path in previous.Keys + current.Keys;
      UnderIsAt(mount, edits[i].path);
    }
    forall g | Get(t, At(mount, g)) != FileAt(git, c, g)
      ensures Mentions(edits, At(mount, g))
    {
      assert Get(previous, At(mount, g)) != Get(current, At(mount, g));
    }
  }

  // ---------- Git's difference ----------

  /** A record of the difference.  Git writes one path, except for a rename. */
  datatype Record =
    | Changed(status: string, path: Path)
    | Deleted(status: string, path: Path)
    | Renamed(status: string, from: Path, path: Path)

  predicate IsRecord(r: Record)
  {
    |r.status| > 0 && match r
    case Changed(status, _) => status[0] == 'A' || status[0] == 'M' || status[0] == 'T'
    case Deleted(status, _) => status[0] == 'D'
    case Renamed(status, _, _) => status[0] == 'R'
  }

  function Encode(records: seq<Record>): seq<string>
  {
    if records == [] then [""]
    else
      (match records[0] case Renamed(s, from, p) => [s, from, p] case r => [r.status, r.path]) + Encode(records[1..])
  }

  function DeletedBy(records: seq<Record>): set<Path>
  {
    if records == [] then {}
    else (match records[0] case Deleted(_, p) => {p} case Renamed(_, from, _) => {from} case _ => {})
         + DeletedBy(records[1..])
  }

  function UpsertedBy(records: seq<Record>): set<Path>
  {
    if records == [] then {}
    else (if records[0].Deleted? then {} else {records[0].path}) + UpsertedBy(records[1..])
  }

  datatype ParseError = Malformed(status: string) | Unsupported(status: string)

  /** What the tokens say, added to what was said before. */
  function Parsed(tokens: seq<string>, deleted: set<Path>,
                  upserted: set<Path>): (r: Result<(set<Path>, set<Path>), ParseError>)
    decreases |tokens|
  {
    if tokens == [] then Ok((deleted, upserted))
    else if tokens[0] == "" then Parsed(tokens[1..], deleted, upserted)
    else
      var kind := tokens[0][0];
      if kind == 'A' || kind == 'C' || kind == 'M' || kind == 'T' then
        if |tokens| < 2 then Err(Malformed(tokens[0])) else Parsed(tokens[2..], deleted, upserted + {tokens[1]})
      else if kind == 'D' then
        if |tokens| < 2 then Err(Malformed(tokens[0])) else Parsed(tokens[2..], deleted + {tokens[1]}, upserted)
      else if kind == 'R' then
        if |tokens| < 3 then Err(Malformed(tokens[0]))
        else Parsed(tokens[3..], deleted + {tokens[1]}, upserted + {tokens[2]})
      else Err(Unsupported(tokens[0]))
  }

  /** `parseGitDiffNameStatus`. */
  method Parse(tokens: seq<string>) returns (r: Result<(set<Path>, set<Path>), ParseError>)
    ensures Parsed(tokens, {}, {}).Err? ==> r == Err(Parsed(tokens, {}, {}).error)
    ensures Parsed(tokens, {}, {}).Ok? ==>
      var (deleted, upserted) := Parsed(tokens, {}, {}).value; r == Ok((deleted - upserted, upserted))
  {
    var deleted: set<Path>, upserted: set<Path> := {}, {};
    var i := 0;
    while i < |tokens|
      invariant i <= |tokens| && Parsed(tokens[i..], deleted, upserted) == Parsed(tokens, {}, {})
    {
      ghost var rest := tokens[i..];
      assert rest[0] == tokens[i] && rest[1..] == tokens[i + 1..];
      if |tokens[i]| == 0 {
        i := i + 1;
        continue;
      }
      var status := tokens[i];
      i := i + 1;
      if status[0] == 'A' || status[0] == 'C' || status[0] == 'M' || status[0] == 'T' {
        if i >= |tokens| {
          return Err(Malformed(status));
        }
        assert rest[1] == tokens[i] && rest[2..] == tokens[i + 1..];
        upserted := upserted + {tokens[i]};
        i := i + 1;
      } else if status[0] == 'D' {
        if i >= |tokens| {
          return Err(Malformed(status));
        }
        assert rest[1] == tokens[i] && rest[2..] == tokens[i + 1..];
        deleted := deleted + {tokens[i]};
        i := i + 1;
      } else if status[0] == 'R' {
        if i + 1 >= |tokens| {
          return Err(Malformed(status));
        }
        assert rest[1] == tokens[i] && rest[2] == tokens[i + 1] && rest[3..] == tokens[i + 2..];
        deleted := deleted + {tokens[i]};
        upserted := upserted + {tokens[i + 1]};
        i := i + 2;
      } else {
        return Err(Unsupported(status));
      }
    }
    assert tokens[i..] == [];
    r := Ok((deleted - upserted, upserted));
  }

  /** Reading back what Git wrote. */
  lemma {:induction false} ParsedEncode(records: seq<Record>, deleted: set<Path>, upserted: set<Path>)
    requires forall i :: 0 <= i < |records| ==> IsRecord(records[i])
    ensures Parsed(Encode(records), deleted, upserted) ==
      Ok((deleted + DeletedBy(records), upserted + UpsertedBy(records)))
    decreases |records|
  {
    if records == [] {
      assert [""][1..] == [];
      assert deleted + DeletedBy(records) == deleted && upserted + UpsertedBy(records) == upserted;
    } else {
      var r, rest := records[0], records[1..];
      assert IsRecord(r);
      var tokens := Encode(records);
      if r.Renamed? {
        assert tokens[0] == r.status && tokens[1] == r.from && tokens[2] == r.path && tokens[3..] == Encode(rest);
        ParsedEncode(rest, deleted + {r.from}, upserted + {r.path});
        assert deleted + {r.from} + DeletedBy(rest) == deleted + DeletedBy(records);
        assert upserted + {r.path} + UpsertedBy(rest) == upserted + UpsertedBy(records);
      } else {
        assert tokens[0] == r.status && tokens[1] == r.path && tokens[2..] == Encode(rest);
        if r.Deleted? {
          ParsedEncode(rest, deleted + {r.path}, upserted);
          assert deleted + {r.path} + DeletedBy(rest) == deleted + DeletedBy(records);
          assert upserted + UpsertedBy(rest) == upserted + UpsertedBy(records);
        } else {
          ParsedEncode(rest, deleted, upserted + {r.path});
          assert deleted + DeletedBy(rest) == deleted + DeletedBy(records);
          assert upserted + {r.path} + UpsertedBy(rest) == upserted + UpsertedBy(records);
        }
      }
    }
  }

  /** A copy has two paths, like a rename, but one is read: the other is taken for a status. */
  lemma CopyIsMisread(from: Path, to: Path)
    requires |to| > 0 && to[0] !in {'A', 'C', 'M', 'T', 'D', 'R'}
    ensures Parsed(["C100", from, to, ""], {}, {}) == Err(Unsupported(to))
  {
    assert ["C100", from, to, ""][2..] == [to, ""];
  }

  // ---------- The edits of one commit after another ----------

  /** What Git's difference of two commits says: what is written is there, what is deleted
      is gone, and every leaf that differs is named. */
  ghost predicate IsDifference(a: Commit, b: Commit, records: seq<Record>)
  {
    && (forall i :: 0 <= i < |records| ==> IsRecord(records[i]))
    && (forall g :: g in UpsertedBy(records) ==> g in b)
    && (forall g :: g in DeletedBy(records) - UpsertedBy(records) ==> g !in b)
    && (forall g :: (g in a || g in b) && !(g in a && g in b && a[g] == b[g]) ==>
          g in UpsertedBy(records) + DeletedBy(records))
  }

  /** `git diff-tree` prints the difference, or nothing when there is none. */
  ghost predicate Prints(a: Commit, b: Commit, tokens: seq<string>)
  {
    exists records :: IsDifference(a, b, records) && tokens == Encode(records)
  }

  lemma ParsedDifference(a: Commit, b: Commit, tokens: seq<string>) returns (records: seq<Record>)
    requires Prints(a, b, tokens)
    ensures IsDifference(a, b, records)
    ensures Parsed(tokens, {}, {}) == Ok((DeletedBy(records), UpsertedBy(records)))
  {
    records :| IsDifference(a, b, records) && tokens == Encode(records);
    ParsedEncode(records, {}, {});
    assert {} + DeletedBy(records) == DeletedBy(records) && {} + UpsertedBy(records) == UpsertedBy(records);
  }

  /** Some of the paths, with an edit each. */
  ghost predicate Edits(edits: seq<Edit>, mount: Path, paths: set<Path>, s: Tree)
  {
    && NamedOnce(edits)
    && (forall i :: 0 <= i < |edits| ==>
          Under(mount, edits[i].path) && edits[i].path[|mount| + 1..] in paths
          && Outcome(edits[i]) == Get(s, edits[i].path))
    && (forall g :: g in paths ==> Mentions(edits, At(mount, g)))
  }

  lemma EditsAdd(edits: seq<Edit>, mount: Path, paths: set<Path>, s: Tree, g: Path, e: Edit)
    requires Edits(edits, mount, paths, s) && g !in paths && e.path == At(mount, g) && (e.Upsert? || e.Delete?)
    requires Outcome(e) == Get(s, At(mount, g))
    ensures Edits(edits + [e], mount, paths + {g}, s)
  {
    var out := edits + [e];
    assert out[|edits|] == e;
    assert forall i :: 0 <= i < |edits| ==> out[i] == edits[i];
    forall h | h in paths + {g}
      ensures Mentions(out, At(mount, h))
    {
      if h != g {
        var i :| 0 <= i < |edits| && edits[i].path == At(mount, h);
        assert out[i].path == At(mount, h);
      }
    }
  }

  /** An edit for each of these paths: what the snapshot holds there, or a deletion. */
  method EditsOf(edits0: seq<Edit>, mount: Path, ghost done0: set<Path>, paths: set<Path>, s: Tree)
    returns (edits: seq<Edit>)
    requires Edits(edits0, mount, done0, s) && done0 !! paths
    ensures Edits(edits, mount, done0 + paths, s)
  {
    edits := edits0;
    var todo := paths;
    ghost var done := done0;
    while todo != {}
      invariant done + todo == done0 + paths && done !! todo
      invariant Edits(edits, mount, done, s)
      decreases |todo|
    {
      var g :| g in todo;
      assert g !in done;
      var e := EditAt(s, At(mount, g));
      EditsAdd(edits, mount, done, s, g, e);
      edits := edits + [e];
      assert done + {g} + (todo - {g}) == done + todo;
      todo := todo - {g};
      done := done + {g};
    }
    assert done == done0 + paths;
  }

  function EditAt(s: Tree, p: Path): (e: Edit)
    ensures e.path == p && (e.Upsert? || e.Delete?) && Outcome(e) == Get(s, p)
  {
    if p in s then Upsert(p, s[p]) else Delete(p)
  }

  lemma DeltaTakes(git: Git, a: Commit, b: Commit, mount: Path, records: seq<Record>, s: Tree, edits: seq<Edit>,
                   t: Tree)
    requires IsDifference(a, b, records) && IsSnapshot(git, b, mount, UpsertedBy(records), s)
    requires Edits(edits, mount, DeletedBy(records) + UpsertedBy(records), s) && Mounted(git, t, mount, a)
    ensures Takes(git, edits, t, mount, b)
  {
    forall i | 0 <= i < |edits|
      ensures Outcome(edits[i]) == FileAt(git, b, edits[i].path[|mount| + 1..])
    {
      UnderIsAt(mount, edits[i].path);
    }
    forall g | Get(t, At(mount, g)) != FileAt(git, b, g)
      ensures Mentions(edits, At(mount, g))
    {
      assert FileAt(git, a, g) != FileAt(git, b, g);
    }
  }

  /** `gitDeltaEdits`: the deleted paths, the written paths at which no file is found, and
      the files found at the others. */
  method DeltaEdits(git: Git, a: Commit, b: Commit, mount: Path, known0: map<string, Hash>)
    returns (r: Result<seq<Edit>, ParseError>, known: map<string, Hash>)
    requires Known(git, known0)
    ensures Known(git, known)
    ensures r.Err? ==> !Prints(a, b, git.diffTree(a, b))
    ensures r.Ok? && Prints(a, b, git.diffTree(a, b)) ==> forall t :: Mounted(git, t, mount, a) ==>
      Takes(git, r.value, t, mount, b)
  {
    known := known0;
    var tokens := git.diffTree(a, b);
    var parsed := Parse(tokens);
    ghost var records: seq<Record> := [];
    if Prints(a, b, tokens) {
      records := ParsedDifference(a, b, tokens);
    }
    if parsed.Err? {
      return Err(parsed.error), known;
    }
    var (deleted, upserted) := parsed.value;
    var s;
    s, known := Snapshot(git, b, mount, upserted, known);
    var edits := ChangedFiles(mount, deleted, upserted, s);
    if Prints(a, b, tokens) {
      assert deleted + upserted == DeletedBy(records) + UpsertedBy(records);
      forall t | Mounted(git, t, mount, a)
        ensures Takes(git, edits, t, mount, b)
      {
        DeltaTakes(git, a, b, mount, records, s, edits, t);
      }
    }
    r := Ok(edits);
  }

  /** Lines 194 to 224 of service/git_snapshots.go. */
  method ChangedFiles(mount: Path, deleted: set<Path>, upserted: set<Path>, s: Tree) returns (edits: seq<Edit>)
    requires deleted !! upserted
    ensures Edits(edits, mount, deleted + upserted, s)
  {
    var found := set g | g in upserted && At(mount, g) in s;
    edits := EditsOf([], mount, {}, deleted, s);
    edits := EditsOf(edits, mount, {} + deleted, upserted - found, s);
    edits := EditsOf(edits, mount, {} + deleted + (upserted - found), found, s);
    assert {} + deleted + (upserted - found) + found == deleted + upserted;
  }

  // ---------- The whole import ----------

  /** What the mount holds before the import (`currentMountedSnapshot`). */
  function MountFiles(t: Tree, mount: Path): (s: Tree)
    ensures forall p :: p in s ==> Under(mount, p)
    ensures forall g :: Get(s, At(mount, g)) == Get(t, At(mount, g))
  {
    map p | p in t && Under(mount, p) :: t[p]
  }

  /** One commit: its edits from the commit before, or from what the mount holds. */
  method ImportCommit(git: Git, t: Tree, mount: Path, before: Option<Commit>, c: Commit, known0: map<string, Hash>)
    returns (r: Result<seq<Edit>, ParseError>, known: map<string, Hash>)
    requires Known(git, known0)
    requires before.Some? ==>
      Mounted(git, t, mount, before.value) && Prints(before.value, c, git.diffTree(before.value, c))
    ensures Known(git, known) && r.Ok? && Takes(git, r.value, t, mount, c)
  {
    if before.None? {
      var s, known1 := Snapshot(git, c, mount, c.Keys, known0);
      var previous := MountFiles(t, mount);
      var edits := DiffSnapshots(previous, s);
      DifferenceTakes(git, edits, t, previous, s, mount, c);
      return Ok(edits), known1;
    }
    r, known := DeltaEdits(git, before.value, c, mount, known0);
  }

  /** Every starting tree, every history and every completed prefix of it: the import ends
      with the last commit's files under the mount, and has touched nothing else. */
  method Import(git: Git, start: Tree, mount: Path, commits: seq<Commit>, completed: nat) returns (t: Tree)
    requires completed <= |commits| && |commits| > 0
    requires completed > 0 ==> Mounted(git, start, mount, commits[completed - 1])
    requires forall i :: 0 < i < |commits| ==>
      Prints(commits[i - 1], commits[i], git.diffTree(commits[i - 1], commits[i]))
    ensures Mounted(git, t, mount, commits[|commits| - 1]) && SameElsewhere(start, t, mount)
  {
    t := start;
    var known: map<string, Hash> := map[];
    for i := 0 to |commits|
      invariant Known(git, known) && SameElsewhere(start, t, mount)
      invariant i <= completed ==> t == start
      invariant i > 0 && completed <= i ==> Mounted(git, t, mount, commits[i - 1])
    {
      if i < completed {
        continue;
      }
      var r;
      r, known := ImportCommit(git, t, mount, if i == 0 then None else Some(commits[i - 1]), commits[i], known);
      TakesApply(git, r.value, t, mount, commits[i]);
      t := ApplyEdits(t, r.value).value;
    }
  }
}
