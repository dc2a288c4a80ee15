/**
  The difference between two Git trees (agents/src/artifacts.ts).  A tree id stands for the
  contents of the tree, so two ids are equal exactly when the trees are.  A path is the
  sequence of its names.
 */
module TreeDiff {
  import opened Options

  datatype Name = Name(text: string)
  type Path = seq<Name>

  datatype Node = Blob(file: File) | Gitlink(commit: string) | Dir(tree: Tree)
  datatype Tree = Empty | Entry(name: Name, node: Node, rest: Tree)
  datatype File = File(hash: string, mode: string)

  datatype Change =
    | Upsert(path: Path, file: File, baseHash: Option<string>)
    | Delete(path: Path, baseHash: Option<string>)

  // ---------- Trees as maps from paths to files ----------

  function Names(t: Tree): set<Name>
  {
    if t.Empty? then {} else {t.name} + Names(t.rest)
  }

  function Find(t: Tree, name: Name): (node: Option<Node>)
    ensures node.Some? <==> name in Names(t)
    ensures node.Some? ==> node.value < t
  {
    if t.Empty? then None else if t.name == name then Some(t.node) else Find(t.rest, name)
  }

  /** No name twice in a directory: Git writes no other trees. */
  predicate WellFormed(t: Tree)
  {
    t.Empty? || (t.name !in Names(t.rest) && WellFormed(t.rest) && (t.node.Dir? ==> WellFormed(t.node.tree)))
  }

  /** The directory of that name, empty if there is none. */
  function Under(t: Tree, name: Name): Tree
  {
    match Find(t, name) case Some(Dir(s)) => s case _ => Empty
  }

  function FileAt(node: Option<Node>): Option<File>
  {
    match node case Some(Blob(f)) => Some(f) case _ => None
  }

  /** The file at a path. */
  function At(t: Tree, p: Path): Option<File>
    decreases |p|
  {
    if |p| == 0 then None
    else if |p| == 1 then FileAt(Find(t, p[0]))
    else At(Under(t, p[0]), p[1..])
  }

  predicate IsGitlink(node: Option<Node>)
  {
    node.Some? && node.value.Gitlink?
  }

  /** Whether the path is a gitlink of the tree or lies below one. */
  predicate InGitlink(t: Tree, p: Path)
    decreases |p|
  {
    |p| > 0 && (IsGitlink(Find(t, p[0])) || InGitlink(Under(t, p[0]), p[1..]))
  }

  // ---------- What a difference is ----------

  function Hash(f: Option<File>): Option<string>
  {
    match f case Some(g) => Some(g.hash) case None => None
  }

  /** The change of one path from what it held to what it holds. */
  function ChangeOf(path: Path, before: Option<File>, after: Option<File>): Option<Change>
  {
    if before == after then None
    else if after.Some? then Some(Upsert(path, after.value, Hash(before)))
    else Some(Delete(path, Hash(before)))
  }

  /** The change the code reports for a path below `prefix`: none under a gitlink of the
      head. */
  function Reported(base: Tree, head: Tree, prefix: Path, p: Path): Option<Change>
  {
    if InGitlink(head, p) then None else ChangeOf(prefix + p, At(base, p), At(head, p))
  }

  /** A part of the paths of a tree. */
  datatype Region = All(names: set<Name>) | Self(name: Name) | Below(name: Name)

  predicate In(r: Region, p: Path)
  {
    |p| > 0 && match r
    case All(names) => p[0] in names
    case Self(name) => p == [name]
    case Below(name) => |p| > 1 && p[0] == name
  }

  ghost predicate Lists(out: seq<Change>, path: Path)
  {
    exists i :: 0 <= i < |out| && out[i].path == path
  }

  ghost predicate Sound(want: Path -> Option<Change>, prefix: Path, r: Region, out: seq<Change>)
  {
    forall i :: 0 <= i < |out| ==>
      prefix <= out[i].path && In(r, out[i].path[|prefix|..]) && want(out[i].path[|prefix|..]) == Some(out[i])
  }

  ghost predicate Complete(want: Path -> Option<Change>, prefix: Path, r: Region, out: seq<Change>)
  {
    forall p :: In(r, p) && want(p).Some? ==> Lists(out, prefix + p)
  }

  ghost predicate Once(out: seq<Change>)
  {
    forall i, j :: 0 <= i < j < |out| ==> out[i].path != out[j].path
  }

  /** The list holds what is wanted in the region, each path once. */
  ghost predicate Covers(want: Path -> Option<Change>, prefix: Path, r: Region, out: seq<Change>)
  {
    Sound(want, prefix, r, out) && Complete(want, prefix, r, out) && Once(out)
  }

  ghost function Reports(base: Tree, head: Tree, prefix: Path): (want: Path -> Option<Change>)
    ensures forall p :: want(p) == Reported(base, head, prefix, p)
  {
    p => Reported(base, head, prefix, p)
  }

  /** The list holds what is to be reported in the region, each path once. */
  ghost predicate IsDiff(base: Tree, head: Tree, prefix: Path, r: Region, out: seq<Change>)
  {
    Covers(Reports(base, head, prefix), prefix, r, out)
  }

  ghost predicate Splits(t: Region, r: Region, s: Region)
  {
    forall p :: (In(t, p) <==> In(r, p) || In(s, p)) && !(In(r, p) && In(s, p))
  }

  lemma JoinSound(want: Path -> Option<Change>, prefix: Path, r: Region, a: seq<Change>, s: Region, b: seq<Change>,
                  t: Region)
    requires Sound(want, prefix, r, a) && Sound(want, prefix, s, b) && Splits(t, r, s)
    ensures Sound(want, prefix, t, a + b)
  {
    var out := a + b;
    forall i | 0 <= i < |out|
      ensures prefix <= out[i].path && In(t, out[i].path[|prefix|..]) && want(out[i].path[|prefix|..]) == Some(out[i])
    {
      if i < |a| {
        assert out[i] == a[i] && In(r, a[i].path[|prefix|..]);
      } else {
        assert out[i] == b[i - |a|] && In(s, b[i - |a|].path[|prefix|..]);
      }
    }
  }

  lemma ListsConcat(a: seq<Change>, b: seq<Change>, path: Path)
    ensures Lists(a, path) || Lists(b, path) ==> Lists(a + b, path)
  {
    if Lists(a, path) {
      var i :| 0 <= i < |a| && a[i].path == path;
      assert (a + b)[i].path == path;
    } else if Lists(b, path) {
      var i :| 0 <= i < |b| && b[i].path == path;
      assert (a + b)[|a| + i].path == path;
    }
  }

  lemma JoinComplete(want: Path -> Option<Change>, prefix: Path, r: Region, a: seq<Change>, s: Region, b: seq<Change>,
                     t: Region)
    requires Complete(want, prefix, r, a) && Complete(want, prefix, s, b) && Splits(t, r, s)
    ensures Complete(want, prefix, t, a + b)
  {
    forall p | In(t, p) && want(p).Some?
      ensures Lists(a + b, prefix + p)
    {
      assert In(r, p) || In(s, p);
      ListsConcat(a, b, prefix + p);
    }
  }

  lemma JoinOnce(want: Path -> Option<Change>, prefix: Path, r: Region, a: seq<Change>, s: Region, b: seq<Change>,
                 t: Region)
    requires Sound(want, prefix, r, a) && Sound(want, prefix, s, b) && Splits(t, r, s) && Once(a) && Once(b)
    ensures Once(a + b)
  {
    forall i, j | 0 <= i < |a| && 0 <= j < |b|
      ensures a[i].path != b[j].path
    {
      assert In(r, a[i].path[|prefix|..]) && In(s, b[j].path[|prefix|..]);
    }
  }

  /** The lists of two disjoint regions make that of both. */
  lemma JoinRegions(want: Path -> Option<Change>, prefix: Path, r: Region, a: seq<Change>, s: Region, b: seq<Change>,
                    t: Region)
    requires Covers(want, prefix, r, a) && Covers(want, prefix, s, b) && Splits(t, r, s)
    ensures Covers(want, prefix, t, a + b)
  {
    JoinSound(want, prefix, r, a, s, b, t);
    JoinComplete(want, prefix, r, a, s, b, t);
    JoinOnce(want, prefix, r, a, s, b, t);
  }

  lemma PrefixCons(prefix: Path, name: Name, q: Path)
    ensures prefix + ([name] + q) == (prefix + [name]) + q
  {
  }

  /** What is reported below a name is the difference of the directories of that name. */
  lemma ReportedBelow(base: Tree, head: Tree, prefix: Path, name: Name, q: Path)
    requires |q| > 0 && !IsGitlink(Find(head, name))
    ensures Reported(base, head, prefix, [name] + q) ==
      Reported(Under(base, name), Under(head, name), prefix + [name], q)
  {
    var p := [name] + q;
    assert p[0] == name && p[1..] == q;
    PrefixCons(prefix, name, q);
  }

  /** A list of what is wanted below a name, seen from one level up. */
  lemma CoversBelow(want: Path -> Option<Change>, inner: Path -> Option<Change>, prefix: Path, name: Name,
                    names: set<Name>, out: seq<Change>)
    requires Covers(inner, prefix + [name], All(names), out)
    requires forall p :: In(Below(name), p) ==> want(p) == inner(p[1..]) && (want(p).Some? ==> p[1] in names)
    ensures Covers(want, prefix, Below(name), out)
  {
    var deeper := prefix + [name];
    forall i | 0 <= i < |out|
      ensures prefix <= out[i].path && In(Below(name), out[i].path[|prefix|..])
      ensures want(out[i].path[|prefix|..]) == Some(out[i])
    {
      var q := out[i].path[|deeper|..];
      assert deeper <= out[i].path && In(All(names), q);
      assert out[i].path[|prefix|..] == [name] + q;
      assert out[i].path[|prefix|..][1..] == q;
    }
    forall p | In(Below(name), p) && want(p).Some?
      ensures Lists(out, prefix + p)
    {
      assert In(All(names), p[1..]);
      assert p == [name] + p[1..];
      PrefixCons(prefix, name, p[1..]);
    }
  }

  lemma BelowIsDiff(base: Tree, head: Tree, prefix: Path, name: Name, out: seq<Change>)
    requires !IsGitlink(Find(head, name))
    requires IsDiff(Under(base, name), Under(head, name), prefix + [name],
                    All(Names(Under(base, name)) + Names(Under(head, name))), out)
    ensures IsDiff(base, head, prefix, Below(name), out)
  {
    var b, h := Under(base, name), Under(head, name);
    var want, inner := Reports(base, head, prefix), Reports(b, h, prefix + [name]);
    forall p | In(Below(name), p)
      ensures want(p) == inner(p[1..]) && (want(p).Some? ==> p[1] in Names(b) + Names(h))
    {
      assert p == [name] + p[1..];
      ReportedBelow(base, head, prefix, name, p[1..]);
      if want(p).Some? {
        NothingElsewhere(b, h, prefix + [name], p[1..]);
      }
    }
    CoversBelow(want, inner, prefix, name, Names(b) + Names(h), out);
  }

  /** A path whose first name is in neither tree is in neither. */
  lemma NothingElsewhere(base: Tree, head: Tree, prefix: Path, p: Path)
    requires |p| > 0 && Reported(base, head, prefix, p).Some?
    ensures In(All(Names(base) + Names(head)), p)
  {
    if p[0] !in Names(base) + Names(head) {
      NothingInEmpty(p[1..]);
    }
  }

  lemma {:induction false} NothingInEmpty(p: Path)
    ensures At(Empty, p) == None && !InGitlink(Empty, p)
    decreases |p|
  {
    if |p| > 0 {
      NothingInEmpty(p[1..]);
    }
  }

  lemma AtName(t: Tree, name: Name)
    ensures At(t, [name]) == FileAt(Find(t, name)) && (InGitlink(t, [name]) <==> IsGitlink(Find(t, name)))
  {
    assert [name][1..] == [];
    assert !InGitlink(Under(t, name), []);
  }

  /** What is reported at a name itself. */
  lemma SelfIsDiff(base: Tree, head: Tree, prefix: Path, name: Name, own: seq<Change>)
    requires !IsGitlink(Find(head, name))
    requires match ChangeOf(prefix + [name], FileAt(Find(base, name)), FileAt(Find(head, name)))
             case Some(c) => own == [c]
             case None => own == []
    ensures IsDiff(base, head, prefix, Self(name), own)
  {
    AtName(base, name);
    AtName(head, name);
    assert Reported(base, head, prefix, [name]) ==
      ChangeOf(prefix + [name], FileAt(Find(base, name)), FileAt(Find(head, name)));
    if own != [] {
      assert own[0].path[|prefix|..] == [name];
      assert Lists(own, prefix + [name]);
    }
  }

  lemma NameIsDiff(base: Tree, head: Tree, prefix: Path, name: Name, own: seq<Change>, nested: seq<Change>)
    requires IsDiff(base, head, prefix, Self(name), own) && IsDiff(base, head, prefix, Below(name), nested)
    ensures IsDiff(base, head, prefix, All({name}), own + nested)
  {
    forall p
      ensures (In(All({name}), p) <==> In(Self(name), p) || In(Below(name), p))
      ensures !(In(Self(name), p) && In(Below(name), p))
    {
      if |p| == 1 {
        assert p == [p[0]];
      }
    }
    JoinRegions(Reports(base, head, prefix), prefix, Self(name), own, Below(name), nested, All({name}));
  }

  lemma SameIsDiff(t: Tree, prefix: Path, r: Region)
    ensures IsDiff(t, t, prefix, r, [])
  {
  }

  /** Nothing is reported at a gitlink of the head or below it. */
  lemma GitlinkIsDiff(base: Tree, head: Tree, prefix: Path, name: Name)
    requires IsGitlink(Find(head, name))
    ensures IsDiff(base, head, prefix, All({name}), [])
  {
  }

  // ---------- The walk ----------

  function TreeOf(t: Option<Tree>): Tree
  {
    if t.Some? then t.value else Empty
  }

  function Weight(t: Tree): nat
  {
    match t
    case Empty => 0
    case Entry(_, Dir(s), rest) => 1 + Weight(s) + Weight(rest)
    case Entry(_, _, rest) => 1 + Weight(rest)
  }

  function WeightOf(t: Option<Tree>): nat
  {
    if t.Some? then 1 + Weight(t.value) else 0
  }

  lemma {:induction false} UnderIsLighter(t: Tree, name: Name)
    requires WellFormed(t)
    ensures WellFormed(Under(t, name))
    ensures Find(t, name).Some? && Find(t, name).value.Dir? ==> Weight(Under(t, name)) < Weight(t)
  {
    if t.Entry? && t.name != name {
      UnderIsLighter(t.rest, name);
    }
  }

  /** `left` are the entries of the tree still to visit, `done` the names of the others. */
  ghost predicate Visiting(t: Tree, left: Tree, done: set<Name>)
  {
    && WellFormed(left) && Names(t) == done + Names(left) && done !! Names(left)
    && forall name :: name in Names(left) ==> Find(left, name) == Find(t, name)
  }

  lemma VisitNext(t: Tree, left: Tree, done: set<Name>)
    requires Visiting(t, left, done) && left.Entry?
    ensures Visiting(t, left.rest, done + {left.name})
    ensures Find(t, left.name) == Some(left.node)
  {
    assert left.name in Names(left);
    forall name | name in Names(left.rest)
      ensures Find(left.rest, name) == Find(t, name)
    {
      assert Find(left, name) == Find(left.rest, name);
    }
  }

  /** One turn of the first loop, lines 27 to 46. */
  method VisitHead(base: Tree, head: Tree, prefix: Path, name: Name, entry: Node) returns (out: seq<Change>)
    requires WellFormed(base) && WellFormed(head) && Find(head, name) == Some(entry)
    ensures IsDiff(base, head, prefix, All({name}), out)
    decreases Weight(base) + Weight(head), 1
  {
    var before := Find(base, name);
    UnderIsLighter(base, name);
    UnderIsLighter(head, name);
    var own: seq<Change>, nested: seq<Change> := [], [];
    if entry.Gitlink? {
      GitlinkIsDiff(base, head, prefix, name);
      return [];
    }
    if entry.Dir? {
      var beforeTree := if before.Some? && before.value.Dir? then Some(before.value.tree) else None;
      if before.Some? && before.value.Blob? {
        own := [Delete(prefix + [name], Some(before.value.file.hash))];
      }
      if beforeTree != Some(entry.tree) {
        nested := DiffTrees(beforeTree, Some(entry.tree), prefix + [name]);
      } else {
        SameIsDiff(entry.tree, prefix + [name], All(Names(entry.tree) + Names(entry.tree)));
      }
    } else {
      if before.Some? && before.value.Dir? {
        nested := DiffTrees(Some(before.value.tree), None, prefix + [name]);
      } else {
        SameIsDiff(Empty, prefix + [name], All({}));
      }
      var beforeBlob := if before.Some? && before.value.Blob? then Some(before.value.file) else None;
      if beforeBlob != Some(entry.file) {
        own := [Upsert(prefix + [name], entry.file, Hash(beforeBlob))];
      }
    }
    SelfIsDiff(base, head, prefix, name, own);
    BelowIsDiff(base, head, prefix, name, nested);
    NameIsDiff(base, head, prefix, name, own, nested);
    out := own + nested;
  }

  /** One turn of the second loop, lines 47 to 52. */
  method VisitBase(base: Tree, head: Tree, prefix: Path, name: Name, entry: Node) returns (out: seq<Change>)
    requires WellFormed(base) && Find(base, name) == Some(entry) && name !in Names(head)
    ensures IsDiff(base, head, prefix, All({name}), out)
    decreases Weight(base) + Weight(head), 1
  {
    UnderIsLighter(base, name);
    var own: seq<Change>, nested: seq<Change> := [], [];
    if entry.Dir? {
      nested := DiffTrees(Some(entry.tree), None, prefix + [name]);
    } else {
      SameIsDiff(Empty, prefix + [name], All({}));
      if entry.Blob? {
        own := [Delete(prefix + [name], Some(entry.file.hash))];
      }
    }
    SelfIsDiff(base, head, prefix, name, own);
    BelowIsDiff(base, head, prefix, name, nested);
    NameIsDiff(base, head, prefix, name, own, nested);
    out := own + nested;
  }

  /** `diffTrees`: for every two trees, every path outside the head's gitlinks that holds
      another file, or another mode, or none, is listed, once, with what it holds, and no
      other path is. */
  method DiffTrees(base: Option<Tree>, head: Option<Tree>, prefix: Path) returns (out: seq<Change>)
    requires WellFormed(TreeOf(base)) && WellFormed(TreeOf(head))
    ensures IsDiff(TreeOf(base), TreeOf(head), prefix, All(Names(TreeOf(base)) + Names(TreeOf(head))), out)
    decreases WeightOf(base) + WeightOf(head), 0
  {
    var b, h := TreeOf(base), TreeOf(head);
    if base == head {
      SameIsDiff(b, prefix, All(Names(b) + Names(h)));
      return [];
    }
    out := [];
    var left := h;
    ghost var done: set<Name> := {};
    while left.Entry?
      invariant Visiting(h, left, done) && IsDiff(b, h, prefix, All(done), out)
      decreases left
    {
      VisitNext(h, left, done);
      var named := VisitHead(b, h, prefix, left.name, left.node);
      JoinRegions(Reports(b, h, prefix), prefix, All(done), out, All({left.name}), named, All(done + {left.name}));
      out := out + named;
      done := done + {left.name};
      left := left.rest;
    }
    left := b;
    ghost var seen: set<Name> := {};
    while left.Entry?
      invariant Visiting(b, left, seen) && IsDiff(b, h, prefix, All(Names(h) + seen), out)
      decreases left
    {
      VisitNext(b, left, seen);
      if left.name !in Names(h) {
        var named := VisitBase(b, h, prefix, left.name, left.node);
        JoinRegions(Reports(b, h, prefix), prefix, All(Names(h) + seen), out, All({left.name}), named,
                    All(Names(h) + (seen + {left.name})));
        out := out + named;
      } else {
        assert Names(h) + (seen + {left.name}) == Names(h) + seen;
      }
      seen := seen + {left.name};
      left := left.rest;
    }
    assert Names(h) + seen == Names(b) + Names(h);
  }

  // ---------- Applying a difference ----------

  function Get(files: map<Path, File>, p: Path): Option<File>
  {
    if p in files then Some(files[p]) else None
  }

  ghost predicate Holds(files: map<Path, File>, t: Tree)
  {
    forall p :: Get(files, p) == At(t, p)
  }

  function Apply(files: map<Path, File>, changes: seq<Change>): (r: map<Path, File>)
    decreases |changes|
  {
    if changes == [] then files
    else
      var c := changes[0];
      Apply(if c.Upsert? then files[c.path := c.file] else files - {c.path}, changes[1..])
  }

  function Result(c: Change): Option<File>
  {
    if c.Upsert? then Some(c.file) else None
  }

  /** When no path is listed twice, each listed path ends up as listed and the others stay. */
  lemma {:induction false} ApplyAt(files: map<Path, File>, changes: seq<Change>, p: Path)
    requires forall i, j :: 0 <= i < j < |changes| ==> changes[i].path != changes[j].path
    ensures forall i :: 0 <= i < |changes| && changes[i].path == p ==>
      Get(Apply(files, changes), p) == Result(changes[i])
    ensures !Lists(changes, p) ==> Get(Apply(files, changes), p) == Get(files, p)
    decreases |changes|
  {
    if changes != [] {
      var c, rest := changes[0], changes[1..];
      var next := if c.Upsert? then files[c.path := c.file] else files - {c.path};
      assert forall i :: 0 <= i < |rest| ==> rest[i] == changes[i + 1];
      ApplyAt(next, rest, p);
      if c.path == p {
        assert !Lists(rest, p);
      } else if Lists(rest, p) {
        var i :| 0 <= i < |rest| && rest[i].path == p;
        assert changes[i + 1].path == p;
      }
      forall i | 0 <= i < |changes| && changes[i].path == p
        ensures Get(Apply(files, changes), p) == Result(changes[i])
      {
        assert i > 0 ==> changes[i] == rest[i - 1];
      }
    }
  }

  /** No file of the base lies where the head has a gitlink. */
  ghost predicate NoFileBecomesGitlink(base: Tree, head: Tree)
  {
    forall p :: At(base, p).Some? ==> !InGitlink(head, p)
  }

  lemma {:induction false} NoFileInGitlink(t: Tree, p: Path)
    ensures InGitlink(t, p) ==> At(t, p) == None
    decreases |p|
  {
    if |p| > 1 {
      NoFileInGitlink(Under(t, p[0]), p[1..]);
      if IsGitlink(Find(t, p[0])) {
        NothingInEmpty(p[1..]);
      }
    } else if |p| == 1 {
      assert p == [p[0]];
      AtName(t, p[0]);
    }
  }

  ghost function Everything(base: Tree, head: Tree): Region
  {
    All(Names(base) + Names(head))
  }

  lemma AppliedBy(want: Path -> Option<Change>, r: Region, out: seq<Change>, files: map<Path, File>, p: Path)
    requires Covers(want, [], r, out) && (want(p).Some? ==> In(r, p))
    ensures Get(Apply(files, out), p) == match want(p) { case Some(c) => Result(c) case None => Get(files, p) }
  {
    ApplyAt(files, out, p);
    assert [] + p == p;
    if want(p).Some? {
      assert Lists(out, [] + p);
    }
    if Lists(out, p) {
      var i :| 0 <= i < |out| && out[i].path == p;
      assert out[i].path[0..] == p;
      assert want(p) == Some(out[i]);
    }
  }

  lemma AppliedAt(base: Tree, head: Tree, out: seq<Change>, files: map<Path, File>, p: Path)
    requires IsDiff(base, head, [], Everything(base, head), out) && Get(files, p) == At(base, p)
    ensures Get(Apply(files, out), p) == if InGitlink(head, p) then At(base, p) else At(head, p)
  {
    var want := Reports(base, head, []);
    assert want(p) == Reported(base, head, [], p);
    if want(p).Some? {
      NothingElsewhere(base, head, [], p);
    }
    AppliedBy(want, Everything(base, head), out, files, p);
  }

  /** The difference turns the files of the base into those of the head exactly when no
      file of the base lies where the head has a gitlink. */
  lemma DiffIsExact(base: Tree, head: Tree, out: seq<Change>, files: map<Path, File>)
    requires IsDiff(base, head, [], Everything(base, head), out) && Holds(files, base)
    ensures Holds(Apply(files, out), head) <==> NoFileBecomesGitlink(base, head)
  {
    var r := Apply(files, out);
    forall p
      ensures Get(r, p) == if InGitlink(head, p) then At(base, p) else At(head, p)
    {
      AppliedAt(base, head, out, files, p);
    }
    forall p | InGitlink(head, p)
      ensures At(head, p) == None
    {
      NoFileInGitlink(head, p);
    }
  }

  /** A file that turns into a gitlink is not listed, so the difference leaves it there. */
  lemma FileBecomesGitlink(name: Name, f: File, commit: string)
    ensures var base, head := Entry(name, Blob(f), Empty), Entry(name, Gitlink(commit), Empty);
      && WellFormed(base) && WellFormed(head)
      && IsDiff(base, head, [], Everything(base, head), [])
      && Holds(map[[name] := f], base) && !Holds(map[[name] := f], head)
  {
    var base, head := Entry(name, Blob(f), Empty), Entry(name, Gitlink(commit), Empty);
    assert Names(base.rest) == {} && Names(head.rest) == {};
    assert Names(base) == {name} && Names(head) == {name};
    assert Everything(base, head) == All({name});
    GitlinkIsDiff(base, head, [], name);
    AtName(base, name);
    AtName(head, name);
    forall p
      ensures Get(map[[name] := f], p) == At(base, p)
    {
      if |p| == 1 {
        assert p == [p[0]];
        assert p[0] != name ==> Find(base, p[0]) == None;
      } else if |p| > 1 {
        assert Under(base, p[0]) == Empty;
        NothingInEmpty(p[1..]);
      }
    }
    assert Get(map[[name] := f], [name]) == Some(f) && At(head, [name]) == None;
  }

  // ---------- The files of a tree ----------

  function Nested(name: Name, files: map<Path, File>): map<Path, File>
  {
    map p | p in (set q | q in files :: [name] + q) && |p| > 0 && p[1..] in files :: files[p[1..]]
  }

  /** The files of a tree by path. */
  function Files(t: Tree): map<Path, File>
  {
    match t
    case Empty => map[]
    case Entry(name, Blob(f), rest) => Files(rest)[[name] := f]
    case Entry(name, Dir(s), rest) => Files(rest) + Nested(name, Files(s))
    case Entry(_, _, rest) => Files(rest)
  }

  lemma NestedAt(name: Name, files: map<Path, File>, p: Path)
    ensures Get(Nested(name, files), p) == if |p| > 0 && p[0] == name then Get(files, p[1..]) else None
  {
    if |p| > 0 && p[0] == name {
      assert p == [name] + p[1..];
    }
  }

  lemma {:induction false} FilesAt(t: Tree, p: Path)
    requires WellFormed(t)
    ensures Get(Files(t), p) == At(t, p)
  {
    if t.Empty? {
      NothingInEmpty(p);
    } else {
      FilesAt(t.rest, p);
      if |p| > 0 && p[0] == t.name {
        NotBelow(t.rest, p);
      }
      match t.node
      case Blob(f) =>
        assert |p| == 1 && p[0] == t.name ==> p == [t.name];
        if |p| > 1 && p[0] == t.name {
          NothingInEmpty(p[1..]);
        }
      case Dir(s) =>
        NestedAt(t.name, Files(s), p);
        if |p| > 0 && p[0] == t.name {
          FilesAt(s, p[1..]);
        }
      case Gitlink(_) =>
        if |p| > 1 && p[0] == t.name {
          NothingInEmpty(p[1..]);
        }
    }
  }

  lemma NotBelow(t: Tree, p: Path)
    requires |p| > 0 && p[0] !in Names(t)
    ensures At(t, p) == None
  {
    NothingInEmpty(p[1..]);
  }

  /** Listing the difference and applying it, from one set of files to the other. */
  lemma DiffThenApply(base: Tree, head: Tree, out: seq<Change>)
    requires WellFormed(base) && WellFormed(head) && IsDiff(base, head, [], Everything(base, head), out)
    ensures Apply(Files(base), out) == Files(head) <==> NoFileBecomesGitlink(base, head)
  {
    forall p
      ensures Get(Files(base), p) == At(base, p) && Get(Files(head), p) == At(head, p)
    {
      FilesAt(base, p);
      FilesAt(head, p);
    }
    DiffIsExact(base, head, out, Files(base));
    var r := Apply(Files(base), out);
    if Holds(r, head) {
      forall p
        ensures Get(r, p) == Get(Files(head), p)
      {
      }
      assert r.Keys == Files(head).Keys by {
        forall p
          ensures p in r <==> p in Files(head)
        {
          assert Get(r, p) == Get(Files(head), p);
        }
      }
      forall p | p in r
        ensures r[p] == Files(head)[p]
      {
        assert Get(r, p) == Get(Files(head), p);
      }
    }
  }

  // ---------- Paths as text ----------

  /** The text of a path: its names with slashes between them. */
  function Render(p: Path): string
  {
    if |p| == 0 then "" else if |p| == 1 then p[0].text else p[0].text + "/" + Render(p[1..])
  }

  predicate Slashless(p: Path)
  {
    forall i :: 0 <= i < |p| ==> '/' !in p[i].text
  }

  lemma SameFirst(a: string, x: string, b: string, y: string)
    requires '/' !in a && '/' !in b && a + x == b + y
    requires (x == [] || x[0] == '/') && (y == [] || y[0] == '/')
    ensures a == b && x == y
  {
    var s, t := a + x, b + y;
    assert |a| < |s| ==> s[|a|] == '/';
    assert |b| < |t| ==> t[|b|] == '/';
    assert forall i :: 0 <= i < |a| ==> s[i] == a[i];
    assert forall i :: 0 <= i < |b| ==> t[i] == b[i];
    assert |a| == |b|;
    assert a == s[..|a|] && b == t[..|b|] && x == s[|a|..] && y == t[|b|..];
  }

  /** Two paths are told apart by their text, since no name has a slash in it. */
  lemma {:induction false} RenderIsInjective(p: Path, q: Path)
    requires |p| > 0 && |q| > 0 && Slashless(p) && Slashless(q) && Render(p) == Render(q)
    ensures p == q
  {
    var x := if |p| == 1 then "" else "/" + Render(p[1..]);
    var y := if |q| == 1 then "" else "/" + Render(q[1..]);
    assert Render(p) == p[0].text + x && Render(q) == q[0].text + y;
    SameFirst(p[0].text, x, q[0].text, y);
    assert p == [p[0]] + p[1..] && q == [q[0]] + q[1..];
    if |p| > 1 && |q| > 1 {
      assert Render(p[1..]) == x[1..] && Render(q[1..]) == y[1..];
      RenderIsInjective(p[1..], q[1..]);
    }
  }
}
