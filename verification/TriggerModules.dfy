/**
  The modules of a trigger script (service/trigger_run.go): the script and all it imports by
  relative path, each read once, within limits.
 */
module TriggerModules {
  import opened Options

  const MAX_MODULES: nat := 50
  const MAX_BYTES: nat := 0x10_0000

  datatype Name = Name(path: string)
  datatype Read = Missing | Failed | File(data: string)

  /** What the loader reads: the files of the folder, which of their contents are text, and
      the modules a text imports, `None` for one outside the folder. */
  datatype Folder = Folder(read: Name -> Read, utf8: string -> bool, imports: (Name, string) -> seq<Option<Name>>)

  datatype Error = TooMany | NotFound(rel: Name) | Unreadable(rel: Name) | TooLarge
                   | NotUtf8(rel: Name) | Outside(rel: Name)

  // ---------- What loading means ----------

  function Size(f: Folder, rel: Name): nat
  {
    match f.read(rel) case File(data) => |data| case _ => 0
  }

  predicate IsText(f: Folder, rel: Name)
  {
    f.read(rel).File? && f.utf8(f.read(rel).data)
  }

  /** A module that can be loaded: a text file with no import from outside the folder. */
  predicate Good(f: Folder, rel: Name)
  {
    IsText(f, rel) && None !in f.imports(rel, f.read(rel).data)
  }

  predicate Imports(f: Folder, from: Name, to: Name)
  {
    IsText(f, from) && Some(to) in f.imports(from, f.read(from).data)
  }

  ghost predicate Chain(f: Folder, chain: seq<Name>)
  {
    |chain| > 0 && forall i :: 0 < i < |chain| ==> Imports(f, chain[i - 1], chain[i])
  }

  ghost predicate Reachable(f: Folder, entry: Name, rel: Name)
  {
    exists chain :: Chain(f, chain) && chain[0] == entry && chain[|chain| - 1] == rel
  }

  ghost predicate ClosedIn(f: Folder, s: set<Name>, t: set<Name>)
  {
    forall a, b :: a in s && Imports(f, a, b) ==> b in t
  }

  ghost function Total(f: Folder, s: set<Name>): nat
  {
    if s == {} then 0 else
      var x :| x in s;
      Size(f, x) + Total(f, s - {x})
  }

  /** A set of modules the entry can run with, within the limits. */
  ghost predicate Loads(f: Folder, entry: Name, s: set<Name>)
  {
    && entry in s && ClosedIn(f, s, s) && (forall rel :: rel in s ==> Good(f, rel))
    && |s| <= 50 && Total(f, s) <= 0x10_0000
  }

  lemma EntryIsReachable(f: Folder, entry: Name)
    ensures Reachable(f, entry, entry)
  {
    assert Chain(f, [entry]);
  }

  lemma ImportIsReachable(f: Folder, entry: Name, from: Name, to: Name)
    requires Reachable(f, entry, from) && Imports(f, from, to)
    ensures Reachable(f, entry, to)
  {
    var chain :| Chain(f, chain) && chain[0] == entry && chain[|chain| - 1] == from;
    assert Chain(f, chain + [to]);
  }

  lemma {:induction false} ChainStays(f: Folder, chain: seq<Name>, s: set<Name>)
    requires Chain(f, chain) && chain[0] in s && ClosedIn(f, s, s)
    ensures chain[|chain| - 1] in s
  {
    if |chain| > 1 {
      assert Imports(f, chain[0], chain[1]);
      var rest := chain[1..];
      assert forall i :: 0 <= i < |rest| ==> rest[i] == chain[i + 1];
      ChainStays(f, rest, s);
    }
  }

  /** What is reachable is in every set that has the entry and is closed under imports. */
  lemma ReachableStays(f: Folder, entry: Name, rel: Name, s: set<Name>)
    requires Reachable(f, entry, rel) && entry in s && ClosedIn(f, s, s)
    ensures rel in s
  {
    var chain :| Chain(f, chain) && chain[0] == entry && chain[|chain| - 1] == rel;
    ChainStays(f, chain, s);
  }

  lemma {:induction false} TotalWithout(f: Folder, s: set<Name>, x: Name)
    requires x in s
    ensures Total(f, s) == Size(f, x) + Total(f, s - {x})
    decreases |s|
  {
    var y :| y in s && Total(f, s) == Size(f, y) + Total(f, s - {y});
    if y != x {
      TotalWithout(f, s - {y}, x);
      TotalWithout(f, s - {x}, y);
      assert s - {y} - {x} == s - {x} - {y};
    }
  }

  lemma TotalAdd(f: Folder, s: set<Name>, x: Name)
    requires x !in s
    ensures Total(f, s + {x}) == Total(f, s) + Size(f, x)
  {
    TotalWithout(f, s + {x}, x);
    assert s + {x} - {x} == s;
  }

  lemma {:induction false} TotalGrows(f: Folder, s: set<Name>, t: set<Name>)
    requires s <= t
    ensures Total(f, s) <= Total(f, t) && |s| <= |t|
    decreases |t|
  {
    if s != {} {
      var x :| x in s;
      TotalWithout(f, s, x);
      TotalWithout(f, t, x);
      TotalGrows(f, s - {x}, t - {x});
    }
  }

  // ---------- The loader ----------

  /** The modules read so far and the names still to read. */
  ghost predicate Loading(f: Folder, entry: Name, modules: map<Name, string>, queue: seq<Name>)
  {
    && (entry in modules || entry in queue)
    && (forall rel :: rel in modules ==> Good(f, rel) && modules[rel] == f.read(rel).data && Reachable(f, entry, rel))
    && (forall i :: 0 <= i < |queue| ==> Reachable(f, entry, queue[i]))
    && (forall a, b :: a in modules && Imports(f, a, b) ==> b in modules || b in queue)
  }

  /** No set of modules loads when one more reachable module breaks it. */
  lemma NoneLoads(f: Folder, entry: Name, modules: map<Name, string>, queue: seq<Name>, rel: Name)
    requires Loading(f, entry, modules, queue) && Reachable(f, entry, rel) && rel !in modules
    requires !Good(f, rel) || |modules| >= MAX_MODULES || Total(f, modules.Keys) + Size(f, rel) > MAX_BYTES
    ensures forall s :: !Loads(f, entry, s)
  {
    forall s | Loads(f, entry, s)
      ensures false
    {
      forall r | r in modules.Keys + {rel}
        ensures r in s
      {
        ReachableStays(f, entry, r, s);
      }
      TotalGrows(f, modules.Keys + {rel}, s);
      TotalAdd(f, modules.Keys, rel);
    }
  }

  /** Lines 225 to 234: the targets of a module's imports, if all are inside the folder. */
  method Targets(imports: seq<Option<Name>>) returns (targets: Option<seq<Name>>)
    ensures targets.None? <==> None in imports
    ensures targets.Some? ==> |targets.value| == |imports| && forall i :: 0 <= i < |imports| ==>
      imports[i] == Some(targets.value[i])
  {
    var found: seq<Name> := [];
    for i := 0 to |imports|
      invariant None !in imports[..i] && |found| == i
      invariant forall j :: 0 <= j < i ==> imports[j] == Some(found[j])
    {
      if imports[i].None? {
        return None;
      }
      found := found + [imports[i].value];
    }
    targets := Some(found);
  }

  /** Why reading a module fails, exactly. */
  predicate Fails(f: Folder, rel: Name, count: nat, total: nat, e: Error)
  {
    match e
    case TooMany => count >= 50
    case NotFound(r) => r == rel && f.read(rel) == Missing
    case Unreadable(r) => r == rel && f.read(rel) == Failed
    case TooLarge => total + Size(f, rel) > 0x10_0000
    case NotUtf8(r) => r == rel && f.read(rel).File? && !f.utf8(f.read(rel).data)
    case Outside(r) => r == rel && IsText(f, rel) && None in f.imports(rel, f.read(rel).data)
  }

  ghost predicate AreTargets(f: Folder, rel: Name, data: string, targets: seq<Name>)
  {
    f.read(rel) == File(data) && |targets| == |f.imports(rel, data)|
    && forall i :: 0 <= i < |targets| ==> f.imports(rel, data)[i] == Some(targets[i])
  }

  /** Lines 207 to 234: reads one more module after `count` modules of `total` bytes. */
  method ReadModule(f: Folder, rel: Name, count: nat, total: nat) returns (r: Result<(string, seq<Name>), Error>)
    ensures r.Ok? ==> Good(f, rel) && count < 50 && total + Size(f, rel) <= 0x10_0000
                      && AreTargets(f, rel, r.value.0, r.value.1)
    ensures r.Err? ==> Fails(f, rel, count, total, r.error)
  {
    if count >= MAX_MODULES {
      return Err(TooMany);
    }
    var read := f.read(rel);
    if read.Missing? {
      return Err(NotFound(rel));
    }
    if read.Failed? {
      return Err(Unreadable(rel));
    }
    if total + |read.data| > MAX_BYTES {
      return Err(TooLarge);
    }
    if !f.utf8(read.data) {
      return Err(NotUtf8(rel));
    }
    var targets := Targets(f.imports(rel, read.data));
    if targets.None? {
      return Err(Outside(rel));
    }
    r := Ok((read.data, targets.value));
  }

  lemma SkipKeeps(f: Folder, entry: Name, modules: map<Name, string>, queue: seq<Name>)
    requires Loading(f, entry, modules, queue) && |queue| > 0 && queue[0] in modules
    ensures Loading(f, entry, modules, queue[1..])
  {
    assert queue == [queue[0]] + queue[1..];
  }

  lemma ReadKeeps(f: Folder, entry: Name, modules: map<Name, string>, queue: seq<Name>, targets: seq<Name>)
    requires Loading(f, entry, modules, queue) && |queue| > 0 && Good(f, queue[0])
    requires AreTargets(f, queue[0], f.read(queue[0]).data, targets)
    ensures Loading(f, entry, modules[queue[0] := f.read(queue[0]).data], queue[1..] + targets)
  {
    var rel, rest := queue[0], queue[1..];
    assert queue == [rel] + rest;
    forall i | 0 <= i < |targets|
      ensures Reachable(f, entry, targets[i])
    {
      assert f.imports(rel, f.read(rel).data)[i] == Some(targets[i]);
      ImportIsReachable(f, entry, rel, targets[i]);
    }
    forall b | Imports(f, rel, b)
      ensures b in targets
    {
      var i :| 0 <= i < |targets| && f.imports(rel, f.read(rel).data)[i] == Some(b);
      assert targets[i] == b;
    }
  }

  lemma SizesAdd(f: Folder, modules: map<Name, string>, rel: Name, data: string)
    requires rel !in modules && f.read(rel) == File(data)
    ensures |modules[rel := data]| == |modules| + 1
    ensures Total(f, modules[rel := data].Keys) == Total(f, modules.Keys) + |data|
  {
    assert modules[rel := data].Keys == modules.Keys + {rel};
    TotalAdd(f, modules.Keys, rel);
  }

  lemma LoadedIsReachable(f: Folder, entry: Name, modules: map<Name, string>)
    requires Loading(f, entry, modules, []) && |modules| <= MAX_MODULES && Total(f, modules.Keys) <= MAX_BYTES
    ensures Loads(f, entry, modules.Keys)
    ensures forall rel :: rel in modules <==> Reachable(f, entry, rel)
    ensures forall rel :: rel in modules ==> f.read(rel) == File(modules[rel])
  {
    forall rel | Reachable(f, entry, rel)
      ensures rel in modules
    {
      ReachableStays(f, entry, rel, modules.Keys);
    }
  }

  /** `loadTriggerModules`: succeeds exactly when some set of modules within the limits has
      the entry and is closed under imports, and then returns what is reachable and nothing
      else. */
  method Load(f: Folder, entry: Name) returns (r: Result<map<Name, string>, Error>)
    ensures r.Ok? <==> exists s :: Loads(f, entry, s)
    ensures r.Ok? ==> Loads(f, entry, r.value.Keys)
    ensures r.Ok? ==> forall rel :: rel in r.value <==> Reachable(f, entry, rel)
    ensures r.Ok? ==> forall rel :: rel in r.value ==> f.read(rel) == File(r.value[rel])
  {
    var modules: map<Name, string> := map[];
    var total := 0;
    var queue := [entry];
    EntryIsReachable(f, entry);
    while |queue| > 0
      invariant Loading(f, entry, modules, queue)
      invariant |modules| <= MAX_MODULES && total == Total(f, modules.Keys) <= MAX_BYTES
      decreases MAX_MODULES - |modules|, |queue|
    {
      var rel := queue[0];
      ghost var was := queue;
      queue := queue[1..];
      if rel in modules {
        SkipKeeps(f, entry, modules, was);
        continue;
      }
      var read := ReadModule(f, rel, |modules|, total);
      if read.Err? {
        NoneLoads(f, entry, modules, was, rel);
        return Err(read.error);
      }
      var (data, targets) := read.value;
      assert AreTargets(f, rel, data, targets) && data == f.read(rel).data;
      ReadKeeps(f, entry, modules, was, targets);
      SizesAdd(f, modules, rel, data);
      total := total + |data|;
      modules := modules[rel := data];
      queue := queue + targets;
    }
    assert queue == [];
    LoadedIsReachable(f, entry, modules);
    r := Ok(modules);
  }
}
