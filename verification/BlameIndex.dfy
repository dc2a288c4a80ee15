/**
  Planning a blame from the history index (service/blame_index.go), and the blame walk
  that uses the plan (service/blame.go, `blameWalk`).
 */
module BlameIndex {
  import opened Options
  import opened Blame

  /** A step planned from the index: the file was created, or the version before it. */
  datatype IndexStep = WasCreated | Before(path: Path, content: Content)

  function Rows(l: Listed, p: Path): seq<FileChange>
  {
    if p in l.changes then l.changes[p] else []
  }

  /** `one`: the single change recorded for p in a commit, if there is exactly one. */
  function One(l: Listed, p: Path): (r: Option<FileChange>)
  {
    if |Rows(l, p)| == 1 then Some(Rows(l, p)[0]) else None
  }

  /** `step`, lines 63 to 101: plans the first of the commits, which left the file at
      `path` with `content`. */
  function PlanStep(commits: seq<Listed>, path: Path, content: Content): (r: Option<IndexStep>)
    requires commits != []
  {
    match One(commits[0], path)
    case None => None
    case Some(change) =>
      if change.content != Some(content) then None
      else if change.kind == Added then if change.oldPath.Some? then None else Some(WasCreated)
      else if change.kind == Modified then if change.oldPath.Some? then None else PlanBefore(commits[1..], path)
      else if change.kind == Moved then
        if change.oldPath.None? then None else PlanBefore(commits[1..], change.oldPath.value)
      else None
  }

  /** What the file held after the nearest older listed commit, if the index is sure. */
  function PlanBefore(older: seq<Listed>, prev: Path): (r: Option<IndexStep>)
  {
    if older == [] then None
    else match One(older[0], prev)
      case None => None
      case Some(change) =>
        if change.content.None? || change.kind == OtherChange then None else Some(Before(prev, change.content.value))
  }

  /** The plan of one commit: none where the walk would stop at a stored blame, or
      where the index cannot answer. */
  function PlanNext(commits: seq<Listed>, path: Path, content: Content): (r: Option<IndexStep>)
    requires commits != []
  {
    if Hit(commits[0], path, content) then None
    else if commits[0].commit == 0 then Some(WasCreated)
    else PlanStep(commits, path, content)
  }

  /** `chain`, as a function: consecutive planned steps. */
  function ChainOf(commits: seq<Listed>, path: Path, content: Content, limit: nat): (plan: seq<IndexStep>)
    decreases limit
  {
    if commits == [] || limit == 0 then []
    else
      var step := PlanNext(commits, path, content);
      if step.None? then []
      else if step.value.WasCreated? then [WasCreated]
      else [step.value] + ChainOf(commits[1..], step.value.path, step.value.content, limit - 1)
  }

  lemma ChainNext(commits: seq<Listed>, path: Path, content: Content, limit: nat)
    requires commits != [] && limit > 0
    ensures var plan, step := ChainOf(commits, path, content, limit), PlanNext(commits, path, content);
      if step.None? then plan == []
      else if step.value.WasCreated? then plan == [WasCreated]
      else plan == [step.value] + ChainOf(commits[1..], step.value.path, step.value.content, limit - 1)
  {
  }

  /** Lines 107 to 128. */
  method Chain(commits: seq<Listed>, index: nat, path0: Path, content0: Content, limit: nat)
    returns (out: seq<IndexStep>)
    requires index <= |commits|
    ensures out == ChainOf(commits[index..], path0, content0, limit)
  {
    out := [];
    var path, content := path0, content0;
    var left, room := commits[index..], limit;
    ghost var all := ChainOf(left, path0, content0, limit);
    ghost var rest := all;
    while |left| > 0 && room > 0
      invariant rest == ChainOf(left, path, content, room) && all == out + rest
      decreases room
    {
      ChainNext(left, path, content, room);
      var step := PlanNext(left, path, content);
      if step.None? { return; }
      if step.value.WasCreated? { return out + [WasCreated]; }
      MoveOne(out, rest);
      out := out + [step.value];
      path, content, left, room := step.value.path, step.value.content, left[1..], room - 1;
      rest := rest[1..];
    }
  }

  lemma MoveOne(out: seq<IndexStep>, rest: seq<IndexStep>)
    requires rest != []
    ensures out + rest == out + [rest[0]] + rest[1..]
  {
    assert rest == [rest[0]] + rest[1..];
  }

  // ---------- The index tells the truth ----------

  /** A recorded change says what the commit did to the file, as the two trees show it. */
  ghost predicate TrueChange(h: History, i: nat, p: Path, r: FileChange)
    requires i < |h|
  {
    && (r.content.Some? && r.kind != OtherChange ==> p in h[i] && h[i][p] == r.content.value)
    && (i > 0 && r.kind == Added ==> p !in h[i - 1])
    && (i > 0 && r.kind == Modified ==> p in h[i - 1])
    && (i > 0 && r.kind == Moved && r.oldPath.Some? ==>
          p in h[i] && r.oldPath.value in h[i - 1] && r.oldPath.value !in h[i])
  }

  ghost predicate TrueIndex(h: History, list: seq<Listed>)
  {
    forall k, p :: 0 <= k < |list| && |Rows(list[k], p)| == 1 ==>
      list[k].commit < |h| && TrueChange(h, list[k].commit, p, Rows(list[k], p)[0])
  }

  /** What a planned step should say of a version. */
  function AsPlanned(v: Option<(Path, Content)>): IndexStep
  {
    match v case None => WasCreated case Some((q, c)) => Before(q, c)
  }

  /** The change leaves no doubt where the file was before: an added file has no source
      the tree search would take it from, and a moved one was not there before and was
      moved from the source the search would take. */
  ghost predicate Certain(env: Env, h: History, i: nat, p: Path, r: FileChange)
    requires 0 < i < |h|
  {
    && (r.kind == Added ==> forall q :: !IsSource(env, h, i, p, q))
    && (r.kind == Moved ==> p !in h[i - 1] && MovedFrom(env, h, i, p) == r.oldPath)
  }

  /** A step planned from a true index names the version the tree would give exactly when
      the change is certain. */
  lemma {:induction false} PlanIsTreeIff(env: Env, h: History, list: seq<Listed>, below: nat, path: Path,
                                         content: Content, paths: set<Path>)
    requires list != [] && 0 < list[0].commit < |h| && path in paths
    requires Complete(env, h, list, below, paths) && TrueIndex(h, list) && PlanStep(list, path, content).Some?
    ensures PlanStep(list, path, content).value == AsPlanned(ParentVersion(env, h, list[0].commit, path))
       <==> Certain(env, h, list[0].commit, path, Rows(list[0], path)[0])
  {
    var c := list[0].commit;
    var change := Rows(list[0], path)[0];
    assert TrueChange(h, c, path, change);
    MovedFromIsBest(env, h, c, path);
    if Certain(env, h, c, path, change) && change.kind != Added {
      var prev := if change.kind == Modified then path else change.oldPath.value;
      assert ParentPath(env, h, c, path) == Some(prev);
      var older := list[1];
      assert list[1..][0] == older;
      assert |Rows(older, prev)| == 1 && TrueChange(h, older.commit, prev, Rows(older, prev)[0]);
      SameContent(h, older.commit, c - 1, prev);
    }
  }

  lemma {:induction false} SameContent(h: History, lo: nat, hi: nat, p: Path)
    requires lo <= hi < |h| && p in h[lo] && forall i :: lo < i <= hi ==> Unchanged(h, i, p)
    ensures p in h[hi] && h[hi][p] == h[lo][p]
    decreases hi - lo
  {
    if lo < hi {
      SameContent(h, lo, hi - 1, p);
      assert Unchanged(h, hi, p);
    }
  }

  // ---------- The walk ----------

  const BLAME_BLOB_READ_AHEAD: nat := 64

  /** Lines 343 to 366: the version before a commit, read from its parent's tree. */
  method ReadParent(env: Env, h: History, i: nat, p: Path) returns (parent: Option<(Path, Content)>)
    requires i < |h|
    ensures parent == ParentVersion(env, h, i, p)
  {
    if i == 0 { return None; }
    if p in h[i - 1] { return Some((p, h[i - 1][p])); }
    var from := FindMovedFrom(env, h, i, p);
    if from.None? { return None; }
    return Some((from.value, h[i - 1][from.value]));
  }

  /** Lines 315 to 366: the version before a commit, as planned, unless the content cannot
      be read by its hash, or read from the tree. */
  function ParentOf(env: Env, h: History, i: nat, p: Path, plan: seq<IndexStep>,
                    readable: Content -> bool): (parent: Option<(Path, Content)>)
    requires i < |h|
  {
    if plan != [] && plan[0].WasCreated? then None
    else if plan != [] && readable(plan[0].content) then Some((plan[0].path, plan[0].content))
    else ParentVersion(env, h, i, p)
  }

  function Flatten(pages: seq<seq<Listed>>): (list: seq<Listed>)
  {
    if pages == [] then [] else pages[0] + Flatten(pages[1..])
  }

  /** The pages without their first commit. */
  function Advanced(pages: seq<seq<Listed>>): (r: seq<seq<Listed>>)
    requires pages != [] && pages[0] != []
    ensures |r| == |pages|
  {
    [pages[0][1..]] + pages[1..]
  }

  function Length(pages: seq<seq<Listed>>): nat
  {
    if pages == [] then 0 else |pages[0]| + 1 + Length(pages[1..])
  }

  lemma FlattenAdvanced(pages: seq<seq<Listed>>)
    requires pages != [] && pages[0] != []
    ensures Flatten(pages) == [pages[0][0]] + Flatten(Advanced(pages))
  {
    var page, later := pages[0], Flatten(pages[1..]);
    assert Advanced(pages)[1..] == pages[1..];
    assert Flatten(Advanced(pages)) == page[1..] + later;
    assert page == [page[0]] + page[1..];
    assert ([page[0]] + page[1..]) + later == [page[0]] + (page[1..] + later);
  }

  lemma WithinNext(h: History, l: Listed, rest: seq<Listed>)
    requires Within(h, [l] + rest)
    ensures Within(h, rest) && l.commit < |h|
  {
    assert ([l] + rest)[0] == l;
    assert forall k :: 0 <= k < |rest| ==> ([l] + rest)[k + 1] == rest[k];
  }

  lemma AdvancedPages(h: History, pages: seq<seq<Listed>>)
    requires pages != [] && pages[0] != []
    ensures Flatten(pages) == [pages[0][0]] + Flatten(Advanced(pages)) && Length(Advanced(pages)) < Length(pages)
    ensures Within(h, Flatten(pages)) ==> Within(h, Flatten(Advanced(pages))) && pages[0][0].commit < |h|
  {
    FlattenAdvanced(pages);
    assert Advanced(pages)[1..] == pages[1..];
    if Within(h, Flatten(pages)) { WithinNext(h, pages[0][0], Flatten(Advanced(pages))); }
  }

  lemma SkipEmpty(pages: seq<seq<Listed>>)
    requires pages != [] && pages[0] == []
    ensures Flatten(pages[1..]) == Flatten(pages)
  {
  }

  /** Plans ahead again when the plan has run out, lines 319 to 328. */
  function Replanned(page: seq<Listed>, path: Path, content: Content, plan: seq<IndexStep>, on: bool): seq<IndexStep>
    requires page != []
  {
    if !on || page[0].commit == 0 then []
    else if plan == [] then ChainOf(page, path, content, BLAME_BLOB_READ_AHEAD) else plan
  }

  function Popped(plan: seq<IndexStep>): seq<IndexStep>
  {
    if plan == [] then [] else plan[1..]
  }

  /** The walk of the code, page by page, with the plan it follows; `on` is whether it plans
      from the index. */
  function IndexedWalk(env: Env, h: History, pages: seq<seq<Listed>>, path: Path, content: Content, seen: nat,
                       plan: seq<IndexStep>, on: bool, readable: Content -> bool): (w: Walked)
    requires Within(h, Flatten(pages))
    decreases Length(pages)
  {
    if pages == [] then Walked([], RanOut)
    else if pages[0] == [] then SkipEmpty(pages); IndexedWalk(env, h, pages[1..], path, content, seen, [], on, readable)
    else if Hit(pages[0][0], path, content) then Walked([], AtSnapshot(pages[0][0].snapshots[path]))
    else if seen + 1 > BLAME_MAX_COMMITS then Walked([], Capped)
    else
      AdvancedPages(h, pages);
      var l := pages[0][0];
      var now := Replanned(pages[0], path, content, plan, on);
      var parent := ParentOf(env, h, l.commit, path, now, readable);
      var step := BlameStep(l.commit, path, content, parent);
      match parent
      case None => Walked([step], Created)
      case Some((q, c)) => Onto([step], IndexedWalk(env, h, Advanced(pages), q, c, seen + 1, Popped(now), on, readable))
  }

  function Onto(steps: seq<BlameStep>, w: Walked): Walked
  {
    Walked(steps + w.steps, w.ending)
  }

  lemma OntoOnto(x: seq<BlameStep>, s: BlameStep, w: Walked)
    ensures Onto(x, Onto([s], w)) == Onto(x + [s], w)
  {
    assert x + ([s] + w.steps) == (x + [s]) + w.steps;
  }

  /** The walk with the index off reads trees. */
  lemma {:induction false} OffIsTree(env: Env, h: History, pages: seq<seq<Listed>>, path: Path, content: Content,
                                     seen: nat, readable: Content -> bool)
    requires Within(h, Flatten(pages))
    ensures IndexedWalk(env, h, pages, path, content, seen, [], false, readable) ==
      TreeWalk(env, h, Flatten(pages), path, content, seen)
    decreases Length(pages)
  {
    if pages != [] && pages[0] == [] {
      SkipEmpty(pages);
      OffIsTree(env, h, pages[1..], path, content, seen, readable);
    } else if pages != [] {
      AdvancedPages(h, pages);
      assert Flatten(pages)[1..] == Flatten(Advanced(pages));
      var parent := ParentVersion(env, h, pages[0][0].commit, path);
      if parent.Some? {
        OffIsTree(env, h, Advanced(pages), parent.value.0, parent.value.1, seen + 1, readable);
      }
    }
  }

  // ---------- Where every content can be read ----------

  /** What the index plans for the first commit of a page, or what the tree gives. */
  function PlannedParent(env: Env, h: History, page: seq<Listed>, path: Path,
                         content: Content): (parent: Option<(Path, Content)>)
    requires page != [] && page[0].commit < |h|
  {
    var step := PlanStep(page, path, content);
    if page[0].commit == 0 || step.None? then ParentVersion(env, h, page[0].commit, path)
    else if step.value.WasCreated? then None else Some((step.value.path, step.value.content))
  }

  /** The walk that takes each step from the index where the index plans it. */
  function PlannedWalk(env: Env, h: History, pages: seq<seq<Listed>>, path: Path, content: Content,
                       seen: nat): (w: Walked)
    requires Within(h, Flatten(pages))
    decreases Length(pages)
  {
    if pages == [] then Walked([], RanOut)
    else if pages[0] == [] then SkipEmpty(pages); PlannedWalk(env, h, pages[1..], path, content, seen)
    else if Hit(pages[0][0], path, content) then Walked([], AtSnapshot(pages[0][0].snapshots[path]))
    else if seen + 1 > BLAME_MAX_COMMITS then Walked([], Capped)
    else
      AdvancedPages(h, pages);
      var parent := PlannedParent(env, h, pages[0], path, content);
      var step := BlameStep(pages[0][0].commit, path, content, parent);
      match parent
      case None => Walked([step], Created)
      case Some((q, c)) => Onto([step], PlannedWalk(env, h, Advanced(pages), q, c, seen + 1))
  }

  lemma PlanHead(env: Env, h: History, page: seq<Listed>, path: Path, content: Content, plan: seq<IndexStep>, room: nat,
                 readable: Content -> bool)
    requires page != [] && page[0].commit < |h| && !Hit(page[0], path, content)
    requires plan == ChainOf(page, path, content, room)
    requires forall c :: readable(c)
    ensures var now := Replanned(page, path, content, plan, true);
      && ParentOf(env, h, page[0].commit, path, now, readable) == PlannedParent(env, h, page, path, content)
      && var parent := PlannedParent(env, h, page, path, content);
        parent.Some? && page[0].commit > 0 ==>
          Popped(now) ==
            ChainOf(page[1..], parent.value.0, parent.value.1, (if plan == [] then BLAME_BLOB_READ_AHEAD else room) - 1)
          || Popped(now) == []
  {
    if page[0].commit > 0 {
      var r: nat := if plan == [] then BLAME_BLOB_READ_AHEAD else room;
      assert r > 0;
      ChainNext(page, path, content, r);
    }
  }

  /** When every content can be read by its hash, the code's plan ahead makes no difference:
      it takes each step as the index plans it. */
  lemma {:induction false} ReadableIsPlanned(env: Env, h: History, pages: seq<seq<Listed>>, path: Path,
                                             content: Content, seen: nat, plan: seq<IndexStep>, room: nat,
                                             readable: Content -> bool)
    requires Within(h, Flatten(pages)) && (forall c :: readable(c))
    requires pages != [] ==> plan == ChainOf(pages[0], path, content, room)
    ensures IndexedWalk(env, h, pages, path, content, seen, plan, true, readable) ==
      PlannedWalk(env, h, pages, path, content, seen)
    decreases Length(pages)
  {
    if pages != [] && pages[0] == [] {
      SkipEmpty(pages);
      ReadableIsPlanned(env, h, pages[1..], path, content, seen, [], 0, readable);
    } else if pages != [] && !Hit(pages[0][0], path, content) {
      AdvancedPages(h, pages);
      PlanHead(env, h, pages[0], path, content, plan, room, readable);
      var parent := PlannedParent(env, h, pages[0], path, content);
      if parent.Some? {
        var now := Replanned(pages[0], path, content, plan, true);
        var r: nat := (if plan == [] then BLAME_BLOB_READ_AHEAD else room);
        var left: nat := if Popped(now) == [] || r == 0 then 0 else r - 1;
        ReadableIsPlanned(env, h, Advanced(pages), parent.value.0, parent.value.1, seen + 1, Popped(now), left,
                          readable);
      }
    }
  }

  // ---------- Exactly when the index may be used ----------

  /** Along the walk that reads trees, every change the index plans from is certain. */
  ghost predicate CertainAlong(env: Env, h: History, pages: seq<seq<Listed>>, path: Path, content: Content, seen: nat)
    requires Within(h, Flatten(pages))
    decreases Length(pages)
  {
    if pages == [] then true
    else if pages[0] == [] then SkipEmpty(pages); CertainAlong(env, h, pages[1..], path, content, seen)
    else if Hit(pages[0][0], path, content) || seen + 1 > BLAME_MAX_COMMITS then true
    else
      AdvancedPages(h, pages);
      var c, parent := pages[0][0].commit, ParentVersion(env, h, pages[0][0].commit, path);
      && (c > 0 && PlanStep(pages[0], path, content).Some? ==> Certain(env, h, c, path, Rows(pages[0][0], path)[0]))
      && (parent.Some? ==> CertainAlong(env, h, Advanced(pages), parent.value.0, parent.value.1, seen + 1))
  }

  /** The listing is complete for the file's paths, and the index is true. */
  ghost predicate GoodPages(env: Env, h: History, pages: seq<seq<Listed>>, below: nat, path: Path, paths: set<Path>)
  {
    Within(h, Flatten(pages)) && path in paths && Complete(env, h, Flatten(pages), below, paths)
    && TrueIndex(h, Flatten(pages))
  }

  lemma {:induction false} CompletePrefix(env: Env, h: History, x: seq<Listed>, y: seq<Listed>, below: nat,
                                          paths: set<Path>)
    requires Complete(env, h, x + y, below, paths)
    ensures Complete(env, h, x, below, paths)
    decreases |x|
  {
    if x != [] {
      assert (x + y)[1..] == x[1..] + y;
      CompletePrefix(env, h, x[1..], y, x[0].commit, paths);
    }
  }

  lemma TrueIndexSplit(h: History, x: seq<Listed>, y: seq<Listed>)
    requires TrueIndex(h, x + y)
    ensures TrueIndex(h, x) && TrueIndex(h, y)
  {
    assert forall k :: 0 <= k < |x| ==> x[k] == (x + y)[k];
    assert forall k :: 0 <= k < |y| ==> y[k] == (x + y)[|x| + k];
  }

  lemma GoodNext(env: Env, h: History, pages: seq<seq<Listed>>, below: nat, path: Path, paths: set<Path>)
    requires GoodPages(env, h, pages, below, path, paths) && pages != [] && pages[0] != []
    ensures var c := pages[0][0].commit;
      && c < |h| && Within(h, Flatten(Advanced(pages))) && Flatten(pages)[1..] == Flatten(Advanced(pages))
      && (ParentPath(env, h, c, path).Some? ==>
            GoodPages(env, h, Advanced(pages), c, ParentPath(env, h, c, path).value, paths))
  {
    AdvancedPages(h, pages);
    assert Flatten(pages)[0] == pages[0][0] && Flatten(pages)[1..] == Flatten(Advanced(pages));
    TrueIndexSplit(h, [pages[0][0]], Flatten(Advanced(pages)));
  }

  lemma GoodPlan(env: Env, h: History, pages: seq<seq<Listed>>, below: nat, path: Path, content: Content,
                 paths: set<Path>)
    requires GoodPages(env, h, pages, below, path, paths) && pages != [] && pages[0] != []
    requires 0 < pages[0][0].commit < |h| && PlanStep(pages[0], path, content).Some?
    ensures PlanStep(pages[0], path, content).value == AsPlanned(ParentVersion(env, h, pages[0][0].commit, path))
       <==> Certain(env, h, pages[0][0].commit, path, Rows(pages[0][0], path)[0])
  {
    CompletePrefix(env, h, pages[0], Flatten(pages[1..]), below, paths);
    TrueIndexSplit(h, pages[0], Flatten(pages[1..]));
    PlanIsTreeIff(env, h, pages[0], below, path, content, paths);
  }

  /** The walk ends here: no pages are left, a stored blame is there, or it is too long. */
  predicate Stops(pages: seq<seq<Listed>>, path: Path, content: Content, seen: nat)
  {
    pages == [] || (pages[0] != [] && (Hit(pages[0][0], path, content) || seen + 1 > BLAME_MAX_COMMITS))
  }

  lemma StopsAlike(env: Env, h: History, pages: seq<seq<Listed>>, path: Path, content: Content, seen: nat,
                   plan: seq<IndexStep>, on: bool, readable: Content -> bool)
    requires Within(h, Flatten(pages)) && Stops(pages, path, content, seen)
    ensures PlannedWalk(env, h, pages, path, content, seen) == TreeWalk(env, h, Flatten(pages), path, content, seen)
    ensures IndexedWalk(env, h, pages, path, content, seen, plan, on, readable) ==
      TreeWalk(env, h, Flatten(pages), path, content, seen)
    ensures CertainAlong(env, h, pages, path, content, seen)
  {
    if pages != [] { assert Flatten(pages)[0] == pages[0][0]; }
  }

  lemma SkipAlike(env: Env, h: History, pages: seq<seq<Listed>>, path: Path, content: Content, seen: nat,
                  plan: seq<IndexStep>, on: bool, readable: Content -> bool)
    requires Within(h, Flatten(pages)) && pages != [] && pages[0] == []
    ensures Flatten(pages[1..]) == Flatten(pages) && Length(pages[1..]) < Length(pages)
    ensures PlannedWalk(env, h, pages, path, content, seen) == PlannedWalk(env, h, pages[1..], path, content, seen)
    ensures IndexedWalk(env, h, pages, path, content, seen, plan, on, readable) ==
      IndexedWalk(env, h, pages[1..], path, content, seen, [], on, readable)
    ensures CertainAlong(env, h, pages, path, content, seen) <==> CertainAlong(env, h, pages[1..], path, content, seen)
  {
    SkipEmpty(pages);
  }

  /** Planning from a true index gives the walk that reads trees exactly when every change it
      plans from, along that walk, is certain. */
  lemma {:induction false} PlannedIsTreeIff(env: Env, h: History, pages: seq<seq<Listed>>, below: nat, path: Path,
                                            content: Content, seen: nat, paths: set<Path>)
    requires GoodPages(env, h, pages, below, path, paths)
    ensures PlannedWalk(env, h, pages, path, content, seen) == TreeWalk(env, h, Flatten(pages), path, content, seen)
       <==> CertainAlong(env, h, pages, path, content, seen)
    decreases Length(pages)
  {
    if Stops(pages, path, content, seen) {
      StopsAlike(env, h, pages, path, content, seen, [], true, _ => true);
    } else if pages[0] == [] {
      SkipAlike(env, h, pages, path, content, seen, [], true, _ => true);
      PlannedIsTreeIff(env, h, pages[1..], below, path, content, seen, paths);
    } else {
      GoodNext(env, h, pages, below, path, paths);
      AdvancedPages(h, pages);
      var c, parent := pages[0][0].commit, ParentVersion(env, h, pages[0][0].commit, path);
      if c > 0 && PlanStep(pages[0], path, content).Some? {
        GoodPlan(env, h, pages, below, path, content, paths);
      }
      if parent.Some? {
        PlannedIsTreeIff(env, h, Advanced(pages), c, parent.value.0, parent.value.1, seen + 1, paths);
      }
      PlannedStepIff(env, h, pages, path, content, seen);
    }
  }

  lemma PlannedStepIff(env: Env, h: History, pages: seq<seq<Listed>>, path: Path, content: Content, seen: nat)
    requires Within(h, Flatten(pages)) && pages != [] && pages[0] != [] && !Hit(pages[0][0], path, content)
    requires seen + 1 <= BLAME_MAX_COMMITS
    requires Within(h, Flatten(Advanced(pages))) && pages[0][0].commit < |h|
    requires var c := pages[0][0].commit;
      c > 0 && PlanStep(pages[0], path, content).Some? ==>
        (PlanStep(pages[0], path, content).value == AsPlanned(ParentVersion(env, h, c, path))
         <==> Certain(env, h, c, path, Rows(pages[0][0], path)[0]))
    requires var parent := ParentVersion(env, h, pages[0][0].commit, path);
      parent.Some? ==>
        (PlannedWalk(env, h, Advanced(pages), parent.value.0, parent.value.1, seen + 1)
           == TreeWalk(env, h, Flatten(Advanced(pages)), parent.value.0, parent.value.1, seen + 1)
         <==> CertainAlong(env, h, Advanced(pages), parent.value.0, parent.value.1, seen + 1))
    ensures PlannedWalk(env, h, pages, path, content, seen) == TreeWalk(env, h, Flatten(pages), path, content, seen)
       <==> CertainAlong(env, h, pages, path, content, seen)
  {
    PlannedWalkNext(env, h, pages, path, content, seen);
    TreeWalkNext(env, h, pages, path, content, seen);
    var c := pages[0][0].commit;
    var planned, parent := PlannedParent(env, h, pages[0], path, content), ParentVersion(env, h, c, path);
    var x, y := PlannedWalk(env, h, pages, path, content, seen), TreeWalk(env, h, Flatten(pages), path, content, seen);
    assert x.steps[0].parent == planned && y.steps[0].parent == parent;
    if planned == parent && parent.Some? {
      OntoInjective(x.steps[0], PlannedWalk(env, h, Advanced(pages), parent.value.0, parent.value.1, seen + 1),
                    TreeWalk(env, h, Flatten(Advanced(pages)), parent.value.0, parent.value.1, seen + 1));
    }
  }

  lemma OntoInjective(s: BlameStep, x: Walked, y: Walked)
    ensures Onto([s], x) == Onto([s], y) <==> x == y
  {
    assert ([s] + x.steps)[1..] == x.steps && ([s] + y.steps)[1..] == y.steps;
  }

  /** Every step of a plan is what the trees would give, as far as the walk may go. */
  ghost predicate FollowsTrees(env: Env, h: History, list: seq<Listed>, path: Path, plan: seq<IndexStep>, seen: nat)
    decreases |plan|
  {
    plan == [] || seen + 1 > BLAME_MAX_COMMITS || (
      && list != [] && list[0].commit < |h| && plan[0] == AsPlanned(ParentVersion(env, h, list[0].commit, path))
      && (plan[0].Before? ==> FollowsTrees(env, h, list[1..], plan[0].path, plan[1..], seen + 1))
      && (plan[0].WasCreated? ==> |plan| == 1))
  }

  lemma {:induction false} ChainFollowsTrees(env: Env, h: History, pages: seq<seq<Listed>>, below: nat, path: Path,
                                             content: Content, seen: nat, limit: nat, paths: set<Path>)
    requires GoodPages(env, h, pages, below, path, paths) && pages != []
    requires CertainAlong(env, h, pages, path, content, seen)
    ensures FollowsTrees(env, h, pages[0], path, ChainOf(pages[0], path, content, limit), seen)
    decreases limit
  {
    if pages[0] != [] && limit > 0 && seen + 1 <= BLAME_MAX_COMMITS {
      var step := PlanNext(pages[0], path, content);
      if step.Some? && step.value.Before? {
        CertainPlan(env, h, pages, below, path, content, seen, step.value, paths);
        ChainFollowsTrees(env, h, Advanced(pages), pages[0][0].commit, step.value.path, step.value.content, seen + 1,
                          limit - 1, paths);
      }
      ChainTurn(env, h, pages, below, path, content, seen, limit, paths);
    }
  }

  lemma ChainTurn(env: Env, h: History, pages: seq<seq<Listed>>, below: nat, path: Path, content: Content, seen: nat,
                  limit: nat, paths: set<Path>)
    requires GoodPages(env, h, pages, below, path, paths) && pages != [] && pages[0] != [] && limit > 0
    requires CertainAlong(env, h, pages, path, content, seen) && seen + 1 <= BLAME_MAX_COMMITS
    requires var step := PlanNext(pages[0], path, content);
      step.Some? && step.value.Before? ==>
        var rest := ChainOf(pages[0][1..], step.value.path, step.value.content, limit - 1);
        FollowsTrees(env, h, pages[0][1..], step.value.path, rest, seen + 1)
    ensures FollowsTrees(env, h, pages[0], path, ChainOf(pages[0], path, content, limit), seen)
  {
    ChainNext(pages[0], path, content, limit);
    match PlanNext(pages[0], path, content) {
      case None =>
      case Some(step) =>
        CertainPlan(env, h, pages, below, path, content, seen, step, paths);
        var rest := if step.WasCreated? then [] else ChainOf(pages[0][1..], step.path, step.content, limit - 1);
        FollowsCons(env, h, pages[0], path, step, rest, seen);
    }
  }

  /** A step planned where the change is certain is the tree's, and so it is from there on. */
  lemma CertainPlan(env: Env, h: History, pages: seq<seq<Listed>>, below: nat, path: Path, content: Content,
                    seen: nat, step: IndexStep, paths: set<Path>)
    requires GoodPages(env, h, pages, below, path, paths) && pages != [] && pages[0] != []
    requires CertainAlong(env, h, pages, path, content, seen) && seen + 1 <= BLAME_MAX_COMMITS
    requires PlanNext(pages[0], path, content) == Some(step)
    ensures pages[0][0].commit < |h| && step == AsPlanned(ParentVersion(env, h, pages[0][0].commit, path))
    ensures step.Before? ==>
      && GoodPages(env, h, Advanced(pages), pages[0][0].commit, step.path, paths)
      && CertainAlong(env, h, Advanced(pages), step.path, step.content, seen + 1)
  {
    GoodNext(env, h, pages, below, path, paths);
    if pages[0][0].commit > 0 { GoodPlan(env, h, pages, below, path, content, paths); }
  }

  lemma FollowsCons(env: Env, h: History, list: seq<Listed>, path: Path, step: IndexStep, rest: seq<IndexStep>,
                    seen: nat)
    requires list != [] && list[0].commit < |h| && step == AsPlanned(ParentVersion(env, h, list[0].commit, path))
    requires if step.Before? then FollowsTrees(env, h, list[1..], step.path, rest, seen + 1) else rest == []
    ensures FollowsTrees(env, h, list, path, [step] + rest, seen)
  {
    assert ([step] + rest)[1..] == rest;
  }

  lemma CertainStep(env: Env, h: History, pages: seq<seq<Listed>>, below: nat, path: Path, content: Content,
                    seen: nat, plan: seq<IndexStep>, readable: Content -> bool, paths: set<Path>)
    requires GoodPages(env, h, pages, below, path, paths) && CertainAlong(env, h, pages, path, content, seen)
    requires pages != [] && pages[0] != [] && pages[0][0].commit < |h|
    requires FollowsTrees(env, h, pages[0], path, plan, seen)
    requires !Hit(pages[0][0], path, content) && seen + 1 <= BLAME_MAX_COMMITS
    ensures var now, parent := Replanned(pages[0], path, content, plan, true),
          ParentVersion(env, h, pages[0][0].commit, path);
      && ParentOf(env, h, pages[0][0].commit, path, now, readable) == parent
      && Within(h, Flatten(Advanced(pages))) && Length(Advanced(pages)) < Length(pages)
      && (parent.Some? ==>
            && GoodPages(env, h, Advanced(pages), pages[0][0].commit, parent.value.0, paths)
            && CertainAlong(env, h, Advanced(pages), parent.value.0, parent.value.1, seen + 1)
            && FollowsTrees(env, h, Advanced(pages)[0], parent.value.0, Popped(now), seen + 1))
  {
    var now := Replanned(pages[0], path, content, plan, true);
    AdvancedPages(h, pages);
    GoodNext(env, h, pages, below, path, paths);
    if pages[0][0].commit > 0 && plan == [] {
      ChainFollowsTrees(env, h, pages, below, path, content, seen, BLAME_BLOB_READ_AHEAD, paths);
    }
    assert FollowsTrees(env, h, pages[0], path, now, seen);
  }

  /** The walk that reads trees, one commit on. */
  lemma TreeWalkNext(env: Env, h: History, pages: seq<seq<Listed>>, path: Path, content: Content, seen: nat)
    requires Within(h, Flatten(pages)) && pages != [] && pages[0] != [] && !Hit(pages[0][0], path, content)
    requires seen + 1 <= BLAME_MAX_COMMITS
    ensures Within(h, Flatten(Advanced(pages))) && pages[0][0].commit < |h|
    ensures var parent := ParentVersion(env, h, pages[0][0].commit, path);
      var step := BlameStep(pages[0][0].commit, path, content, parent);
      TreeWalk(env, h, Flatten(pages), path, content, seen) ==
      match parent {
        case None => Walked([step], Created)
        case Some((q, c)) => Onto([step], TreeWalk(env, h, Flatten(Advanced(pages)), q, c, seen + 1))
      }
  {
    AdvancedPages(h, pages);
    assert Flatten(pages)[0] == pages[0][0] && Flatten(pages)[1..] == Flatten(Advanced(pages));
  }

  lemma IndexedWalkNext(env: Env, h: History, pages: seq<seq<Listed>>, path: Path, content: Content, seen: nat,
                        plan: seq<IndexStep>, on: bool, readable: Content -> bool)
    requires Within(h, Flatten(pages)) && pages != [] && pages[0] != [] && !Hit(pages[0][0], path, content)
    requires seen + 1 <= BLAME_MAX_COMMITS
    ensures Within(h, Flatten(Advanced(pages))) && pages[0][0].commit < |h|
    ensures var now := Replanned(pages[0], path, content, plan, on);
      var parent := ParentOf(env, h, pages[0][0].commit, path, now, readable);
      var step := BlameStep(pages[0][0].commit, path, content, parent);
      IndexedWalk(env, h, pages, path, content, seen, plan, on, readable) ==
      match parent {
        case None => Walked([step], Created)
        case Some((q, c)) =>
          Onto([step], IndexedWalk(env, h, Advanced(pages), q, c, seen + 1, Popped(now), on, readable))
      }
  {
    AdvancedPages(h, pages);
  }

  lemma PlannedWalkNext(env: Env, h: History, pages: seq<seq<Listed>>, path: Path, content: Content, seen: nat)
    requires Within(h, Flatten(pages)) && pages != [] && pages[0] != [] && !Hit(pages[0][0], path, content)
    requires seen + 1 <= BLAME_MAX_COMMITS
    ensures Within(h, Flatten(Advanced(pages))) && pages[0][0].commit < |h|
    ensures var parent := PlannedParent(env, h, pages[0], path, content);
      var step := BlameStep(pages[0][0].commit, path, content, parent);
      PlannedWalk(env, h, pages, path, content, seen) ==
      match parent {
        case None => Walked([step], Created)
        case Some((q, c)) => Onto([step], PlannedWalk(env, h, Advanced(pages), q, c, seen + 1))
      }
  {
    AdvancedPages(h, pages);
  }

  /** Where every change is certain, the walk with the index on is the walk that reads trees,
      whichever contents can be read by their hash. */
  lemma {:induction false} CertainIsTree(env: Env, h: History, pages: seq<seq<Listed>>, below: nat, path: Path,
                                         content: Content, seen: nat, plan: seq<IndexStep>, readable: Content -> bool,
                                         paths: set<Path>)
    requires GoodPages(env, h, pages, below, path, paths) && CertainAlong(env, h, pages, path, content, seen)
    requires pages != [] ==> FollowsTrees(env, h, pages[0], path, plan, seen)
    ensures IndexedWalk(env, h, pages, path, content, seen, plan, true, readable) ==
      TreeWalk(env, h, Flatten(pages), path, content, seen)
    decreases Length(pages)
  {
    if Stops(pages, path, content, seen) {
      StopsAlike(env, h, pages, path, content, seen, plan, true, readable);
    } else if pages[0] == [] {
      SkipAlike(env, h, pages, path, content, seen, plan, true, readable);
      CertainIsTree(env, h, pages[1..], below, path, content, seen, [], readable, paths);
    } else {
      CertainStep(env, h, pages, below, path, content, seen, plan, readable, paths);
      var now, parent := Replanned(pages[0], path, content, plan, true),
          ParentVersion(env, h, pages[0][0].commit, path);
      if parent.Some? {
        CertainIsTree(env, h, Advanced(pages), pages[0][0].commit, parent.value.0, parent.value.1, seen + 1,
                      Popped(now), readable, paths);
      }
      SameStep(env, h, pages, path, content, seen, plan, readable);
    }
  }

  lemma SameStep(env: Env, h: History, pages: seq<seq<Listed>>, path: Path, content: Content, seen: nat,
                 plan: seq<IndexStep>, readable: Content -> bool)
    requires Within(h, Flatten(pages)) && pages != [] && pages[0] != [] && !Hit(pages[0][0], path, content)
    requires seen + 1 <= BLAME_MAX_COMMITS
    requires Within(h, Flatten(Advanced(pages))) && pages[0][0].commit < |h|
    requires var now, parent := Replanned(pages[0], path, content, plan, true),
          ParentVersion(env, h, pages[0][0].commit, path);
      && ParentOf(env, h, pages[0][0].commit, path, now, readable) == parent
      && (parent.Some? ==>
            IndexedWalk(env, h, Advanced(pages), parent.value.0, parent.value.1, seen + 1, Popped(now), true, readable)
            == TreeWalk(env, h, Flatten(Advanced(pages)), parent.value.0, parent.value.1, seen + 1))
    ensures IndexedWalk(env, h, pages, path, content, seen, plan, true, readable) ==
      TreeWalk(env, h, Flatten(pages), path, content, seen)
  {
    IndexedWalkNext(env, h, pages, path, content, seen, plan, true, readable);
    TreeWalkNext(env, h, pages, path, content, seen);
  }

  /** The walk may be trusted: it reads trees, or the index is true and certain along it. */
  ghost predicate Trusted(env: Env, h: History, pages: seq<seq<Listed>>, path: Path, content: Content, on: bool)
    requires Within(h, Flatten(pages))
  {
    on ==> TrueIndex(h, Flatten(pages)) && CertainAlong(env, h, pages, path, content, 0)
  }

  lemma TrustedIsTree(env: Env, h: History, pages: seq<seq<Listed>>, below: nat, path: Path, content: Content, on: bool,
                      readable: Content -> bool, paths: set<Path>)
    requires Within(h, Flatten(pages)) && path in paths && Complete(env, h, Flatten(pages), below, paths)
    requires Trusted(env, h, pages, path, content, on)
    ensures IndexedWalk(env, h, pages, path, content, 0, [], on, readable) ==
      TreeWalk(env, h, Flatten(pages), path, content, 0)
  {
    if on {
      CertainIsTree(env, h, pages, below, path, content, 0, [], readable, paths);
    } else {
      OffIsTree(env, h, pages, path, content, 0, readable);
    }
  }

  // ---------- The walk, as the code does it ----------

  /** Lines 315 to 366. */
  method TakeParent(env: Env, h: History, i: nat, p: Path, plan: seq<IndexStep>, readable: Content -> bool)
    returns (parent: Option<(Path, Content)>)
    requires i < |h|
    ensures parent == ParentOf(env, h, i, p, plan, readable)
  {
    var planned := if |plan| > 0 then Some(plan[0]) else None;
    if planned.Some? && planned.value.WasCreated? { return None; }
    if planned.Some? {
      if readable(planned.value.content) { return Some((planned.value.path, planned.value.content)); }
      planned := None;
    }
    parent := ReadParent(env, h, i, p);
  }

  /** What a walk of one page leaves for the next. */
  datatype PageEnd = Stopped(ending: Ending) | GoOn(path: Path, content: Content)

  /** Lines 296 to 373: the commits of one page; `later` are the pages still to come. */
  method WalkPage(env: Env, h: History, page: seq<Listed>, path0: Path, content0: Content, steps0: seq<BlameStep>,
                  seen0: nat, on: bool, readable: Content -> bool, ghost later: seq<seq<Listed>>)
    returns (steps: seq<BlameStep>, seen: nat, end: PageEnd)
    requires Within(h, Flatten([page] + later)) && Within(h, Flatten(later))
    ensures end.Stopped? ==>
      Onto(steps0, IndexedWalk(env, h, [page] + later, path0, content0, seen0, [], on, readable)) ==
        Walked(steps, end.ending)
    ensures end.GoOn? ==>
      Onto(steps0, IndexedWalk(env, h, [page] + later, path0, content0, seen0, [], on, readable)) ==
      Onto(steps, IndexedWalk(env, h, later, end.path, end.content, seen, [], on, readable))
  {
    steps, seen := steps0, seen0;
    ghost var all := Onto(steps0, IndexedWalk(env, h, [page] + later, path0, content0, seen0, [], on, readable));
    var path, content := path0, content0;
    var plan: seq<IndexStep> := [];
    var left := page;
    while |left| > 0
      invariant Within(h, Flatten([left] + later))
      invariant all == Onto(steps, IndexedWalk(env, h, [left] + later, path, content, seen, plan, on, readable))
      decreases |left|
    {
      PageNext(env, h, left, later, path, content, seen, plan, on, readable, steps);
      var commit := left[0];
      if Hit(commit, path, content) {
        return steps, seen, Stopped(AtSnapshot(commit.snapshots[path]));
      }
      if seen + 1 > BLAME_MAX_COMMITS { return steps, seen + 1, Stopped(Capped); }
      plan := Replan(left, path, content, plan, on);
      var parent := TakeParent(env, h, commit.commit, path, plan, readable);
      var step := BlameStep(commit.commit, path, content, parent);
      if parent.None? { return steps + [step], seen + 1, Stopped(Created); }
      steps, seen := steps + [step], seen + 1;
      plan := if |plan| == 0 then [] else plan[1..];
      path, content, left := parent.value.0, parent.value.1, left[1..];
    }
    assert ([left] + later)[1..] == later;
    end := GoOn(path, content);
  }

  /** One turn of the loop over a page, in terms of the walk that is still to come. */
  lemma PageNext(env: Env, h: History, left: seq<Listed>, later: seq<seq<Listed>>, path: Path, content: Content,
                 seen: nat, plan: seq<IndexStep>, on: bool, readable: Content -> bool, steps: seq<BlameStep>)
    requires |left| > 0 && Within(h, Flatten([left] + later))
    ensures left[0].commit < |h| && Within(h, Flatten([left[1..]] + later))
    ensures var all := Onto(steps, IndexedWalk(env, h, [left] + later, path, content, seen, plan, on, readable));
      if Hit(left[0], path, content) then all == Walked(steps, AtSnapshot(left[0].snapshots[path]))
      else if seen + 1 > BLAME_MAX_COMMITS then all == Walked(steps, Capped)
      else
        var now := Replanned(left, path, content, plan, on);
        var parent := ParentOf(env, h, left[0].commit, path, now, readable);
        var step := BlameStep(left[0].commit, path, content, parent);
        match parent
        case None => all == Walked(steps + [step], Created)
        case Some((q, c)) =>
          var rest := IndexedWalk(env, h, [left[1..]] + later, q, c, seen + 1, Popped(now), on, readable);
          all == Onto(steps + [step], rest)
  {
    var pages := [left] + later;
    assert pages[0] == left && pages[1..] == later && Advanced(pages) == [left[1..]] + later;
    AdvancedPages(h, pages);
    if !Hit(left[0], path, content) && seen + 1 <= BLAME_MAX_COMMITS {
      IndexedWalkNext(env, h, pages, path, content, seen, plan, on, readable);
      var now := Replanned(left, path, content, plan, on);
      var parent := ParentOf(env, h, left[0].commit, path, now, readable);
      var step := BlameStep(left[0].commit, path, content, parent);
      if parent.Some? {
        var (q, c) := parent.value;
        OntoOnto(steps, step, IndexedWalk(env, h, Advanced(pages), q, c, seen + 1, Popped(now), on, readable));
      }
    }
  }

  /** Lines 319 to 328. */
  method Replan(page: seq<Listed>, path: Path, content: Content, plan0: seq<IndexStep>, on: bool)
    returns (plan: seq<IndexStep>)
    requires page != []
    ensures plan == Replanned(page, path, content, plan0, on)
  {
    plan := [];
    if page[0].commit > 0 && on {
      plan := plan0;
      if |plan| == 0 {
        plan := Chain(page, 0, path, content, BLAME_BLOB_READ_AHEAD);
        assert page[0..] == page;
      }
    }
  }

  /** Lines 240 to 378: the pages one after the other.  With the index off the walk reads
      trees; with it on and true it is that walk where every change along it is certain, and
      where all contents can be read, only there. */
  method Walk(env: Env, h: History, p: Path, pages: seq<seq<Listed>>, on: bool, readable: Content -> bool,
              ghost paths: set<Path>)
    returns (w: Walked)
    requires h != [] && p in h[|h| - 1] && p in paths && Within(h, Flatten(pages))
    requires Complete(env, h, Flatten(pages), |h|, paths)
    ensures w == IndexedWalk(env, h, pages, p, h[|h| - 1][p], 0, [], on, readable)
    ensures !on || (TrueIndex(h, Flatten(pages)) && CertainAlong(env, h, pages, p, h[|h| - 1][p], 0)) ==>
      w == TreeWalk(env, h, Flatten(pages), p, h[|h| - 1][p], 0)
    ensures on && TrueIndex(h, Flatten(pages)) && (forall c :: readable(c)) ==>
      (w == TreeWalk(env, h, Flatten(pages), p, h[|h| - 1][p], 0) <==> CertainAlong(env, h, pages, p, h[|h| - 1][p], 0))
  {
    w := WalkPages(env, h, p, h[|h| - 1][p], pages, on, readable);
    if Trusted(env, h, pages, p, h[|h| - 1][p], on) {
      TrustedIsTree(env, h, pages, |h|, p, h[|h| - 1][p], on, readable, paths);
    }
    if on && TrueIndex(h, Flatten(pages)) && forall c :: readable(c) {
      ReadableIsPlanned(env, h, pages, p, h[|h| - 1][p], 0, [], 0, readable);
      PlannedIsTreeIff(env, h, pages, |h|, p, h[|h| - 1][p], 0, paths);
    }
  }

  method WalkPages(env: Env, h: History, p: Path, content0: Content, pages: seq<seq<Listed>>, on: bool,
                   readable: Content -> bool)
    returns (w: Walked)
    requires Within(h, Flatten(pages))
    ensures w == IndexedWalk(env, h, pages, p, content0, 0, [], on, readable)
  {
    var path, content := p, content0;
    var steps: seq<BlameStep> := [];
    var seen := 0;
    ghost var all := IndexedWalk(env, h, pages, p, content, 0, [], on, readable);
    for k := 0 to |pages|
      invariant Within(h, Flatten(pages[k..]))
      invariant all == Onto(steps, IndexedWalk(env, h, pages[k..], path, content, seen, [], on, readable))
    {
      PageOn(h, pages, k);
      var end;
      steps, seen, end := WalkPage(env, h, pages[k], path, content, steps, seen, on, readable, pages[k + 1..]);
      if end.Stopped? { return Walked(steps, end.ending); }
      path, content := end.path, end.content;
    }
    w := Walked(steps, RanOut);
  }

  lemma PageOn(h: History, pages: seq<seq<Listed>>, k: nat)
    requires k < |pages| && Within(h, Flatten(pages[k..]))
    ensures pages[k..] == [pages[k]] + pages[k + 1..] && Within(h, Flatten(pages[k + 1..]))
  {
    var page, rest := pages[k], Flatten(pages[k + 1..]);
    assert pages[k..][1..] == pages[k + 1..];
    assert forall j :: 0 <= j < |rest| ==> Flatten(pages[k..])[|page| + j] == rest[j];
  }

  // ---------- Carrying the blame forward ----------

  /** `carryBlame`, lines 572 to 593. */
  method CarryBlame(env: Env, owners: seq<nat>, step: BlameStep) returns (out: seq<nat>)
    requires step.parent.Some? && step.parent.value.1 == step.content ==> |owners| == |step.content|
    ensures out == CarryStep(env, owners, step)
  {
    if step.parent.None? { return seq(|step.content|, _ => step.commit); }
    if step.parent.value.1 == step.content { return owners; }
    var m := env.matching(step.parent.value.1, step.content);
    var buf := new nat[|step.content|](_ => 0);
    for j := 0 to |step.content|
      invariant forall i :: 0 <= i < j ==> buf[i] == CarryLine(m, owners, step.commit, i)
    {
      if j < |m| && 0 <= m[j] < |owners| { buf[j] := owners[m[j]]; } else { buf[j] := step.commit; }
    }
    out := buf[..];
  }

  /** Each step's parent version is the next older step's version. */
  ghost predicate Linked(steps: seq<BlameStep>)
  {
    forall k :: 0 <= k < |steps| - 1 ==>
      steps[k].parent.Some? && steps[k].parent.value == (steps[k + 1].path, steps[k + 1].content)
  }

  ghost predicate WellEnded(w: Walked, path: Path, content: Content)
  {
    && Linked(w.steps)
    && (w.steps != [] ==> w.steps[0].path == path && w.steps[0].content == content)
    && (w.steps != [] ==> (w.steps[|w.steps| - 1].parent.None? <==> w.ending.Created?))
    && (w.ending.Created? ==> w.steps != [])
    && (w.ending.AtSnapshot? ==>
          && |w.ending.snapshot.owners| == |w.ending.snapshot.content|
          && w.ending.snapshot.content == if w.steps == [] then content else w.steps[|w.steps| - 1].parent.value.1)
  }

  lemma OntoWellEnded(step: BlameStep, w: Walked)
    requires step.parent.Some? && WellEnded(w, step.parent.value.0, step.parent.value.1)
    ensures WellEnded(Onto([step], w), step.path, step.content)
  {
    var all := Onto([step], w);
    assert forall k :: 0 < k < |all.steps| ==> all.steps[k] == w.steps[k - 1];
    assert all.steps[|all.steps| - 1] == if w.steps == [] then step else w.steps[|w.steps| - 1];
  }

  lemma LengthsNext(l: Listed, rest: seq<Listed>)
    requires SnapshotLengths([l] + rest)
    ensures SnapshotLengths(rest)
    ensures forall p :: p in l.snapshots ==> |l.snapshots[p].owners| == |l.snapshots[p].content|
  {
    assert ([l] + rest)[0] == l;
    assert forall k :: 0 <= k < |rest| ==> ([l] + rest)[k + 1] == rest[k];
  }

  lemma StopsWellEnded(env: Env, h: History, pages: seq<seq<Listed>>, path: Path, content: Content, seen: nat,
                       plan: seq<IndexStep>, on: bool, readable: Content -> bool)
    requires Within(h, Flatten(pages)) && SnapshotLengths(Flatten(pages)) && Stops(pages, path, content, seen)
    ensures var w := IndexedWalk(env, h, pages, path, content, seen, plan, on, readable);
      WellEnded(w, path, content) && w.steps == []
  {
    if pages != [] {
      FlattenAdvanced(pages);
      LengthsNext(pages[0][0], Flatten(Advanced(pages)));
    }
  }

  lemma {:induction false} WalkLinked(env: Env, h: History, pages: seq<seq<Listed>>, path: Path, content: Content,
                                      seen: nat, plan: seq<IndexStep>, on: bool, readable: Content -> bool)
    requires Within(h, Flatten(pages)) && SnapshotLengths(Flatten(pages))
    ensures var w := IndexedWalk(env, h, pages, path, content, seen, plan, on, readable);
      WellEnded(w, path, content)
      && (w.steps != [] ==> Flatten(pages) != [] && w.steps[0].commit == Flatten(pages)[0].commit)
    decreases Length(pages)
  {
    if Stops(pages, path, content, seen) {
      StopsWellEnded(env, h, pages, path, content, seen, plan, on, readable);
    } else if pages[0] == [] {
      SkipAlike(env, h, pages, path, content, seen, plan, on, readable);
      WalkLinked(env, h, pages[1..], path, content, seen, [], on, readable);
    } else {
      AdvancedPages(h, pages);
      LengthsNext(pages[0][0], Flatten(Advanced(pages)));
      IndexedWalkNext(env, h, pages, path, content, seen, plan, on, readable);
      var now := Replanned(pages[0], path, content, plan, on);
      var parent := ParentOf(env, h, pages[0][0].commit, path, now, readable);
      if parent.Some? {
        var (q, c) := parent.value;
        WalkLinked(env, h, Advanced(pages), q, c, seen + 1, Popped(now), on, readable);
        OntoWellEnded(BlameStep(pages[0][0].commit, path, content, parent),
                      IndexedWalk(env, h, Advanced(pages), q, c, seen + 1, Popped(now), on, readable));
      }
    }
  }

  lemma {:induction false} CarryAllLength(env: Env, owners: seq<nat>, steps: seq<BlameStep>)
    requires steps != []
    ensures |CarryAll(env, owners, steps)| == |steps[0].content|
  {
  }

  /** Lines 413 to 415. */
  method CarryForward(env: Env, start: seq<nat>, steps: seq<BlameStep>) returns (owners: seq<nat>)
    requires Linked(steps)
    requires steps != [] && steps[|steps| - 1].parent.Some? ==> |start| == |steps[|steps| - 1].parent.value.1|
    ensures owners == CarryAll(env, start, steps)
  {
    owners := start;
    var i := |steps|;
    while i > 0
      invariant 0 <= i <= |steps| && owners == CarryAll(env, start, steps[i..])
      invariant i == |steps| ==> owners == start
    {
      i := i - 1;
      assert steps[i..][0] == steps[i] && steps[i..][1..] == steps[i + 1..];
      if i + 1 < |steps| { CarryAllLength(env, start, steps[i + 1..]); }
      owners := CarryBlame(env, owners, steps[i]);
    }
    assert steps[0..] == steps;
  }

  /** The answer, and the snapshot stored for the next blame. */
  datatype BlameResult = BlameResult(owners: seq<nat>, truncated: bool, stored: Option<(nat, Path, Snapshot)>)

  ghost predicate SnapshotLengths(list: seq<Listed>)
  {
    forall k, p :: 0 <= k < |list| && p in list[k].snapshots ==>
      |list[k].snapshots[p].owners| == |list[k].snapshots[p].content|
  }

  /** Lines 382 to 415: the owners a walk gives, and whether they may be a guess. */
  method Answer(env: Env, w: Walked, head: nat, content: Content) returns (owners: seq<nat>, truncated: bool)
    requires exists path :: WellEnded(w, path, content)
    ensures owners == CarryAll(env, StartOwners(w, head, content), w.steps)
    ensures truncated <==> !EndsExact(w) && (w.steps != [] || w.ending.AtSnapshot? || w.ending.Capped?)
    ensures |owners| == |content|
  {
    var start: seq<nat>;
    truncated := false;
    match w.ending {
      case AtSnapshot(s) =>
        start, truncated := s.owners, s.truncated;
      case Created =>
        start := [];
      case Capped =>
        truncated := true;
        start := Guess(w.steps, head, content);
      case RanOut =>
        truncated := |w.steps| > 0;
        start := Guess(w.steps, head, content);
    }
    assert start == StartOwners(w, head, content);
    owners := CarryForward(env, start, w.steps);
    if w.steps != [] { CarryAllLength(env, start, w.steps); }
  }

  /** The walk takes at most 500 steps. */
  lemma {:induction false} WalkIsShort(env: Env, h: History, pages: seq<seq<Listed>>, path: Path, content: Content,
                                       seen: nat, plan: seq<IndexStep>, on: bool, readable: Content -> bool)
    requires Within(h, Flatten(pages)) && seen <= 500
    ensures seen + |IndexedWalk(env, h, pages, path, content, seen, plan, on, readable).steps| <= 500
    decreases Length(pages)
  {
    if !Stops(pages, path, content, seen) {
      if pages[0] == [] {
        SkipAlike(env, h, pages, path, content, seen, plan, on, readable);
        WalkIsShort(env, h, pages[1..], path, content, seen, [], on, readable);
      } else {
        AdvancedPages(h, pages);
        IndexedWalkNext(env, h, pages, path, content, seen, plan, on, readable);
        var now := Replanned(pages[0], path, content, plan, on);
        var parent := ParentOf(env, h, pages[0][0].commit, path, now, readable);
        if parent.Some? {
          WalkIsShort(env, h, Advanced(pages), parent.value.0, parent.value.1, seen + 1, Popped(now), on, readable);
        }
      }
    }
  }

  /** What a trusted blame answers: the full blame, credited no further back than some commit,
      and the full blame itself when the walk ended exactly, or when the listing reaches back
      to the file's creation. */
  ghost predicate RightAnswer(env: Env, h: History, list: seq<Listed>, x: nat, p: Path, w: Walked, r: BlameResult)
    requires x < |h| && p in h[x]
  {
    && (exists k: nat :: Credits(env, h, x, p, w, x, k) && r.owners == Since(FullBlame(env, h, x, p), k))
    && (EndsExact(w) || ReachesBack(env, h, list, x, p) ==> r.owners == FullBlame(env, h, x, p) && !r.truncated)
    && (r.stored.Some? ==> ExactSnapshot(env, h, r.stored.value.0, r.stored.value.1, r.stored.value.2))
  }

  /** Lines 228 to 442: the answer and what is stored for the next blame. */
  method BlameFile(env: Env, h: History, p: Path, pages: seq<seq<Listed>>, on: bool, readable: Content -> bool,
                   ghost paths: set<Path>)
    returns (r: BlameResult)
    requires h != [] && p in h[|h| - 1] && p in paths && Within(h, Flatten(pages))
    requires Complete(env, h, Flatten(pages), |h|, paths) && ExactSnapshots(env, h, Flatten(pages))
    requires SnapshotLengths(Flatten(pages))
    ensures |r.owners| == |h[|h| - 1][p]|
    ensures var w := IndexedWalk(env, h, pages, p, h[|h| - 1][p], 0, [], on, readable);
      && |w.steps| <= 500 && r.owners == CarryAll(env, StartOwners(w, |h| - 1, h[|h| - 1][p]), w.steps)
      && (r.truncated <==> !EndsExact(w) && (w.steps != [] || w.ending.AtSnapshot? || w.ending.Capped?))
      && (r.stored.Some? <==> w.steps != [] && !w.ending.RanOut?)
      && (r.stored.Some? ==> r.stored.value.0 == w.steps[0].commit && r.stored.value.1 == p)
      && (Trusted(env, h, pages, p, h[|h| - 1][p], on) ==>
            RightAnswer(env, h, Flatten(pages), |h| - 1, p, w, r))
    ensures r.stored.Some? ==>
      && |r.stored.value.2.owners| == |r.stored.value.2.content|
      && r.stored.value.2.truncated == r.truncated && r.stored.value.2.owners == r.owners
  {
    var content := h[|h| - 1][p];
    WalkLinked(env, h, pages, p, content, 0, [], on, readable);
    WalkIsShort(env, h, pages, p, content, 0, [], on, readable);
    var w := WalkPages(env, h, p, content, pages, on, readable);
    var owners, truncated := Answer(env, w, |h| - 1, content);
    var stored: Option<(nat, Path, Snapshot)> := None;
    if |w.steps| > 0 && !w.ending.RanOut? {
      var newest := w.steps[0];
      stored := Some((newest.commit, newest.path, Snapshot(newest.content, owners, truncated)));
    }
    r := BlameResult(owners, truncated, stored);
    if Trusted(env, h, pages, p, content, on) {
      TrustedIsTree(env, h, pages, |h|, p, content, on, readable, paths);
      AnswersRight(env, h, Flatten(pages), p, paths, w, r);
    }
  }

  lemma AnswersRight(env: Env, h: History, list: seq<Listed>, p: Path, paths: set<Path>, w: Walked, r: BlameResult)
    requires h != [] && p in h[|h| - 1] && p in paths && Within(h, list) && Complete(env, h, list, |h|, paths)
    requires ExactSnapshots(env, h, list) && w == TreeWalk(env, h, list, p, h[|h| - 1][p], 0)
    requires WellEnded(w, p, h[|h| - 1][p]) && (w.steps != [] ==> list != [] && w.steps[0].commit == list[0].commit)
    requires r.owners == CarryAll(env, StartOwners(w, |h| - 1, h[|h| - 1][p]), w.steps)
    requires r.truncated <==> !EndsExact(w) && (w.steps != [] || w.ending.AtSnapshot? || w.ending.Capped?)
    requires r.stored.Some? ==> w.steps != []
    requires r.stored.Some? ==> r.stored.value == (list[0].commit, p, Snapshot(h[|h| - 1][p], r.owners, r.truncated))
    ensures RightAnswer(env, h, list, |h| - 1, p, w, r)
  {
    var x := |h| - 1;
    var full := FullBlame(env, h, x, p);
    if ReachesBack(env, h, list, x, p) { WalkReachesBack(env, h, list, x, p, 0, paths); }
    var k := WalkCredits(env, h, list, x, p, 0, paths, x);
    assert r.owners == Since(full, k);
    if EndsExact(w) { SinceZero(full); }
    if r.stored.Some? {
      var c := list[0].commit;
      BlameUnchanged(env, h, c, x, p);
      assert r.owners == Since(FullBlame(env, h, c, p), k) && k <= c;
    }
  }

  /** What is older than the oldest commit read is credited to it; with no history at
      all, to the head. */
  method Guess(steps: seq<BlameStep>, head: nat, content: Content) returns (owners: seq<nat>)
    requires steps != [] ==> steps[|steps| - 1].parent.Some?
    ensures |owners| == if steps == [] then |content| else |steps[|steps| - 1].parent.value.1|
    ensures forall k :: 0 <= k < |owners| ==> owners[k] == if steps == [] then head else steps[|steps| - 1].commit
  {
    if |steps| == 0 { return seq(|content|, _ => head); }
    var oldest := steps[|steps| - 1];
    owners := seq(|oldest.parent.value.1|, _ => oldest.commit);
  }

  // ---------- Where a true index is not certain ----------

  /** A file moved and edited in one commit: the index, which pairs only equal contents,
      records the new path as added and the old one as deleted. */
  function EditedMove(q: Path, p: Path, a: Line, b: Line): (h: History)
  {
    [map[q := [a]], map[p := [a, b]]]
  }

  function EditedMoveRows(q: Path, p: Path, a: Line, b: Line): (list: seq<Listed>)
  {
    [Listed(1, map[], map[p := [FileChange(Added, Some([a, b]), None)]]),
     Listed(0, map[], map[q := [FileChange(Added, Some([a]), None)]])]
  }

  /** With the index on, the whole file is credited to the move, and that answer is not
      marked truncated; the trees credit the first line to the commit that wrote it. */
  lemma EditedMoveIsMisblamed(env: Env, q: Path, p: Path, a: Line, b: Line, readable: Content -> bool)
    requires p != q && env.legible([a]) && env.changed(1) == [q, p] && env.matching([a], [a, b]) == [0, -1]
    ensures var h, list := EditedMove(q, p, a, b), EditedMoveRows(q, p, a, b);
      && Flatten([list]) == list && Within(h, list) && Complete(env, h, list, 2, {p, q}) && TrueIndex(h, list)
      && !CertainAlong(env, h, [list], p, [a, b], 0)
      && var w := IndexedWalk(env, h, [list], p, [a, b], 0, [], true, readable);
      && EndsExact(w) && CarryAll(env, StartOwners(w, 1, [a, b]), w.steps) == [1, 1]
      && FullBlame(env, h, 1, p) == [0, 1] && !ExactSnapshot(env, h, 1, p, Snapshot([a, b], [1, 1], false))
  {
    var h, list := EditedMove(q, p, a, b), EditedMoveRows(q, p, a, b);
    assert Flatten([list][1..]) == [] && Flatten([list]) == list;
    EditedMoveSource(env, q, p, a, b);
    assert ParentPath(env, h, 0, q) == None && ParentPath(env, h, 1, q) == Some(q);
    assert Complete(env, h, list[1..][1..], 0, {p, q}) && Complete(env, h, list[1..], 1, {p, q});
    assert FullBlame(env, h, 0, q) == [0];
    assert FullBlame(env, h, 1, p) == Carry(env, [0], [a], [a, b], 1);
    assert IsSource(env, h, 1, p, q) && !Certain(env, h, 1, p, Rows(list[0], p)[0]);
    var plan := Replanned(list, p, [a, b], [], true);
    ChainNext(list, p, [a, b], BLAME_BLOB_READ_AHEAD);
    assert plan == [WasCreated];
    var w := IndexedWalk(env, h, [list], p, [a, b], 0, [], true, readable);
    assert w == Walked([BlameStep(1, p, [a, b], None)], Created);
    assert StartOwners(w, 1, [a, b]) == [] && w.steps[1..] == [];
    SinceZero([0, 1]);
  }

  lemma EditedMoveSource(env: Env, q: Path, p: Path, a: Line, b: Line)
    requires p != q && env.legible([a]) && env.changed(1) == [q, p]
    ensures MovedFrom(env, EditedMove(q, p, a, b), 1, p) == Some(q)
  {
    var h := EditedMove(q, p, a, b);
    assert BestSource(env, h, 1, p, 0) == None && IsSource(env, h, 1, p, q);
    assert BestSource(env, h, 1, p, 1) == Some(q) && !IsSource(env, h, 1, p, p);
  }
}
