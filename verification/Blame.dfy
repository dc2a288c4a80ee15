/**
  Blame (service/blame.go): which commit last changed each line of a file.

  History is the main line, one tree per commit, oldest first; commit i's first
  parent is commit i - 1.  Content hashes name contents, and a content is its lines.
 */
module Blame {
  import opened Options

  datatype Path = Path(text: string)
  datatype Line = Line(text: string)
  type Content = seq<Line>
  type Tree = map<Path, Content>
  type History = seq<Tree>

  /** What blame asks of other code: `matching` is `diffutil.MatchLines` (for each new
      line, the old line it is unchanged from, or -1), `changed` the paths a commit
      lists as changed, `legible` whether a version is read as lines (it is not when it is
      binary, too large or cannot be read). */
  datatype Env = Env(matching: (Content, Content) -> seq<int>, changed: nat -> seq<Path>, legible: Content -> bool)

  // ---------- Where a moved file came from ----------

  function At(h: History, i: nat, p: Path): Content
  {
    if i < |h| && p in h[i] then h[i][p] else []
  }

  /** How many lines the two have in common, in any order. */
  function Shared(moved: Content, lines: Content): nat
  {
    |multiset(lines) * multiset(moved)|
  }

  /** A path the commit lists that had a legible file in the parent and has none after. */
  predicate IsSource(env: Env, h: History, i: nat, p: Path, q: Path)
  {
    0 < i < |h| && q in env.changed(i) && q != p && q in h[i - 1] && q !in h[i]
    && env.legible(h[i - 1][q])
  }

  /** The best source among the first n paths listed: the first that shares most. */
  function BestSource(env: Env, h: History, i: nat, p: Path, n: nat): (q: Option<Path>)
    requires 0 < i < |h| && n <= |env.changed(i)|
    ensures q.Some? ==> IsSource(env, h, i, p, q.value)
  {
    if n == 0 then None
    else
      var best, q := BestSource(env, h, i, p, n - 1), env.changed(i)[n - 1];
      if IsSource(env, h, i, p, q)
         && (best.None? || Shared(At(h, i, p), h[i - 1][q]) > Shared(At(h, i, p), h[i - 1][best.value])) then Some(q)
      else best
  }

  function MovedFrom(env: Env, h: History, i: nat, p: Path): (q: Option<Path>)
    requires 0 < i < |h|
    ensures q.Some? ==> IsSource(env, h, i, p, q.value)
  {
    BestSource(env, h, i, p, |env.changed(i)|)
  }

  lemma {:induction false} BestSourceIsBest(env: Env, h: History, i: nat, p: Path, n: nat, k: nat)
    requires 0 < i < |h| && k < n <= |env.changed(i)| && IsSource(env, h, i, p, env.changed(i)[k])
    ensures var q := BestSource(env, h, i, p, n);
      q.Some? && Shared(At(h, i, p), h[i - 1][env.changed(i)[k]]) <= Shared(At(h, i, p), h[i - 1][q.value])
  {
    if k < n - 1 {
      BestSourceIsBest(env, h, i, p, n - 1, k);
    }
  }

  /** A file that is not in the parent came from nowhere exactly when the commit lists no
      source, and else from a source that shares most lines with it, even if that is none. */
  lemma MovedFromIsBest(env: Env, h: History, i: nat, p: Path)
    requires 0 < i < |h|
    ensures MovedFrom(env, h, i, p).None? <==> forall q :: !IsSource(env, h, i, p, q)
    ensures MovedFrom(env, h, i, p).Some? ==> forall q :: IsSource(env, h, i, p, q) ==>
      Shared(At(h, i, p), h[i - 1][q]) <= Shared(At(h, i, p), h[i - 1][MovedFrom(env, h, i, p).value])
  {
    forall q | IsSource(env, h, i, p, q)
      ensures MovedFrom(env, h, i, p).Some?
        && Shared(At(h, i, p), h[i - 1][q]) <= Shared(At(h, i, p), h[i - 1][MovedFrom(env, h, i, p).value])
    {
      var k :| 0 <= k < |env.changed(i)| && env.changed(i)[k] == q;
      BestSourceIsBest(env, h, i, p, |env.changed(i)|, k);
    }
  }

  lemma CountOne(counts: multiset<Line>, seen: multiset<Line>, have: multiset<Line>, line: Line)
    requires counts == seen * have
    ensures (seen + multiset{line}) * have == if counts[line] < have[line] then counts + multiset{line} else counts
  {
  }

  /** Lines 721 to 727: counts the lines in common. */
  method CountShared(moved: Content, lines: Content) returns (n: nat)
    ensures n == Shared(moved, lines)
  {
    var have, counts := multiset(moved), multiset{};
    n := 0;
    for k := 0 to |lines|
      invariant counts == multiset(lines[..k]) * have && n == |counts|
    {
      assert lines[..k + 1] == lines[..k] + [lines[k]];
      CountOne(counts, multiset(lines[..k]), have, lines[k]);
      if counts[lines[k]] < have[lines[k]] {
        counts := counts + multiset{lines[k]};
        n := n + 1;
      }
    }
    assert lines[..|lines|] == lines;
  }

  /** `blameMovedFrom`, lines 683 to 743. */
  method FindMovedFrom(env: Env, h: History, i: nat, p: Path) returns (best: Option<Path>)
    requires 0 < i < |h|
    ensures best == MovedFrom(env, h, i, p)
  {
    best := None;
    var bestShared: int := -1;
    var changed := env.changed(i);
    for k := 0 to |changed|
      invariant best == BestSource(env, h, i, p, k)
      invariant bestShared == if best.None? then -1 else Shared(At(h, i, p), h[i - 1][best.value])
    {
      var q := changed[k];
      if q != p && q in h[i - 1] && q !in h[i] && env.legible(h[i - 1][q]) {
        var shared := CountShared(At(h, i, p), h[i - 1][q]);
        if shared > bestShared {
          best, bestShared := Some(q), shared;
        }
      }
    }
  }

  // ---------- The reference: blame through all of history ----------

  /** Where the file at p in commit i was in the commit's parent, if anywhere. */
  function ParentPath(env: Env, h: History, i: nat, p: Path): (q: Option<Path>)
    requires i < |h|
    ensures q.Some? ==> i > 0 && q.value in h[i - 1]
  {
    if i == 0 then None
    else if p in h[i - 1] then Some(p)
    else MovedFrom(env, h, i, p)
  }

  /** Owners carried through one change: matched lines keep theirs, the rest are the
      commit's. */
  function Carry(env: Env, owners: seq<nat>, before: Content, after: Content, commit: nat): (r: seq<nat>)
    ensures |r| == |after|
  {
    if before == after && |owners| == |after| then owners
    else seq(|after|, (j: nat) requires j < |after| => CarryLine(env.matching(before, after), owners, commit, j))
  }

  function CarryLine(m: seq<int>, owners: seq<nat>, commit: nat, j: nat): nat
  {
    if j < |m| && 0 <= m[j] < |owners| then owners[m[j]] else commit
  }

  /** The blame of the file at p in commit i, walking every commit of the history. */
  function FullBlame(env: Env, h: History, i: nat, p: Path): (owners: seq<nat>)
    requires i < |h| && p in h[i]
    ensures |owners| == |h[i][p]|
    decreases i
  {
    match ParentPath(env, h, i, p)
    case None => seq(|h[i][p]|, _ => i)
    case Some(q) => Carry(env, FullBlame(env, h, i - 1, q), h[i - 1][q], h[i][p], i)
  }

  /** The owner of one line, followed back on its own until a version does not have
      it: the direct definition of blame. */
  function LineOwner(env: Env, h: History, i: nat, p: Path, j: nat): (owner: nat)
    requires i < |h| && p in h[i] && j < |h[i][p]|
    decreases i
  {
    match ParentPath(env, h, i, p)
    case None => i
    case Some(q) =>
      if h[i - 1][q] == h[i][p] then LineOwner(env, h, i - 1, q, j)
      else
        var m := env.matching(h[i - 1][q], h[i][p]);
        if j < |m| && 0 <= m[j] < |h[i - 1][q]| then LineOwner(env, h, i - 1, q, m[j]) else i
  }

  /** Carrying blame forward version by version agrees with following each line back. */
  lemma {:induction false} BlameIsLineOwner(env: Env, h: History, i: nat, p: Path, j: nat)
    requires i < |h| && p in h[i] && j < |h[i][p]|
    ensures FullBlame(env, h, i, p)[j] == LineOwner(env, h, i, p, j)
    decreases i
  {
    var q := ParentPath(env, h, i, p);
    if q.Some? {
      var before := h[i - 1][q.value];
      var m := env.matching(before, h[i][p]);
      if before == h[i][p] {
        BlameIsLineOwner(env, h, i - 1, q.value, j);
      } else if j < |m| && 0 <= m[j] < |before| {
        BlameIsLineOwner(env, h, i - 1, q.value, m[j]);
      }
    }
  }

  // ---------- The walk, reading trees ----------

  datatype Snapshot = Snapshot(content: Content, owners: seq<nat>, truncated: bool)

  datatype Change = Added | Modified | Moved | OtherChange

  /** A row of the history index. */
  datatype FileChange = FileChange(kind: Change, content: Option<Content>, oldPath: Option<Path>)

  /** A commit of the file's history, with the stored blames and the file changes
      that were read for it. */
  datatype Listed = Listed(commit: nat, snapshots: map<Path, Snapshot>, changes: map<Path, seq<FileChange>>)

  /** One commit of the walk: the file's version right after it, and before it. */
  datatype BlameStep = BlameStep(commit: nat, path: Path, content: Content, parent: Option<(Path, Content)>)

  datatype Ending = AtSnapshot(snapshot: Snapshot) | Created | Capped | RanOut

  datatype Walked = Walked(steps: seq<BlameStep>, ending: Ending)

  const BLAME_MAX_COMMITS: nat := 500

  predicate Hit(l: Listed, path: Path, content: Content)
  {
    path in l.snapshots && l.snapshots[path].content == content
  }

  function ParentVersion(env: Env, h: History, i: nat, p: Path): Option<(Path, Content)>
    requires i < |h|
  {
    match ParentPath(env, h, i, p) case None => None case Some(q) => Some((q, h[i - 1][q]))
  }

  predicate Within(h: History, list: seq<Listed>)
  {
    forall k :: 0 <= k < |list| ==> list[k].commit < |h|
  }

  /** The walk back through the listed commits, newest first. */
  function TreeWalk(env: Env, h: History, list: seq<Listed>, path: Path, content: Content, seen: nat): (w: Walked)
    requires Within(h, list)
    decreases |list|
  {
    if list == [] then Walked([], RanOut)
    else if Hit(list[0], path, content) then Walked([], AtSnapshot(list[0].snapshots[path]))
    else if seen + 1 > BLAME_MAX_COMMITS then Walked([], Capped)
    else
      var parent := ParentVersion(env, h, list[0].commit, path);
      var step := BlameStep(list[0].commit, path, content, parent);
      match parent
      case None => Walked([step], Created)
      case Some((q, c)) =>
        var rest := TreeWalk(env, h, list[1..], q, c, seen + 1);
        Walked([step] + rest.steps, rest.ending)
  }

  /** `carryBlame`, lines 572 to 593. */
  function CarryStep(env: Env, owners: seq<nat>, s: BlameStep): (r: seq<nat>)
  {
    match s.parent
    case None => seq(|s.content|, _ => s.commit)
    case Some((_, before)) => Carry(env, owners, before, s.content, s.commit)
  }

  /** The blame before the oldest step, carried forward to the newest. */
  function CarryAll(env: Env, owners: seq<nat>, steps: seq<BlameStep>): (r: seq<nat>)
  {
    if steps == [] then owners else CarryStep(env, CarryAll(env, owners, steps[1..]), steps[0])
  }

  // ---------- A walk over complete history is exact ----------

  predicate Unchanged(h: History, i: nat, p: Path)
  {
    0 < i < |h| && (p in h[i] <==> p in h[i - 1]) && (p in h[i] ==> h[i][p] == h[i - 1][p])
  }

  /** Between the listed commits, newest first and below `below`, nothing changes any
      of the file's paths; and the paths include where the file came from. */
  ghost predicate Complete(env: Env, h: History, list: seq<Listed>, below: nat, paths: set<Path>)
    decreases |list|
  {
    list == [] || (
      && list[0].commit < below <= |h|
      && (forall i, p :: list[0].commit < i < below && p in paths ==> Unchanged(h, i, p))
      && (forall p :: p in paths && ParentPath(env, h, list[0].commit, p).Some? ==>
            ParentPath(env, h, list[0].commit, p).value in paths)
      && Complete(env, h, list[1..], list[0].commit, paths))
  }

  /** Owners credited no further back than commit c. */
  function Since(owners: seq<nat>, c: nat): (r: seq<nat>)
    ensures |r| == |owners|
  {
    seq(|owners|, (j: nat) requires j < |owners| => if owners[j] < c then c else owners[j])
  }

  /** A stored blame is the full blame of its version, credited no further back than some
      commit; one that is not marked truncated is the full blame. */
  ghost predicate ExactSnapshot(env: Env, h: History, i: nat, p: Path, s: Snapshot)
  {
    && i < |h| && p in h[i] && s.content == h[i][p]
    && exists c: nat :: s.owners == Since(FullBlame(env, h, i, p), c) && c <= i && (!s.truncated ==> c == 0)
  }

  ghost predicate ExactSnapshots(env: Env, h: History, list: seq<Listed>)
  {
    forall k, p :: 0 <= k < |list| && p in list[k].snapshots ==>
      ExactSnapshot(env, h, list[k].commit, p, list[k].snapshots[p])
  }

  /** A file's blame does not change over commits that do not change it. */
  lemma {:induction false} BlameUnchanged(env: Env, h: History, lo: nat, hi: nat, p: Path)
    requires lo <= hi < |h| && p in h[hi]
    requires forall i :: lo < i <= hi ==> Unchanged(h, i, p)
    ensures p in h[lo] && h[lo][p] == h[hi][p] && FullBlame(env, h, lo, p) == FullBlame(env, h, hi, p)
    decreases hi - lo
  {
    if lo < hi {
      assert Unchanged(h, hi, p);
      BlameUnchanged(env, h, lo, hi - 1, p);
    }
  }

  /** The blame the walk starts its carry from: the stored one, none before the creation, and
      else a guess that credits all to the oldest commit read, or to `top` if none was. */
  function StartOwners(w: Walked, top: nat, content: Content): (owners: seq<nat>)
  {
    match w.ending
    case AtSnapshot(s) => s.owners
    case Created => []
    case _ =>
      if w.steps == [] then seq(|content|, _ => top)
      else
        var oldest := w.steps[|w.steps| - 1];
        if oldest.parent.None? then [] else seq(|oldest.parent.value.1|, _ => oldest.commit)
  }

  predicate EndsExact(w: Walked)
  {
    w.ending.Created? || (w.ending.AtSnapshot? && !w.ending.snapshot.truncated)
  }

  lemma {:induction false} OwnersAreEarlier(env: Env, h: History, i: nat, p: Path, j: nat)
    requires i < |h| && p in h[i] && j < |h[i][p]|
    ensures FullBlame(env, h, i, p)[j] <= i
    decreases i
  {
    var q := ParentPath(env, h, i, p);
    if q.Some? {
      var before := FullBlame(env, h, i - 1, q.value);
      forall k | 0 <= k < |before| ensures before[k] <= i - 1 { OwnersAreEarlier(env, h, i - 1, q.value, k); }
    }
  }

  lemma SinceTop(env: Env, h: History, i: nat, p: Path, top: nat)
    requires i < |h| && p in h[i] && i <= top
    ensures Since(FullBlame(env, h, i, p), top) == seq(|h[i][p]|, _ => top)
  {
    forall j | 0 <= j < |h[i][p]| ensures FullBlame(env, h, i, p)[j] <= top { OwnersAreEarlier(env, h, i, p, j); }
  }

  lemma SinceZero(owners: seq<nat>)
    ensures Since(owners, 0) == owners
  {
  }

  /** Carrying keeps the credit, from that commit on. */
  lemma CarrySince(env: Env, owners: seq<nat>, c: nat, before: Content, after: Content, commit: nat)
    requires c <= commit
    ensures Carry(env, Since(owners, c), before, after, commit) == Since(Carry(env, owners, before, after, commit), c)
  {
  }

  /** The credit of a walk that reads trees: it gives the full blame, credited no further
      back than commit k; that is the oldest commit read when the walk stopped short, and
      none when it ended exactly. */
  ghost predicate Credits(env: Env, h: History, x: nat, path: Path, w: Walked, top: nat, k: nat)
    requires x < |h| && path in h[x]
  {
    && CarryAll(env, StartOwners(w, top, h[x][path]), w.steps) == Since(FullBlame(env, h, x, path), k)
    && k <= top && (w.steps != [] ==> k <= w.steps[0].commit) && (EndsExact(w) ==> k == 0)
    && (w.ending.Capped? || w.ending.RanOut? ==> k == if w.steps == [] then top else w.steps[|w.steps| - 1].commit)
  }

  lemma CreditsStep(env: Env, h: History, c: nat, path: Path, q: Path, rest: Walked, top: nat, k: nat)
    requires 0 < c < |h| && path in h[c] && q in h[c - 1] && ParentPath(env, h, c, path) == Some(q) && c <= top
    requires Credits(env, h, c - 1, q, rest, c, k)
    ensures var step := BlameStep(c, path, h[c][path], Some((q, h[c - 1][q])));
      Credits(env, h, c, path, Walked([step] + rest.steps, rest.ending), top, k)
  {
    var step := BlameStep(c, path, h[c][path], Some((q, h[c - 1][q])));
    var w := Walked([step] + rest.steps, rest.ending);
    StartsAlike(step, rest, top);
    var start := StartOwners(w, top, h[c][path]);
    assert w.steps[1..] == rest.steps;
    assert CarryAll(env, start, w.steps) == CarryStep(env, CarryAll(env, start, rest.steps), step);
    CarrySince(env, FullBlame(env, h, c - 1, q), k, h[c - 1][q], h[c][path], c);
  }

  /** A walk's start does not depend on the newer steps put before it. */
  lemma StartsAlike(step: BlameStep, rest: Walked, top: nat)
    requires step.parent.Some?
    ensures var w := Walked([step] + rest.steps, rest.ending);
      && StartOwners(w, top, step.content) == StartOwners(rest, step.commit, step.parent.value.1)
      && w.steps[|w.steps| - 1] == if rest.steps == [] then step else rest.steps[|rest.steps| - 1]
  {
  }

  lemma CreditsCreation(env: Env, h: History, c: nat, path: Path, top: nat)
    requires c < |h| && path in h[c] && ParentPath(env, h, c, path) == None
    ensures Credits(env, h, c, path, Walked([BlameStep(c, path, h[c][path], None)], Created), top, 0)
  {
    var step := BlameStep(c, path, h[c][path], None);
    assert [step][1..] == [];
    assert CarryAll(env, [], [step]) == CarryStep(env, CarryAll(env, [], []), step);
    SinceZero(FullBlame(env, h, c, path));
  }

  lemma CreditsNothing(env: Env, h: History, x: nat, path: Path, w: Walked, top: nat)
    requires x < |h| && path in h[x] && x <= top && w.steps == [] && (w.ending.Capped? || w.ending.RanOut?)
    ensures Credits(env, h, x, path, w, top, top)
  {
    SinceTop(env, h, x, path, top);
  }

  lemma CreditsSnapshot(env: Env, h: History, c: nat, path: Path, s: Snapshot, top: nat) returns (k: nat)
    requires ExactSnapshot(env, h, c, path, s) && c <= top
    ensures Credits(env, h, c, path, Walked([], AtSnapshot(s)), top, k)
  {
    k :| s.owners == Since(FullBlame(env, h, c, path), k) && k <= c && (!s.truncated ==> k == 0);
  }

  lemma CreditsUnchanged(env: Env, h: History, c: nat, x: nat, path: Path, w: Walked, top: nat, k: nat)
    requires c <= x < |h| && path in h[x] && path in h[c] && h[c][path] == h[x][path]
    requires FullBlame(env, h, c, path) == FullBlame(env, h, x, path) && Credits(env, h, c, path, w, top, k)
    ensures Credits(env, h, x, path, w, top, k)
  {
  }

  /** What any walk over a complete listing credits. */
  lemma {:induction false} WalkCredits(env: Env, h: History, list: seq<Listed>, x: nat, path: Path, seen: nat,
                                       paths: set<Path>, top: nat) returns (k: nat)
    requires Within(h, list)
    requires x < |h| && path in h[x] && path in paths && Complete(env, h, list, x + 1, paths)
    requires ExactSnapshots(env, h, list) && x <= top
    ensures Credits(env, h, x, path, TreeWalk(env, h, list, path, h[x][path], seen), top, k)
    decreases |list|
  {
    var w := TreeWalk(env, h, list, path, h[x][path], seen);
    if list == [] || (!Hit(list[0], path, h[x][path]) && seen + 1 > BLAME_MAX_COMMITS) {
      CreditsNothing(env, h, x, path, w, top);
      return top;
    }
    var c := list[0].commit;
    BlameUnchanged(env, h, c, x, path);
    if Hit(list[0], path, h[x][path]) {
      assert ExactSnapshot(env, h, c, path, list[0].snapshots[path]);
      k := CreditsSnapshot(env, h, c, path, list[0].snapshots[path], top);
    } else {
      var q := ParentPath(env, h, c, path);
      if q.Some? {
        assert forall k :: 0 <= k < |list[1..]| ==> list[1..][k] == list[k + 1];
        k := WalkCredits(env, h, list[1..], c - 1, q.value, seen + 1, paths, c);
        var rest := TreeWalk(env, h, list[1..], q.value, h[c - 1][q.value], seen + 1);
        CreditsStep(env, h, c, path, q.value, rest, top, k);
      } else {
        k := 0;
        CreditsCreation(env, h, c, path, top);
      }
    }
    CreditsUnchanged(env, h, c, x, path, w, top, k);
  }

  /** A walk that ends at an exact stored blame, or at the file's creation, returns the
      full blame. */
  lemma WalkIsExact(env: Env, h: History, list: seq<Listed>, x: nat, path: Path, seen: nat, paths: set<Path>, top: nat)
    requires Within(h, list)
    requires x < |h| && path in h[x] && path in paths && Complete(env, h, list, x + 1, paths)
    requires ExactSnapshots(env, h, list) && x <= top
    requires EndsExact(TreeWalk(env, h, list, path, h[x][path], seen))
    ensures var w := TreeWalk(env, h, list, path, h[x][path], seen);
      CarryAll(env, StartOwners(w, top, h[x][path]), w.steps) == FullBlame(env, h, x, path)
  {
    var k := WalkCredits(env, h, list, x, path, seen, paths, top);
    SinceZero(FullBlame(env, h, x, path));
  }

  // ---------- When a walk is exact ----------

  /** The commit that created the file that is at p in commit i. */
  function CreatedAt(env: Env, h: History, i: nat, p: Path): (c: nat)
    requires i < |h| && p in h[i]
    ensures c <= i
    decreases i
  {
    match ParentPath(env, h, i, p) case None => i case Some(q) => CreatedAt(env, h, i - 1, q)
  }

  lemma {:induction false} CreatedUnchanged(env: Env, h: History, lo: nat, hi: nat, p: Path)
    requires lo <= hi < |h| && p in h[hi] && p in h[lo]
    requires forall i :: lo < i <= hi ==> Unchanged(h, i, p)
    ensures CreatedAt(env, h, lo, p) == CreatedAt(env, h, hi, p)
    decreases hi - lo
  {
    if lo < hi {
      assert Unchanged(h, hi, p);
      CreatedUnchanged(env, h, lo, hi - 1, p);
    }
  }

  /** The listing has at most 500 commits, among them the one that created the file, and no
      stored blame in it is truncated. */
  ghost predicate ReachesBack(env: Env, h: History, list: seq<Listed>, x: nat, path: Path)
    requires x < |h| && path in h[x]
  {
    && |list| <= 500
    && (exists k :: 0 <= k < |list| && list[k].commit == CreatedAt(env, h, x, path))
    && NoneTruncated(list)
  }

  ghost predicate NoneTruncated(list: seq<Listed>)
  {
    forall k, p :: 0 <= k < |list| && p in list[k].snapshots ==> !list[k].snapshots[p].truncated
  }

  /** Then the walk ends exactly. */
  lemma {:induction false} WalkReachesBack(env: Env, h: History, list: seq<Listed>, x: nat, path: Path, seen: nat,
                                           paths: set<Path>)
    requires Within(h, list)
    requires x < |h| && path in h[x] && path in paths && Complete(env, h, list, x + 1, paths)
    requires seen + |list| <= 500 && NoneTruncated(list)
    requires exists k :: 0 <= k < |list| && list[k].commit == CreatedAt(env, h, x, path)
    ensures EndsExact(TreeWalk(env, h, list, path, h[x][path], seen))
    decreases |list|
  {
    var c := list[0].commit;
    BlameUnchanged(env, h, c, x, path);
    CreatedUnchanged(env, h, c, x, path);
    var q := ParentPath(env, h, c, path);
    if !Hit(list[0], path, h[x][path]) && q.Some? {
      var k :| 0 <= k < |list| && list[k].commit == CreatedAt(env, h, x, path);
      assert forall k :: 0 <= k < |list[1..]| ==> list[1..][k] == list[k + 1];
      assert k > 0 && list[1..][k - 1].commit == CreatedAt(env, h, c - 1, q.value);
      WalkReachesBack(env, h, list[1..], c - 1, q.value, seen + 1, paths);
    }
  }
}
