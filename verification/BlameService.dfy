/**
  Blame over runs: landings append to the history, blames read and add stored
  snapshots (service/blame.go); and the answer as runs of lines.
 */
module BlameService {
  import opened Options
  import opened Blame
  import opened BlameIndex

  type Snapshots = map<(nat, Path), Snapshot>

  /** Every stored snapshot not marked truncated is the full blame of its version. */
  ghost predicate StoreExact(env: Env, h: History, store: Snapshots)
  {
    forall k :: k in store ==> ExactSnapshot(env, h, k.0, k.1, store[k]) && |store[k].owners| == |store[k].content|
  }

  lemma {:induction false} LandingKeepsSource(env: Env, h: History, t: Tree, i: nat, p: Path, n: nat)
    requires 0 < i < |h| && n <= |env.changed(i)|
    ensures BestSource(env, h + [t], i, p, n) == BestSource(env, h, i, p, n)
  {
    assert (h + [t])[i] == h[i] && (h + [t])[i - 1] == h[i - 1];
    if n > 0 { LandingKeepsSource(env, h, t, i, p, n - 1); }
  }

  /** A landing does not change the blame of what was there. */
  lemma {:induction false} LandingKeepsBlame(env: Env, h: History, t: Tree, i: nat, p: Path)
    requires i < |h| && p in h[i]
    ensures (h + [t])[i] == h[i] && FullBlame(env, h + [t], i, p) == FullBlame(env, h, i, p)
    decreases i
  {
    if i > 0 {
      assert (h + [t])[i - 1] == h[i - 1];
      var q := ParentPath(env, h, i, p);
      LandingKeepsSource(env, h, t, i, p, |env.changed(i)|);
      assert q == ParentPath(env, h + [t], i, p);
      if q.Some? { LandingKeepsBlame(env, h, t, i - 1, q.value); }
    }
  }

  lemma {:induction false} LandingKeepsStore(env: Env, h: History, t: Tree, store: Snapshots)
    requires StoreExact(env, h, store)
    ensures StoreExact(env, h + [t], store)
  {
    forall k | k in store ensures ExactSnapshot(env, h + [t], k.0, k.1, store[k]) {
      LandingKeepsBlame(env, h, t, k.0, k.1);
    }
  }

  /** The listed commits with what the store and the index have for them. */
  function ListedPage(store: Snapshots, changes: nat -> map<Path, seq<FileChange>>, page: seq<nat>): (r: seq<Listed>)
  {
    seq(|page|, (i: nat) requires i < |page| => Listed(page[i], SnapshotsOf(store, page[i]), changes(page[i])))
  }

  function SnapshotsOf(store: Snapshots, commit: nat): (r: map<Path, Snapshot>)
  {
    map k | k in store && k.0 == commit :: k.1 := store[k]
  }

  function ListedPages(store: Snapshots, changes: nat -> map<Path, seq<FileChange>>,
                       pages: seq<seq<nat>>): (r: seq<seq<Listed>>)
  {
    if pages == [] then [] else [ListedPage(store, changes, pages[0])] + ListedPages(store, changes, pages[1..])
  }

  ghost predicate FromStore(store: Snapshots, list: seq<Listed>)
  {
    forall k :: 0 <= k < |list| ==> list[k].snapshots == SnapshotsOf(store, list[k].commit)
  }

  lemma {:induction false} PagesFromStore(store: Snapshots, changes: nat -> map<Path, seq<FileChange>>,
                                          pages: seq<seq<nat>>)
    ensures FromStore(store, Flatten(ListedPages(store, changes, pages)))
  {
    if pages != [] {
      PagesFromStore(store, changes, pages[1..]);
      var all := ListedPages(store, changes, pages);
      assert all[1..] == ListedPages(store, changes, pages[1..]);
    }
  }

  lemma {:induction false} SnapshotsAreExact(env: Env, h: History, store: Snapshots, list: seq<Listed>)
    requires StoreExact(env, h, store) && FromStore(store, list)
    ensures ExactSnapshots(env, h, list) && SnapshotLengths(list)
  {
    forall k, p | 0 <= k < |list| && p in list[k].snapshots
      ensures ExactSnapshot(env, h, list[k].commit, p, list[k].snapshots[p])
      ensures |list[k].snapshots[p].owners| == |list[k].snapshots[p].content|
    {
      assert (list[k].commit, p) in store && list[k].snapshots[p] == store[(list[k].commit, p)];
    }
  }

  /** Of a walk that may be trusted: the stored blames stay exact, the answer is right, and it
      is stored unless the walk ran out or read no commit. */
  ghost predicate Answers(env: Env, h: History, listed: seq<seq<Listed>>, p: Path, on: bool, r: BlameResult,
                          store: Snapshots)
    requires h != [] && p in h[|h| - 1] && Within(h, Flatten(listed))
  {
    var content := h[|h| - 1][p];
    Trusted(env, h, listed, p, content, on) ==>
      var w := TreeWalk(env, h, Flatten(listed), p, content, 0);
      && StoreExact(env, h, store) && RightAnswer(env, h, Flatten(listed), |h| - 1, p, w, r)
      && (w.steps != [] && !w.ending.RanOut? ==> (w.steps[0].commit, p) in store)
  }

  /** No stored blame is a guess. */
  ghost predicate NoGuess(store: Snapshots)
  {
    forall k :: k in store ==> !store[k].truncated
  }

  /** The listing has at most 500 commits, among them the one that created the file. */
  ghost predicate Reaches(env: Env, h: History, list: seq<Listed>, x: nat, p: Path)
    requires x < |h| && p in h[x]
  {
    |list| <= 500 && exists k :: 0 <= k < |list| && list[k].commit == CreatedAt(env, h, x, p)
  }

  /** From a store without guesses, a trusted listing that reaches back gives the full blame,
      and leaves no guess. */
  ghost predicate NeverGuesses(env: Env, h: History, listed: seq<seq<Listed>>, p: Path, on: bool, r: BlameResult,
                               before: Snapshots, after: Snapshots)
    requires h != [] && p in h[|h| - 1] && Within(h, Flatten(listed))
  {
    && Trusted(env, h, listed, p, h[|h| - 1][p], on) && NoGuess(before)
    && Reaches(env, h, Flatten(listed), |h| - 1, p) ==>
      NoGuess(after) && !r.truncated && r.owners == FullBlame(env, h, |h| - 1, p)
  }

  /** What a blame answers and what it leaves stored. */
  ghost predicate Blamed(env: Env, h: History, listed: seq<seq<Listed>>, p: Path, on: bool, r: BlameResult,
                         before: Snapshots, after: Snapshots)
    requires h != [] && p in h[|h| - 1] && Within(h, Flatten(listed))
  {
    Answers(env, h, listed, p, on, r, after) && NeverGuesses(env, h, listed, p, on, r, before, after)
  }

  lemma NoGuessReaches(env: Env, h: History, store: Snapshots, list: seq<Listed>, x: nat, p: Path)
    requires x < |h| && p in h[x] && NoGuess(store) && FromStore(store, list) && Reaches(env, h, list, x, p)
    ensures ReachesBack(env, h, list, x, p)
  {
    forall k, q | 0 <= k < |list| && q in list[k].snapshots ensures !list[k].snapshots[q].truncated {
      assert (list[k].commit, q) in store && list[k].snapshots[q] == store[(list[k].commit, q)];
    }
  }

  /** The server: its history and its stored blames. */
  class Service {
    const env: Env
    var history: History
    var snapshots: Snapshots

    constructor (env: Env, root: Tree)
      ensures Valid() && history == [root] && snapshots == map[]
    {
      this.env, this.history, this.snapshots := env, [root], map[];
    }

    ghost predicate Valid()
      reads this
    {
      history != [] && StoreExact(env, history, snapshots)
    }

    method Land(tree: Tree)
      requires Valid()
      modifies this`history
      ensures Valid() && history == old(history) + [tree]
    {
      LandingKeepsStore(env, history, tree, snapshots);
      history := history + [tree];
    }

    /** Blames the file at p at the head.  Over any run of landings and blames whose
        listings are complete and may be trusted, the stored blames stay exact.  Where they
        also hold at most 500 commits and go back to the file's creation, no answer and no
        stored blame is a guess, and each answer is the full blame. */
    method Blame(p: Path, pages: seq<seq<nat>>, changes: nat -> map<Path, seq<FileChange>>, on: bool,
                 readable: Content -> bool, ghost paths: set<Path>) returns (r: BlameResult)
      requires Valid() && p in history[|history| - 1] && p in paths
      requires GoodListing(env, history, Flatten(ListedPages(snapshots, changes, pages)), paths)
      modifies this`snapshots
      ensures Stores(old(snapshots), r.stored, snapshots)
      ensures Blamed(env, history, ListedPages(old(snapshots), changes, pages), p, on, r, old(snapshots), snapshots)
      ensures Trusted(env, history, ListedPages(old(snapshots), changes, pages), p, history[|history| - 1][p], on) ==>
        Valid()
    {
      r, snapshots := BlameAt(env, history, snapshots, p, pages, changes, on, readable, paths);
    }
  }

  /** The listing of a blame leaves no change of the paths out. */
  ghost predicate GoodListing(env: Env, h: History, list: seq<Listed>, paths: set<Path>)
  {
    Within(h, list) && Complete(env, h, list, |h|, paths)
  }

  /** The store has what it had, and what was to be stored unless its place was taken. */
  ghost predicate Stores(store: Snapshots, stored: Option<(nat, Path, Snapshot)>, after: Snapshots)
  {
    && (forall k :: k in store ==> k in after && after[k] == store[k])
    && (forall k :: k in after ==>
          k in store || (stored.Some? && k == (stored.value.0, stored.value.1) && after[k] == stored.value.2))
    && (stored.Some? ==> (stored.value.0, stored.value.1) in after)
  }

  lemma StoredExact(env: Env, h: History, store: Snapshots, stored: Option<(nat, Path, Snapshot)>, after: Snapshots)
    requires StoreExact(env, h, store) && Stores(store, stored, after)
    requires stored.Some? ==> ExactSnapshot(env, h, stored.value.0, stored.value.1, stored.value.2)
    requires stored.Some? ==> |stored.value.2.owners| == |stored.value.2.content|
    ensures StoreExact(env, h, after)
  {
  }

  lemma AnswersFrom(env: Env, h: History, listed: seq<seq<Listed>>, p: Path, on: bool, r: BlameResult,
                    store: Snapshots, store': Snapshots)
    requires h != [] && p in h[|h| - 1] && Within(h, Flatten(listed))
    requires StoreExact(env, h, store) && Stores(store, r.stored, store')
    requires r.stored.Some? ==> |r.stored.value.2.owners| == |r.stored.value.2.content|
    requires var w := TreeWalk(env, h, Flatten(listed), p, h[|h| - 1][p], 0);
      && RightAnswer(env, h, Flatten(listed), |h| - 1, p, w, r)
      && (r.stored.Some? <==> w.steps != [] && !w.ending.RanOut?)
      && (r.stored.Some? ==> r.stored.value.0 == w.steps[0].commit && r.stored.value.1 == p)
    ensures Answers(env, h, listed, p, on, r, store')
  {
    StoredExact(env, h, store, r.stored, store');
  }

  lemma NeverGuessesFrom(env: Env, h: History, listed: seq<seq<Listed>>, p: Path, on: bool, r: BlameResult,
                         w: Walked, store: Snapshots, store': Snapshots)
    requires h != [] && p in h[|h| - 1] && Within(h, Flatten(listed))
    requires FromStore(store, Flatten(listed)) && Stores(store, r.stored, store')
    requires r.stored.Some? ==> r.stored.value.2.truncated == r.truncated
    requires RightAnswer(env, h, Flatten(listed), |h| - 1, p, w, r)
    ensures NeverGuesses(env, h, listed, p, on, r, store, store')
  {
    var list := Flatten(listed);
    if NoGuess(store) && Reaches(env, h, list, |h| - 1, p) { NoGuessReaches(env, h, store, list, |h| - 1, p); }
  }

  method BlameAt(env: Env, h: History, store: Snapshots, p: Path, pages: seq<seq<nat>>,
                 changes: nat -> map<Path, seq<FileChange>>, on: bool, readable: Content -> bool,
                 ghost paths: set<Path>) returns (r: BlameResult, store': Snapshots)
    requires h != [] && StoreExact(env, h, store) && p in h[|h| - 1] && p in paths
    requires GoodListing(env, h, Flatten(ListedPages(store, changes, pages)), paths)
    ensures Stores(store, r.stored, store')
    ensures Blamed(env, h, ListedPages(store, changes, pages), p, on, r, store, store')
  {
    var listed := ListedPages(store, changes, pages);
    ghost var list := Flatten(listed);
    PagesFromStore(store, changes, pages);
    SnapshotsAreExact(env, h, store, list);
    r := BlameFile(env, h, p, listed, on, readable, paths);
    store' := Put(store, r.stored);
    if Trusted(env, h, listed, p, h[|h| - 1][p], on) {
      TrustedIsTree(env, h, listed, |h|, p, h[|h| - 1][p], on, readable, paths);
      ghost var w := TreeWalk(env, h, Flatten(listed), p, h[|h| - 1][p], 0);
      AnswersFrom(env, h, listed, p, on, r, store, store');
      NeverGuessesFrom(env, h, listed, p, on, r, w, store, store');
    }
  }

  /** `PutBlameSnapshot`: storing one that exists is a no-op. */
  method Put(store: Snapshots, stored: Option<(nat, Path, Snapshot)>) returns (r: Snapshots)
    ensures Stores(store, stored, r)
  {
    r := store;
    if stored.Some? && (stored.value.0, stored.value.1) !in store {
      r := r[(stored.value.0, stored.value.1) := stored.value.2];
    }
  }

  // ---------- The answer as runs of lines ----------

  /** startLine is 1-based. */
  datatype Range = Range(startLine: nat, lineCount: nat, commit: nat)

  function Expand(ranges: seq<Range>): (owners: seq<nat>)
  {
    if ranges == [] then []
    else Expand(ranges[..|ranges| - 1]) + seq(ranges[|ranges| - 1].lineCount, _ => ranges[|ranges| - 1].commit)
  }

  /** The ranges follow one another from line 1, are not empty, and are maximal. */
  ghost predicate Runs(ranges: seq<Range>)
  {
    && (forall i :: 0 <= i < |ranges| ==> ranges[i].lineCount > 0)
    && (ranges != [] ==> ranges[0].startLine == 1)
    && (forall i :: 0 < i < |ranges| ==> Follows(ranges[i - 1], ranges[i]))
  }

  predicate Follows(r: Range, next: Range)
  {
    next.startLine == r.startLine + r.lineCount && next.commit != r.commit
  }

  lemma ExpandSnoc(ranges: seq<Range>, r: Range)
    ensures Expand(ranges + [r]) == Expand(ranges) + seq(r.lineCount, _ => r.commit)
  {
    assert (ranges + [r])[..|ranges + [r]| - 1] == ranges;
  }

  lemma RunsSnoc(ranges: seq<Range>, r: Range)
    requires Runs(ranges) && r.lineCount > 0
    requires if ranges == [] then r.startLine == 1 else Follows(ranges[|ranges| - 1], r)
    ensures Runs(ranges + [r])
  {
    var all := ranges + [r];
    forall i | 0 < i < |all|
      ensures Follows(all[i - 1], all[i])
    {
      assert all[i - 1] == ranges[i - 1] && (i < |ranges| ==> all[i] == ranges[i]);
    }
  }

  /** The ranges so far are those of the first `start` lines. */
  ghost predicate RangesOf(owners: seq<nat>, start: nat, ranges: seq<Range>)
  {
    && start <= |owners| && Expand(ranges) == owners[..start] && Runs(ranges) && (start == 0 <==> ranges == [])
    && (ranges != [] ==>
          var last := ranges[|ranges| - 1];
          last.commit == owners[start - 1] && start == last.startLine + last.lineCount - 1)
  }

  lemma {:induction false} AddRange(owners: seq<nat>, start: nat, end: nat, ranges: seq<Range>)
    requires RangesOf(owners, start, ranges) && start < end <= |owners|
    requires start > 0 ==> owners[start] != owners[start - 1]
    requires forall i :: start <= i < end ==> owners[i] == owners[start]
    ensures RangesOf(owners, end, ranges + [Range(start + 1, end - start, owners[start])])
  {
    var r := Range(start + 1, end - start, owners[start]);
    ExpandSnoc(ranges, r);
    RunsSnoc(ranges, r);
    assert owners[start..end] == seq(r.lineCount, _ => r.commit);
    assert owners[..end] == owners[..start] + owners[start..end];
  }

  /** Lines 159 to 173: the ranges expand to the owners, and every commit is named once. */
  method Ranges(owners: seq<nat>) returns (ranges: seq<Range>, ids: seq<nat>)
    ensures Expand(ranges) == owners && Runs(ranges)
    ensures forall c :: c in ids <==> c in owners
    ensures forall i, j :: 0 <= i < j < |ids| ==> ids[i] != ids[j]
  {
    ranges, ids := [], [];
    var start := 0;
    while start < |owners|
      invariant 0 <= start <= |owners| && RangesOf(owners, start, ranges)
      invariant 0 < start < |owners| ==> owners[start] != owners[start - 1]
      invariant forall c :: c in ids <==> c in owners[..start]
      invariant forall i, j :: 0 <= i < j < |ids| ==> ids[i] != ids[j]
    {
      var end := RunEnd(owners, start);
      AddRange(owners, start, end, ranges);
      ranges := ranges + [Range(start + 1, end - start, owners[start])];
      ids := Name(owners, start, end, ids);
      start := end;
    }
    assert owners[..|owners|] == owners;
  }

  method RunEnd(owners: seq<nat>, start: nat) returns (end: nat)
    requires start < |owners|
    ensures start < end <= |owners| && forall i :: start <= i < end ==> owners[i] == owners[start]
    ensures end < |owners| ==> owners[end] != owners[end - 1]
  {
    end := start;
    while end < |owners| && owners[end] == owners[start]
      invariant start <= end <= |owners| && forall i :: start <= i < end ==> owners[i] == owners[start]
    {
      end := end + 1;
    }
  }

  /** Names the owner of a run, if it is not named yet. */
  method Name(owners: seq<nat>, start: nat, end: nat, ids0: seq<nat>) returns (ids: seq<nat>)
    requires start < end <= |owners| && forall i :: start <= i < end ==> owners[i] == owners[start]
    requires forall c :: c in ids0 <==> c in owners[..start]
    requires forall i, j :: 0 <= i < j < |ids0| ==> ids0[i] != ids0[j]
    ensures forall c :: c in ids <==> c in owners[..end]
    ensures forall i, j :: 0 <= i < j < |ids| ==> ids[i] != ids[j]
  {
    ids := ids0;
    if owners[start] !in ids { ids := ids + [owners[start]]; }
    assert owners[..end] == owners[..start] + owners[start..end];
    assert owners[start] in owners[start..end] by { assert owners[start..end][0] == owners[start]; }
  }
}
