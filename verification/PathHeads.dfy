/**
  The store's admission table (internal/postgres/path_bases.go,
  internal/postgres/path_heads.go): one row per path a submit ever read, holding the
  latest accepted state of that path, ahead of the target ref while accepted
  patchsets wait to be published.

  The table is a fast form of the rule the Landing module states: this module proves
  when it decides the same submits, and shows the runs in which it does not.
 */
module PathHeads {
  import opened Options
  import opened Patchsets
  import opened Rebase
  import opened Landing

  /** A row holding None is a tombstone; a path without a row is not initialized. */
  type Rows = map<Path, Option<File>>

  datatype Store = Store(s: State, rows: Rows)

  // ---------- Admission ----------

  /** Rows for the read set that are not there yet are read from the head. */
  function Initialized(rows: Rows, head: Tree, edits: seq<Edit>): (r: Rows)
  {
    rows + (map p | p in ReadSet(edits) && p !in rows :: Get(head, p))
  }

  /** Every recorded base matches its row. */
  predicate Admits(rows: Rows, ps: Patchset)
    requires ReadSet(ps.edits) <= rows.Keys
  {
    forall p :: p in ReadSet(ps.edits) ==> rows[p] == Get(ps.base, p)
  }

  /** One edit on the rows; a rename or copy of a path without a file fails. */
  function RowEdit(rows: Rows, e: Edit): (r: Option<Rows>)
  {
    match e
    case Upsert(p, f) => Some(rows[p := Some(f)])
    case Delete(p) => Some(rows[p := None])
    case Rename(from, p, _) =>
      if from in rows && rows[from].Some? then Some(rows[from := None][p := rows[from]]) else None
    case Copy(from, p) => if from in rows && rows[from].Some? then Some(rows[p := rows[from]]) else None
    case Mkdir(_) => Some(rows)
  }

  function RowEdits(rows: Rows, edits: seq<Edit>): (r: Option<Rows>)
    decreases |edits|
  {
    if edits == [] then Some(rows)
    else match RowEdit(rows, edits[0]) case None => None case Some(rows') => RowEdits(rows', edits[1..])
  }

  function Submit(st: Store, id: Id): (r: Store)
  {
    if !Acceptable(st.s, id) then st
    else
      var ps := Current(st.s.changesets[id]);
      var rows := Initialized(st.rows, st.s.head, ps.edits);
      if !Admits(rows, ps) then st.(rows := rows)
      else match RowEdits(rows, ps.edits) case None => st case Some(rows') => Store(Enqueue(st.s, id), rows')
  }

  // ---------- Publishing ----------

  /** q lies in the folder a. */
  predicate Below(a: Path, q: Path)
  {
    |a| < |q| && q[..|a|] == a && q[|a|] == '/'
  }

  /** The folders a path lies in, up to the root, which is not one of them. */
  function Folders(p: Path): set<Path>
  {
    set i | 0 < i < |p| && p[i] == '/' :: p[..i]
  }

  /** The paths a publish looks up in the published tree: for every edit the folders of its
      paths, and the paths themselves unless it puts a file there. */
  function Targets(e: Edit): set<Path>
  {
    match e
    case Upsert(p, _) => Folders(p)
    case Delete(p) => {p} + Folders(p)
    case Rename(from, p, _) => {from, p} + Folders(from) + Folders(p)
    case Copy(_, p) => {p} + Folders(p)
    case Mkdir(p) => {p} + Folders(p)
  }

  /** Those that are looked up with all that is in them. */
  function DeepTargets(e: Edit): set<Path>
  {
    match e
    case Delete(p) => {p}
    case Rename(from, p, _) => {from, p}
    case Copy(_, p) => {p}
    case Upsert(_, _) => {}
    case Mkdir(_) => {}
  }

  function TargetSet(edits: seq<Edit>): set<Path>
  {
    set i, p | 0 <= i < |edits| && p in Targets(edits[i]) :: p
  }

  function DeepSet(edits: seq<Edit>): set<Path>
  {
    set i, p | 0 <= i < |edits| && p in DeepTargets(edits[i]) :: p
  }

  predicate Makes(edits: seq<Edit>, a: Path)
  {
    exists i :: 0 <= i < |edits| && edits[i].Mkdir? && (edits[i].path == a || Below(a, edits[i].path))
  }

  /** The tree has neither a file nor a folder at a. */
  predicate Absent(root: Tree, edits: seq<Edit>, a: Path)
  {
    a !in root && (forall q :: q in root ==> !Below(a, q)) && !Makes(edits, a)
  }

  /** p is a file in a folder that is looked up with all that is in it. */
  predicate InDeep(root: Tree, edits: seq<Edit>, targets: set<Path>, p: Path)
  {
    p in root && exists a :: a in targets && a in DeepSet(edits) && a !in root && Below(a, p)
  }

  /** p lies below something that is not there any more. */
  predicate InAbsent(root: Tree, edits: seq<Edit>, targets: set<Path>, p: Path)
  {
    exists a :: a in targets && Absent(root, edits, a) && Below(a, p)
  }

  /** A publish of these edits writes the row of p, if there is one. */
  predicate Touches(root: Tree, edits: seq<Edit>, targets: set<Path>, p: Path)
  {
    Inserts(root, edits, targets, p) || InAbsent(root, edits, targets, p)
  }

  /** It writes it also if there is none. */
  predicate Inserts(root: Tree, edits: seq<Edit>, targets: set<Path>, p: Path)
  {
    p in targets || InDeep(root, edits, targets, p)
  }

  /** The rows after the publish of one patchset, of which `root` is the tree: every row it
      writes says what that tree holds. */
  function Refresh(rows: Rows, root: Tree, edits: seq<Edit>): (r: Rows)
  {
    var targets := TargetSet(edits);
    var written := targets + (set p | p in root && InDeep(root, edits, targets, p))
                   + (set p | p in rows && InAbsent(root, edits, targets, p));
    rows + (map p | p in written :: Get(root, p))
  }

  // Lines 92 to 132, and 35 to 70 with what is done in turn (lines 15 to 28): the targets of
  // the edits one by one, each with its folders; then for each, in some order, its lookup.

  method AddTarget(seen0: set<Path>, p: Path, self: bool) returns (seen: set<Path>)
    ensures seen == seen0 + Folders(p) + if self then {p} else {}
  {
    seen := if self then seen0 + {p} else seen0;
    for i := 0 to |p|
      invariant seen == seen0 + (if self then {p} else {}) + set j | 0 < j < i && p[j] == '/' :: p[..j]
    {
      if i > 0 && p[i] == '/' { seen := seen + {p[..i]}; }
    }
  }

  method AddTargets(seen0: set<Path>, e: Edit) returns (seen: set<Path>)
    ensures seen == seen0 + Targets(e)
  {
    match e {
      case Upsert(p, _) => seen := AddTarget(seen0, p, false);
      case Delete(p) => seen := AddTarget(seen0, p, true);
      case Rename(from, p, _) =>
        seen := AddTarget(seen0, from, true);
        seen := AddTarget(seen, p, true);
      case Copy(_, p) => seen := AddTarget(seen0, p, true);
      case Mkdir(p) => seen := AddTarget(seen0, p, true);
    }
  }

  method CollectTargets(edits: seq<Edit>) returns (seen: set<Path>)
    ensures seen == TargetSet(edits)
  {
    seen := {};
    for k := 0 to |edits|
      invariant seen == set i, p | 0 <= i < k && p in Targets(edits[i]) :: p
    {
      seen := AddTargets(seen, edits[k]);
    }
  }

  /** The rows once these targets have been looked up. */
  ghost predicate Looked(rows0: Rows, root: Tree, edits: seq<Edit>, done: set<Path>, rows: Rows)
  {
    && (forall p :: p in rows <==> p in rows0 || Inserts(root, edits, done, p))
    && (forall p :: p in rows ==> rows[p] == if Touches(root, edits, done, p) then Get(root, p) else rows0[p])
  }

  method RefreshRows(rows0: Rows, root: Tree, edits: seq<Edit>) returns (rows: Rows)
    ensures rows == Refresh(rows0, root, edits)
  {
    var targets := CollectTargets(edits);
    var todo := targets;
    rows := rows0;
    NothingLooked(rows0, root, edits, targets);
    while todo != {}
      invariant todo <= targets && Looked(rows0, root, edits, targets - todo, rows)
      decreases |todo|
    {
      var a :| a in todo;
      LookedMore(rows0, root, edits, targets, todo, rows, a);
      rows := LookUp(rows, root, edits, a);
      todo := todo - {a};
    }
    AllLooked(rows0, root, edits, todo, rows);
  }

  lemma LookedMore(rows0: Rows, root: Tree, edits: seq<Edit>, targets: set<Path>, todo: set<Path>, rows: Rows, a: Path)
    requires a in todo && todo <= targets && Looked(rows0, root, edits, targets - todo, rows)
    ensures Looked(rows0, root, edits, targets - (todo - {a}), LookUp(rows, root, edits, a))
  {
    LookedNext(rows0, root, edits, targets - todo, rows, a);
    assert targets - (todo - {a}) == (targets - todo) + {a};
  }

  /** The lookup of one target: a tombstone there and below when nothing is there, all the
      files of a folder that is looked up with what is in it, or just its row. */
  function LookUp(rows: Rows, root: Tree, edits: seq<Edit>, a: Path): Rows
  {
    if Absent(root, edits, a) then Tombstoned(rows, a)
    else if a in DeepSet(edits) && a !in root then
      (rows + (map p | p in root && Below(a, p) :: Some(root[p])))[a := None]
    else rows[a := Get(root, a)]
  }

  lemma NothingLooked(rows: Rows, root: Tree, edits: seq<Edit>, targets: set<Path>)
    ensures Looked(rows, root, edits, targets - targets, rows)
  {
  }

  lemma AllLooked(rows0: Rows, root: Tree, edits: seq<Edit>, todo: set<Path>, rows: Rows)
    requires todo == {} && Looked(rows0, root, edits, TargetSet(edits) - todo, rows)
    ensures rows == Refresh(rows0, root, edits)
  {
    assert TargetSet(edits) - todo == TargetSet(edits);
    var r := Refresh(rows0, root, edits);
    forall p ensures p in rows <==> p in r ensures p in rows && p in r ==> rows[p] == r[p] {
      RefreshAt(rows0, root, edits, p);
    }
  }

  /** `markPathHeadDeletedRecursiveTx`. */
  function Tombstoned(rows: Rows, a: Path): Rows
  {
    (map p | p in rows :: if Below(a, p) then None else rows[p])[a := None]
  }

  lemma LookedNext(rows0: Rows, root: Tree, edits: seq<Edit>, done: set<Path>, rows: Rows, a: Path)
    requires Looked(rows0, root, edits, done, rows)
    ensures Looked(rows0, root, edits, done + {a}, LookUp(rows, root, edits, a))
  {
    var rows' := LookUp(rows, root, edits, a);
    forall p
      ensures p in rows' <==> p in rows0 || Inserts(root, edits, done + {a}, p)
      ensures p in rows' ==> rows'[p] == if Touches(root, edits, done + {a}, p) then Get(root, p) else rows0[p]
    {
      OneMore(root, edits, done, a, p);
    }
  }

  lemma OneMore(root: Tree, edits: seq<Edit>, done: set<Path>, a: Path, p: Path)
    ensures InDeep(root, edits, done + {a}, p) <==>
      InDeep(root, edits, done, p) || (p in root && a in DeepSet(edits) && a !in root && Below(a, p))
    ensures InAbsent(root, edits, done + {a}, p) <==>
      InAbsent(root, edits, done, p) || (Absent(root, edits, a) && Below(a, p))
  {
  }

  /** The rows after publishing the queue on t, patchset by patchset. */
  function PublishRows(rows: Rows, t: Tree, queue: seq<Queued>): (r: Rows)
    decreases |queue|
  {
    if queue == [] then rows
    else
      var n := |queue| - 1;
      Refresh(PublishRows(rows, t, queue[..n]), LandAll(t, queue), queue[n].patchset.edits)
  }

  function PublishStore(st: Store, claim: seq<bool>): (r: Store)
  {
    var taken := Part(st.s.queue, claim, true);
    if !CanLand(st.s.head, taken) then st
    else Store(PublishClaim(st.s, claim), PublishRows(st.rows, st.s.head, taken))
  }

  // ---------- The table holds what was accepted ----------

  ghost predicate RowsHold(rows: Rows, t: Tree)
  {
    forall p :: p in rows ==> rows[p] == Get(t, p)
  }

  ghost predicate Covered(rows: Rows, queue: seq<Queued>)
  {
    forall i :: 0 <= i < |queue| ==> ReadSet(queue[i].patchset.edits) <= rows.Keys
  }

  ghost predicate Coherent(st: Store)
  {
    RowsHold(st.rows, Accepted(st.s)) && Covered(st.rows, st.s.queue)
  }

  lemma RowEditFollows(rows: Rows, t: Tree, e: Edit)
    requires RowsHold(rows, t) && Reads(e) <= rows.Keys
    ensures RowEdit(rows, e).Some? == ApplyEdit(t, e).Some?
    ensures RowEdit(rows, e).Some? ==>
      RowsHold(RowEdit(rows, e).value, ApplyEdit(t, e).value) && rows.Keys <= RowEdit(rows, e).value.Keys
  {
    assert e.path in Reads(e);
    if e.Rename? || e.Copy? { assert e.from in Reads(e) && rows[e.from] == Get(t, e.from); }
  }

  lemma {:induction false} RowEditsFollow(rows: Rows, t: Tree, edits: seq<Edit>)
    requires RowsHold(rows, t) && ReadSet(edits) <= rows.Keys
    ensures RowEdits(rows, edits).Some? == ApplyEdits(t, edits).Some?
    ensures RowEdits(rows, edits).Some? ==>
      RowsHold(RowEdits(rows, edits).value, ApplyEdits(t, edits).value) && rows.Keys <= RowEdits(rows, edits).value.Keys
    decreases |edits|
  {
    if edits != [] {
      RowEditFollows(rows, t, edits[0]);
      if RowEdit(rows, edits[0]).Some? {
        RowEditsFollow(RowEdit(rows, edits[0]).value, ApplyEdit(t, edits[0]).value, edits[1..]);
      }
    }
  }

  lemma InitializedHolds(st: Store, edits: seq<Edit>)
    requires Coherent(st)
    ensures RowsHold(Initialized(st.rows, st.s.head, edits), Accepted(st.s))
  {
    forall p | p in ReadSet(edits) && p !in st.rows ensures Get(st.s.head, p) == Get(Accepted(st.s), p) {
      forall i | 0 <= i < |st.s.queue| ensures p !in WriteSet(st.s.queue[i].patchset.edits) {
        assert ReadSet(st.s.queue[i].patchset.edits) <= st.rows.Keys;
      }
      UntouchedByQueue(st.s.head, st.s.queue, p);
    }
  }

  /** On a coherent table, a submit is accepted exactly when it is fresh against what
      has been accepted, and the table stays coherent. */
  lemma AdmissionIsExact(m: Merger, st: Store, id: Id)
    requires Coherent(st)
    requires Acceptable(st.s, id) ==> Previewed(Current(st.s.changesets[id]))
    ensures Submit(st, id).s == Step(m, st.s, Accept(id))
    ensures Coherent(Submit(st, id))
  {
    if Acceptable(st.s, id) {
      var ps := Current(st.s.changesets[id]);
      var rows := Initialized(st.rows, st.s.head, ps.edits);
      InitializedHolds(st, ps.edits);
      assert Admits(rows, ps) <==> Fresh(ps, Accepted(st.s)) by {
        assert forall p :: p in ReadSet(ps.edits) ==> p in rows && rows[p] == Get(Accepted(st.s), p);
      }
      if Admits(rows, ps) {
        EffectIsFootprint(ps.base, Accepted(st.s), ps.edits);
        RowEditsFollow(rows, Accepted(st.s), ps.edits);
        QueueSnoc(st.s.head, st.s.queue, Queued(id, ps));
      }
    }
  }

  // ---------- Exactly which publishes keep the table coherent ----------

  /** Publishing the queue on t, patchset i writes the row of p, if there is one. */
  ghost predicate TouchedAt(t: Tree, queue: seq<Queued>, p: Path, i: int)
  {
    0 <= i < |queue| &&
    var edits := queue[i].patchset.edits;
    Touches(LandAll(t, queue[..i + 1]), edits, TargetSet(edits), p)
  }

  /** It does so also if there is none. */
  ghost predicate InsertedAt(t: Tree, queue: seq<Queued>, p: Path, i: int)
  {
    0 <= i < |queue| &&
    var edits := queue[i].patchset.edits;
    Inserts(LandAll(t, queue[..i + 1]), edits, TargetSet(edits), p)
  }

  /** Patchset i of the queue is the last that refreshes p. */
  ghost predicate LastRefresher(t: Tree, queue: seq<Queued>, p: Path, i: int)
  {
    TouchedAt(t, queue, p, i) && forall j :: i < j < |queue| ==> !TouchedAt(t, queue, p, j)
  }

  /** p has a row, or the publish gives it one. */
  ghost predicate GetsRow(rows: Rows, t: Tree, queue: seq<Queued>, p: Path)
  {
    p in rows || exists i :: InsertedAt(t, queue, p, i)
  }

  /** No refresh overtakes a later accepted change: what the last published patchset
      that refreshes a row left at its path is what is accepted there. */
  ghost predicate NoOvertaking(st: Store, claim: seq<bool>)
  {
    var taken := Part(st.s.queue, claim, true);
    forall p, i :: LastRefresher(st.s.head, taken, p, i) && GetsRow(st.rows, st.s.head, taken, p) ==>
      Get(LandAll(st.s.head, taken[..i + 1]), p) == Get(Accepted(st.s), p)
  }

  lemma RefreshAt(rows: Rows, root: Tree, edits: seq<Edit>, p: Path)
    ensures var targets, r := TargetSet(edits), Refresh(rows, root, edits);
      && (p in r <==> p in rows || Inserts(root, edits, targets, p))
      && (p in r ==> r[p] == if Touches(root, edits, targets, p) then Get(root, p) else rows[p])
  {
  }

  lemma TouchedPrefix(t: Tree, queue: seq<Queued>, n: nat, p: Path, i: nat)
    requires i < n <= |queue|
    ensures TouchedAt(t, queue[..n], p, i) <==> TouchedAt(t, queue, p, i)
    ensures InsertedAt(t, queue[..n], p, i) <==> InsertedAt(t, queue, p, i)
  {
    assert queue[..n][..i + 1] == queue[..i + 1] && queue[..n][i] == queue[i];
  }

  // The row of one path through the publishes of a queue: what each found there, whether it
  // writes the row if there is one, and whether it does so if there is none.

  datatype Turn = Turn(found: Option<File>, touches: bool, inserts: bool)

  ghost predicate Consistent(turns: seq<Turn>)
  {
    forall i :: 0 <= i < |turns| && turns[i].inserts ==> turns[i].touches
  }

  ghost function RowAfter(row: Option<Option<File>>, turns: seq<Turn>): Option<Option<File>>
  {
    if turns == [] then row
    else
      NextRow(RowAfter(row, turns[..|turns| - 1]), turns[|turns| - 1])
  }

  function NextRow(row: Option<Option<File>>, turn: Turn): Option<Option<File>>
  {
    if turn.inserts || (row.Some? && turn.touches) then Some(turn.found) else row
  }

  /** There is a row in the end if there was one or a turn inserts one. */
  lemma {:induction false} RowAfterExists(row: Option<Option<File>>, turns: seq<Turn>)
    requires Consistent(turns)
    ensures RowAfter(row, turns).Some? <==> row.Some? || exists i :: 0 <= i < |turns| && turns[i].inserts
    decreases |turns|
  {
    if turns != [] {
      var n := |turns| - 1;
      RowAfterExists(row, turns[..n]);
      if i :| 0 <= i < |turns| && turns[i].inserts && i < n { assert turns[..n][i].inserts; }
    }
  }

  lemma {:induction false} RowAfterNone(row: Option<Option<File>>, turns: seq<Turn>)
    requires Consistent(turns) && forall i :: 0 <= i < |turns| ==> !turns[i].touches
    ensures RowAfter(row, turns) == row
    decreases |turns|
  {
    if turns != [] {
      var n := |turns| - 1;
      assert turns[n] == turns[|turns| - 1];
      RowAfterNone(row, turns[..n]);
    }
  }

  ghost predicate LastTouch(turns: seq<Turn>, i: int)
  {
    0 <= i < |turns| && turns[i].touches && forall j :: i < j < |turns| ==> !turns[j].touches
  }

  /** It says what the last turn that writes it found. */
  lemma {:induction false} RowAfterLast(row: Option<Option<File>>, turns: seq<Turn>, i: nat)
    requires Consistent(turns) && RowAfter(row, turns).Some? && LastTouch(turns, i)
    ensures RowAfter(row, turns) == Some(turns[i].found)
    decreases |turns|
  {
    var n := |turns| - 1;
    if i < n {
      assert !turns[n].touches && turns[..n][i] == turns[i];
      RowAfterLast(row, turns[..n], i);
    }
  }

  ghost function TurnsAt(t: Tree, queue: seq<Queued>, p: Path): (turns: seq<Turn>)
    ensures |turns| == |queue|
  {
    seq(|queue|, i requires 0 <= i < |queue| =>
      Turn(Get(LandAll(t, queue[..i + 1]), p), TouchedAt(t, queue, p, i), InsertedAt(t, queue, p, i)))
  }

  function RowOf(rows: Rows, p: Path): Option<Option<File>>
  {
    if p in rows then Some(rows[p]) else None
  }

  lemma TurnsPrefix(t: Tree, queue: seq<Queued>, n: nat, p: Path)
    requires n <= |queue|
    ensures TurnsAt(t, queue[..n], p) == TurnsAt(t, queue, p)[..n]
  {
    forall i | 0 <= i < n ensures TurnsAt(t, queue[..n], p)[i] == TurnsAt(t, queue, p)[i] {
      TouchedPrefix(t, queue, n, p, i);
      assert queue[..n][..i + 1] == queue[..i + 1];
    }
  }

  lemma PublishNext(rows: Rows, t: Tree, queue: seq<Queued>, p: Path)
    requires queue != []
    ensures var n := |queue| - 1;
      RowOf(PublishRows(rows, t, queue), p) ==
      NextRow(RowOf(PublishRows(rows, t, queue[..n]), p), TurnsAt(t, queue, p)[n])
  {
    var n := |queue| - 1;
    assert queue[..n + 1] == queue;
    RefreshAt(PublishRows(rows, t, queue[..n]), LandAll(t, queue), queue[n].patchset.edits, p);
  }

  lemma RowAfterSnoc(row: Option<Option<File>>, turns: seq<Turn>)
    requires turns != []
    ensures RowAfter(row, turns) == NextRow(RowAfter(row, turns[..|turns| - 1]), turns[|turns| - 1])
  {
  }

  lemma {:induction false} PublishedRow(rows: Rows, t: Tree, queue: seq<Queued>, p: Path)
    ensures RowOf(PublishRows(rows, t, queue), p) == RowAfter(RowOf(rows, p), TurnsAt(t, queue, p))
    decreases |queue|
  {
    if queue == [] {
      assert TurnsAt(t, queue, p) == [];
    } else {
      PublishedRow(rows, t, queue[..|queue| - 1], p);
      TurnsPrefix(t, queue, |queue| - 1, p);
      PublishNext(rows, t, queue, p);
      RowAfterSnoc(RowOf(rows, p), TurnsAt(t, queue, p));
    }
  }

  lemma TurnsAre(t: Tree, queue: seq<Queued>, p: Path)
    ensures Consistent(TurnsAt(t, queue, p))
    ensures (exists i :: InsertedAt(t, queue, p, i)) <==>
      exists i :: 0 <= i < |queue| && TurnsAt(t, queue, p)[i].inserts
  {
    var turns := TurnsAt(t, queue, p);
    if i :| InsertedAt(t, queue, p, i) { assert turns[i].inserts; }
    if i :| 0 <= i < |queue| && turns[i].inserts { assert InsertedAt(t, queue, p, i); }
  }

  /** Which rows there are after a publish. */
  lemma {:induction false} PublishedKeys(rows: Rows, t: Tree, queue: seq<Queued>, p: Path)
    ensures p in PublishRows(rows, t, queue) <==> GetsRow(rows, t, queue, p)
  {
    PublishedRow(rows, t, queue, p);
    TurnsAre(t, queue, p);
    RowAfterExists(RowOf(rows, p), TurnsAt(t, queue, p));
  }

  /** A row that is not refreshed says what it said. */
  lemma {:induction false} UntouchedRow(rows: Rows, t: Tree, queue: seq<Queued>, p: Path)
    requires p in PublishRows(rows, t, queue) && forall i :: !TouchedAt(t, queue, p, i)
    ensures p in rows && PublishRows(rows, t, queue)[p] == rows[p]
  {
    PublishedRow(rows, t, queue, p);
    TurnsAre(t, queue, p);
    RowAfterNone(RowOf(rows, p), TurnsAt(t, queue, p));
  }

  lemma LastIsLast(t: Tree, queue: seq<Queued>, p: Path, i: nat)
    requires LastRefresher(t, queue, p, i)
    ensures LastTouch(TurnsAt(t, queue, p), i) && TurnsAt(t, queue, p)[i].found == Get(LandAll(t, queue[..i + 1]), p)
  {
  }

  /** A row that is refreshed says what the last refresh found. */
  lemma {:induction false} LastRefreshedRow(rows: Rows, t: Tree, queue: seq<Queued>, p: Path, i: nat)
    requires p in PublishRows(rows, t, queue) && LastRefresher(t, queue, p, i)
    ensures PublishRows(rows, t, queue)[p] == Get(LandAll(t, queue[..i + 1]), p)
  {
    PublishedRow(rows, t, queue, p);
    TurnsAre(t, queue, p);
    LastIsLast(t, queue, p, i);
    RowAfterLast(RowOf(rows, p), TurnsAt(t, queue, p), i);
  }

  lemma {:induction false} LastRefresherExists(t: Tree, queue: seq<Queued>, p: Path, i: nat) returns (j: int)
    requires TouchedAt(t, queue, p, i)
    ensures LastRefresher(t, queue, p, j)
    decreases |queue| - i
  {
    if i' :| i < i' < |queue| && TouchedAt(t, queue, p, i') {
      j := LastRefresherExists(t, queue, p, i');
    } else {
      j := i;
    }
  }

  lemma {:induction false} PartCovered(rows: Rows, queue: seq<Queued>, claim: seq<bool>, taken: bool)
    requires Covered(rows, queue)
    ensures Covered(rows, Part(queue, claim, taken))
    decreases |queue|
  {
    if queue != [] {
      assert forall i :: 0 <= i < |queue[1..]| ==> queue[1..][i] == queue[i + 1];
      PartCovered(rows, queue[1..], Later(claim), taken);
    }
  }

  lemma {:induction false} PublishCovered(st: Store, claim: seq<bool>)
    requires Coherent(st)
    ensures Covered(PublishRows(st.rows, st.s.head, Part(st.s.queue, claim, true)), Part(st.s.queue, claim, false))
  {
    var taken, left := Part(st.s.queue, claim, true), Part(st.s.queue, claim, false);
    var rows := PublishRows(st.rows, st.s.head, taken);
    PartCovered(st.rows, st.s.queue, claim, false);
    forall i | 0 <= i < |left| ensures ReadSet(left[i].patchset.edits) <= rows.Keys {
      forall p | p in ReadSet(left[i].patchset.edits) ensures p in rows {
        PublishedKeys(st.rows, st.s.head, taken, p);
      }
    }
  }

  /** An orderly publish keeps the table coherent if and only if none of its refreshes
      overtakes a later accepted change. */
  lemma {:induction false} PublishCoherentIff(m: Merger, root: Tree, st: Store, claim: seq<bool>)
    requires Coherent(st) && Safe(m, root, st.s) && Orderly(st.s, claim)
    ensures Coherent(PublishStore(st, claim)) <==> NoOvertaking(st, claim)
  {
    var taken := Part(st.s.queue, claim, true);
    var rows := PublishRows(st.rows, st.s.head, taken);
    PublishKeepsAccepted(m, root, st.s, claim);
    PublishCovered(st, claim);
    forall p, i | LastRefresher(st.s.head, taken, p, i) && GetsRow(st.rows, st.s.head, taken, p)
      ensures p in rows && rows[p] == Get(LandAll(st.s.head, taken[..i + 1]), p)
    {
      PublishedKeys(st.rows, st.s.head, taken, p);
      LastRefreshedRow(st.rows, st.s.head, taken, p, i);
    }
    if NoOvertaking(st, claim) {
      forall p | p in rows ensures rows[p] == Get(Accepted(st.s), p) {
        PublishedKeys(st.rows, st.s.head, taken, p);
        if i :| TouchedAt(st.s.head, taken, p, i) {
          var j := LastRefresherExists(st.s.head, taken, p, i);
        } else {
          UntouchedRow(st.rows, st.s.head, taken, p);
        }
      }
    }
  }

  /** What a taken row refreshes, no row that lands after it writes. */
  ghost predicate WritesApart(t: Tree, queue: seq<Queued>, claim: seq<bool>)
  {
    var taken := Part(queue, claim, true);
    var order := taken + Part(queue, claim, false);
    forall i, j, p :: TouchedAt(t, taken, p, i) && i < j < |order| ==> p !in WriteSet(order[j].patchset.edits)
  }

  lemma {:induction false} LandAllConcat(t: Tree, x: seq<Queued>, y: seq<Queued>)
    ensures LandAll(t, x + y) == LandAll(LandAll(t, x), y)
    decreases |x|
  {
    if x == [] {
      assert x + y == y;
    } else {
      assert (x + y)[1..] == x[1..] + y;
      LandAllConcat(LandOne(t, x[0].patchset), x[1..], y);
    }
  }

  /** In particular when nothing that lands after a patchset writes what it refreshes. */
  lemma {:induction false} NoLaterWriter(m: Merger, root: Tree, st: Store, claim: seq<bool>)
    requires Safe(m, root, st.s) && Orderly(st.s, claim) && WritesApart(st.s.head, st.s.queue, claim)
    ensures NoOvertaking(st, claim)
  {
    var taken, left := Part(st.s.queue, claim, true), Part(st.s.queue, claim, false);
    var order := taken + left;
    PublishKeepsAccepted(m, root, st.s, claim);
    LandAllConcat(st.s.head, taken, left);
    forall p, i | LastRefresher(st.s.head, taken, p, i)
      ensures Get(LandAll(st.s.head, taken[..i + 1]), p) == Get(Accepted(st.s), p)
    {
      assert order[i] == taken[i] && order[..i + 1] == taken[..i + 1];
      NotWrittenSince(st.s.head, order, i + 1, p);
    }
  }

  lemma NotWrittenSince(t: Tree, order: seq<Queued>, n: nat, p: Path)
    requires n <= |order| && forall j :: n <= j < |order| ==> p !in WriteSet(order[j].patchset.edits)
    ensures Get(LandAll(t, order[..n]), p) == Get(LandAll(t, order), p)
  {
    var rest := order[n..];
    assert order == order[..n] + rest;
    LandAllConcat(t, order[..n], rest);
    UntouchedByQueue(LandAll(t, order[..n]), rest, p);
  }

  // ---------- Whole runs ----------

  /** The same actions, decided by the table. */
  function StoreStep(m: Merger, st: Store, a: Action): Store
  {
    match a
    case Accept(id) => Submit(st, id)
    case Publish(claim) => PublishStore(st, Live(st.s, claim))
    case Create(_, _) => st.(s := Draft(m, st.s, a))
    case Push(_, _, _, _, _) => st.(s := Draft(m, st.s, a))
    case Merge(_, _) => st.(s := Draft(m, st.s, a))
    case Abandon(_) => st.(s := Draft(m, st.s, a))
  }

  function StoreRun(m: Merger, st: Store, actions: seq<Action>): Store
    decreases |actions|
  {
    if actions == [] then st else StoreRun(m, StoreStep(m, st, actions[0]), actions[1..])
  }

  /** A publish that lands something lands it orderly, and does not overtake. */
  ghost predicate GoodStoreAction(st: Store, a: Action)
  {
    && GoodAction(st.s, a)
    && (a.Publish? && CanLand(st.s.head, Part(st.s.queue, Live(st.s, a.claim), true)) ==>
          NoOvertaking(st, Live(st.s, a.claim)))
  }

  ghost predicate GoodStoreRun(m: Merger, st: Store, actions: seq<Action>)
    decreases |actions|
  {
    actions == [] || (GoodStoreAction(st, actions[0]) && GoodStoreRun(m, StoreStep(m, st, actions[0]), actions[1..]))
  }

  /** A step the table decides is the one the rule decides; it leaves the state safe and
      the table coherent if and only if it is good. */
  lemma {:induction false} StoreStepExact(m: Merger, root: Tree, st: Store, a: Action)
    requires Coherent(st) && Safe(m, root, st.s)
    ensures StoreStep(m, st, a).s == Step(m, st.s, a)
    ensures Coherent(StoreStep(m, st, a)) && Safe(m, root, StoreStep(m, st, a).s) <==> GoodStoreAction(st, a)
  {
    StepSafe(m, root, st.s, a);
    match a {
      case Accept(id) => AdmissionIsExact(m, st, id);
      case Publish(claim0) =>
        var claim := Live(st.s, claim0);
        if CanLand(st.s.head, Part(st.s.queue, claim, true)) && Orderly(st.s, claim) {
          PublishCoherentIff(m, root, st, claim);
        }
      case Create(_, _) =>
      case Push(_, _, _, _, _) =>
      case Merge(_, _) =>
      case Abandon(_) =>
    }
  }

  /** Safe and coherent now, and after every step of the run. */
  ghost predicate ExactThroughout(m: Merger, root: Tree, st: Store, actions: seq<Action>)
    decreases |actions|
  {
    && Coherent(st) && Safe(m, root, st.s)
    && (actions == [] || ExactThroughout(m, root, StoreStep(m, st, actions[0]), actions[1..]))
  }

  /** The table refines the admission rule over every good run, so no such run loses an
      update; and the good runs are exactly those that stay safe and coherent. */
  lemma {:induction false} StoreRunExact(m: Merger, root: Tree, st: Store, actions: seq<Action>)
    requires Coherent(st) && Safe(m, root, st.s)
    ensures ExactThroughout(m, root, st, actions) <==> GoodStoreRun(m, st, actions)
    ensures GoodStoreRun(m, st, actions) ==>
      && StoreRun(m, st, actions).s == Run(m, st.s, actions)
      && Coherent(StoreRun(m, st, actions)) && Safe(m, root, StoreRun(m, st, actions).s)
    decreases |actions|
  {
    if actions != [] {
      StoreStepExact(m, root, st, actions[0]);
      if GoodStoreAction(st, actions[0]) { StoreRunExact(m, root, StoreStep(m, st, actions[0]), actions[1..]); }
    }
  }

  lemma {:induction false} StoreRunConcat(m: Merger, st: Store, x: seq<Action>, y: seq<Action>)
    ensures StoreRun(m, st, x + y) == StoreRun(m, StoreRun(m, st, x), y)
    decreases |x|
  {
    if x == [] {
      assert x + y == y;
    } else {
      assert (x + y)[1..] == x[1..] + y;
      StoreRunConcat(m, StoreStep(m, st, x[0]), x[1..], y);
    }
  }

  // ---------- Runs that lose an update ----------

  function Solo(ps: Patchset): Changeset
  {
    Changeset(Open, None, [ps])
  }

  function Deleting(x: Path, before: File): Patchset
  {
    Patchset(map[x := before], [Delete(x)], map[], [], Authored)
  }

  function Adding(y: Path, f: File): Patchset
  {
    Patchset(map[], [Upsert(y, f)], map[y := f], [], Authored)
  }

  /** Three changesets: `del` deletes the only file, x; `add` puts a file at y on top of
      that, and `other`, also on top of the deletion, puts another there. */
  datatype Race = Race(del: Id, add: Id, other: Id, x: Path, y: Path, before: File, file: File, unseen: File)
  {
    predicate Apart()
    {
      del != add && del != other && add != other
    }

    /** The rows of `del` and `add` in the queue. */
    function Deletion(): Queued
    {
      Queued(del, Deleting(x, before))
    }

    function Addition(): Queued
    {
      Queued(add, Adding(y, file))
    }

    function Other(): Queued
    {
      Queued(other, Adding(y, unseen))
    }

    function Start(): Store
    {
      var changesets := map[del := Solo(Deletion().patchset), add := Solo(Addition().patchset),
                            other := Solo(Other().patchset)];
      Store(State(map[x := before], changesets, [], []), map[])
    }

    function Run(claim: seq<bool>, claim': seq<bool>): seq<Action>
    {
      [Accept(del)] + ([Accept(add)] + ([Publish(claim)] + ([Accept(other)] + ([Publish(claim')] + []))))
    }
  }

  lemma DeletingIs(t: Tree, x: Path, before: File)
    requires t.Keys == {x}
    ensures ApplyEdits(t, Deleting(x, before).edits) == Some(map[]) && ReadSet(Deleting(x, before).edits) == {x}
  {
    var edits, none: Tree := Deleting(x, before).edits, map[];
    assert edits[1..] == [] && ApplyEdit(t, edits[0]).value == none;
    assert ApplyEdits(t, edits) == ApplyEdits(none, []);
    assert ReadSet(edits) == Reads(edits[0]) + ReadSet([]);
  }

  lemma AddingIs(t: Tree, y: Path, f: File)
    requires t.Keys <= {y}
    ensures ApplyEdits(t, Adding(y, f).edits) == Some(map[y := f]) && ReadSet(Adding(y, f).edits) == {y}
  {
    var edits, after: Tree := Adding(y, f).edits, map[y := f];
    assert edits[1..] == [] && ApplyEdit(t, edits[0]).value == after;
    assert ApplyEdits(t, edits) == ApplyEdits(after, []);
    assert ReadSet(edits) == Reads(edits[0]) + ReadSet([]);
  }

  /** The starting state is safe, and its table coherent. */
  lemma {:induction false} StartIsSafe(m: Merger, r: Race)
    ensures Coherent(r.Start()) && Safe(m, map[r.x := r.before], r.Start().s)
  {
    DeletingIs(map[r.x := r.before], r.x, r.before);
    AddingIs(map[], r.y, r.file);
    AddingIs(map[], r.y, r.unseen);
  }

  /** A submit of a patchset that only reads p, where the row, or else the head, holds its
      base, is accepted. */
  lemma {:induction false} AcceptsAs(st: Store, id: Id, p: Path, f: Option<File>)
    requires Acceptable(st.s, id)
    requires var ps := Current(st.s.changesets[id]);
      && ps.edits == [if f.Some? then Upsert(p, f.value) else Delete(p)]
      && (if p in st.rows then st.rows[p] else Get(st.s.head, p)) == Get(ps.base, p)
    ensures Submit(st, id) == Store(Enqueue(st.s, id), st.rows[p := f])
  {
    var ps := Current(st.s.changesets[id]);
    var e := ps.edits[0];
    assert ReadSet(ps.edits) == {p} by {
      assert ps.edits[1..] == [];
      assert ReadSet(ps.edits) == Reads(e) + ReadSet([]);
    }
    var rows := Initialized(st.rows, st.s.head, ps.edits);
    assert rows == st.rows[p := Get(ps.base, p)];
    assert RowEdits(rows, ps.edits) == RowEdit(rows, e) by { assert ps.edits[1..] == []; }
    assert RowEdit(rows, e).value == st.rows[p := f];
  }

  /** Where the run is: the head, the queue, all of it pending, how many have landed, and
      what the row of y says; `other` has not been submitted. */
  ghost predicate At(st: Store, r: Race, head: Tree, queue: seq<Queued>, landed: nat, row: Option<File>)
  {
    && st.s.head == head && st.s.queue == queue && |st.s.log| == landed && AllPending(st.s)
    && RowOf(st.rows, r.y) == Some(row)
    && r.other in st.s.changesets && st.s.changesets[r.other] == Solo(r.Other().patchset)
  }

  ghost predicate AllPending(s: State)
  {
    forall i :: 0 <= i < |s.queue| ==> IsPending(s, s.queue[i].changeset)
  }

  /** `del` and then `add` are accepted. */
  lemma {:induction false} BothAccepted(r: Race)
    requires r.Apart()
    ensures At(Submit(Submit(r.Start(), r.del), r.add), r, map[r.x := r.before], [r.Deletion(), r.Addition()],
               0, Some(r.file))
  {
    var st := r.Start();
    AcceptsAs(st, r.del, r.x, None);
    var st1 := Submit(st, r.del);
    assert st1.s.changesets[r.add] == st.s.changesets[r.add];
    AcceptsAs(st1, r.add, r.y, Some(r.file));
  }

  /** The deletion of x takes the row of y along: it is the same path, or lies in a folder
      of x, which the deletion empties. */
  ghost predicate TakesAlong(x: Path, y: Path)
  {
    x == y || exists a :: a in Folders(x) && Below(a, y)
  }

  /** Two files of one folder. */
  lemma SiblingsAreTaken(d: Path, x: string, y: string)
    requires d != ""
    ensures TakesAlong(d + "/" + x, d + "/" + y)
  {
    var p, q := d + "/" + x, d + "/" + y;
    assert p[..|d|] == d && p[|d|] == '/' && d in Folders(p);
    assert q[..|d|] == d && Below(d, q);
  }

  lemma DeletionTouches(x: Path, y: Path)
    requires TakesAlong(x, y)
    ensures Touches(map[], [Delete(x)], TargetSet([Delete(x)]), y)
  {
    var edits: seq<Edit>, none: Tree := [Delete(x)], map[];
    var targets := TargetSet(edits);
    assert edits[0] == Delete(x) && Targets(edits[0]) <= targets;
    if x != y {
      var a :| a in Folders(x) && Below(a, y);
      assert a in targets && Absent(none, edits, a);
    }
  }

  lemma AdditionDoesNot(y: Path, f: File)
    ensures !Touches(map[y := f], [Upsert(y, f)], TargetSet([Upsert(y, f)]), y)
  {
    var edits: seq<Edit>, t: Tree := [Upsert(y, f)], map[y := f];
    var targets := TargetSet(edits);
    forall a | a in targets ensures a != y && Below(a, y) {
      assert a in Folders(y);
    }
    assert DeepSet(edits) == {};
  }

  /** After the publish of the deletion the row of y is a tombstone. */
  lemma DeletionPublished(rows: Rows, x: Path, y: Path, before: File)
    requires TakesAlong(x, y) && y in rows
    ensures var r := Refresh(rows, map[], Deleting(x, before).edits); y in r && r[y] == None
  {
    DeletionTouches(x, y);
    RefreshAt(rows, map[], Deleting(x, before).edits, y);
  }

  /** Publishing one row. */
  lemma PublishesRow(st: Store, q: Queued, claim: seq<bool>)
    requires Part(st.s.queue, claim, true) == [q] && ApplyEdits(st.s.head, q.patchset.edits).Some?
    ensures var st' := PublishStore(st, claim);
      && st'.s.head == LandOne(st.s.head, q.patchset) && st'.s.queue == Part(st.s.queue, claim, false)
      && st'.s.log == st.s.log + [Landed(q.changeset, q.patchset, st.s.head, st'.s.head)]
      && st'.rows == Refresh(st.rows, st'.s.head, q.patchset.edits)
      && st'.s.changesets == MarkSubmitted(st.s.changesets, [q])
  {
    PublishesOne(st.s, claim, q);
    LandSingle(st.s.head, q);
    assert [q][..0] == [] && PublishRows(st.rows, st.s.head, []) == st.rows;
  }

  /** A claim of just the first row, and of the first two. */
  ghost predicate ClaimsOne(claim: seq<bool>)
  {
    |claim| == 1 && claim[0]
  }

  ghost predicate ClaimsTwo(claim: seq<bool>)
  {
    |claim| == 2 && claim[0] && claim[1]
  }

  lemma PublishesTwo(st: Store, q: Queued, q': Queued, claim: seq<bool>)
    requires ClaimsTwo(claim) && st.s.queue == [q, q'] && ApplyEdits(st.s.head, q.patchset.edits).Some?
    requires ApplyEdits(LandOne(st.s.head, q.patchset), q'.patchset.edits).Some?
    ensures var st', t := PublishStore(st, claim), LandOne(st.s.head, q.patchset);
      && st'.s.head == LandOne(t, q'.patchset) && st'.s.queue == []
      && st'.s.log ==
           st.s.log + [Landed(q.changeset, q.patchset, st.s.head, t), Landed(q'.changeset, q'.patchset, t, st'.s.head)]
      && st'.rows == Refresh(Refresh(st.rows, t, q.patchset.edits), st'.s.head, q'.patchset.edits)
      && st'.s.changesets == MarkSubmitted(st.s.changesets, [q, q'])
  {
    var queue, t := st.s.queue, LandOne(st.s.head, q.patchset);
    BothOfTwo(q, q', claim);
    LandSingle(st.s.head, q);
    LandSingle(t, q');
    assert queue[1..] == [q'] && queue[..1] == [q] && [q][..0] == [];
    assert PublishRows(st.rows, st.s.head, [q]) == Refresh(PublishRows(st.rows, st.s.head, []), t, q.patchset.edits);
    assert Landings(st.s.head, queue) == [Landed(q.changeset, q.patchset, st.s.head, t)] + Landings(t, [q']);
  }

  lemma BothOfTwo(q: Queued, q': Queued, claim: seq<bool>)
    requires ClaimsTwo(claim)
    ensures Part([q, q'], claim, true) == [q, q'] && Part([q, q'], claim, false) == []
  {
    assert [q, q'][1..] == [q'] && Later(claim) == claim[1..];
    JustOne(q', claim[1..]);
    PartNext([q, q'], claim, true);
    PartNext([q, q'], claim, false);
    assert Part([q, q'], claim, true) == [q] + Part([q'], claim[1..], true);
  }

  lemma JustOne(q: Queued, claim: seq<bool>)
    requires ClaimsOne(claim)
    ensures Part([q], claim, true) == [q] && Part([q], claim, false) == []
  {
    assert [q][1..] == [] && Part([], Later(claim), true) == [] && Part([], Later(claim), false) == [];
  }

  lemma {:induction false} EmptyClaim(rest: seq<Queued>)
    ensures Part(rest, [], true) == [] && Part(rest, [], false) == rest
    decreases |rest|
  {
    if rest != [] { EmptyClaim(rest[1..]); }
  }

  lemma FirstOfTwo(q: Queued, q': Queued, claim: seq<bool>)
    requires ClaimsOne(claim)
    ensures Part([q, q'], claim, true) == [q] && Part([q, q'], claim, false) == [q']
  {
    assert [q, q'][1..] == [q'] && Later(claim) == [];
    EmptyClaim([q']);
    PartNext([q, q'], claim, true);
    PartNext([q, q'], claim, false);
  }

  lemma StepPublishes(m: Merger, st: Store, claim: seq<bool>)
    requires |claim| <= |st.s.queue| && AllPending(st.s)
    ensures StoreStep(m, st, Publish(claim)) == PublishStore(st, claim)
  {
    assert Live(st.s, claim) == claim;
  }

  /** Publishing the deletion alone puts a tombstone into the row of y, over `add`. */
  lemma {:induction false} Overtaken(m: Merger, st: Store, r: Race, claim: seq<bool>)
    requires r.Apart() && TakesAlong(r.x, r.y) && ClaimsOne(claim)
    requires At(st, r, map[r.x := r.before], [r.Deletion(), r.Addition()], 0, Some(r.file))
    ensures At(StoreStep(m, st, Publish(claim)), r, map[], [r.Addition()], 1, None)
  {
    StepPublishes(m, st, claim);
    DeletingIs(st.s.head, r.x, r.before);
    FirstOfTwo(r.Deletion(), r.Addition(), claim);
    PublishesRow(st, r.Deletion(), claim);
    DeletionPublished(st.rows, r.x, r.y, r.before);
    assert IsPending(st.s, st.s.queue[1].changeset);
    assert PublishStore(st, claim).s.changesets[r.add] == st.s.changesets[r.add];
  }

  /** So does publishing both, since the publish of `add` does not write that row again. */
  lemma {:induction false} OvertakenTogether(m: Merger, st: Store, r: Race, claim: seq<bool>)
    requires r.Apart() && TakesAlong(r.x, r.y) && ClaimsTwo(claim)
    requires At(st, r, map[r.x := r.before], [r.Deletion(), r.Addition()], 0, Some(r.file))
    ensures At(StoreStep(m, st, Publish(claim)), r, map[r.y := r.file], [], 2, None)
  {
    StepPublishes(m, st, claim);
    DeletingIs(st.s.head, r.x, r.before);
    AddingIs(map[], r.y, r.file);
    PublishesTwo(st, r.Deletion(), r.Addition(), claim);
    DeletionPublished(st.rows, r.x, r.y, r.before);
    AdditionDoesNot(r.y, r.file);
    RefreshAt(Refresh(st.rows, map[], r.Deletion().patchset.edits), map[r.y := r.file], r.Addition().patchset.edits,
              r.y);
  }

  /** From there `other` is accepted. */
  lemma {:induction false} OtherAccepted(st: Store, r: Race, head: Tree, queue: seq<Queued>, landed: nat)
    requires At(st, r, head, queue, landed, None)
    ensures var st' := Submit(st, r.other);
      st'.s.head == head && st'.s.queue == queue + [r.Other()] && |st'.s.log| == landed && AllPending(st'.s)
  {
    AcceptsAs(st, r.other, r.y, Some(r.unseen));
    var st' := Submit(st, r.other);
    forall i | 0 <= i < |st'.s.queue| ensures IsPending(st'.s, st'.s.queue[i].changeset) {
      assert i < |queue| ==> st'.s.queue[i] == queue[i] && IsPending(st.s, queue[i].changeset);
    }
  }

  /** The end: `other` landed over `add`, which its author had not seen. */
  ghost predicate Overwrites(log: seq<Landed>, r: Race)
  {
    && |log| == 3 && log[2] == Landed(r.Other().changeset, r.Other().patchset, map[r.y := r.file], map[r.y := r.unseen])
    && !LostNothing(log[2])
  }

  lemma UnseenIsLost(r: Race)
    ensures !LostNothing(Landed(r.Other().changeset, r.Other().patchset, map[r.y := r.file], map[r.y := r.unseen]))
  {
    AddingIs(map[], r.y, r.unseen);
    assert Get(r.Other().patchset.base, r.y) != Get(map[r.y := r.file], r.y);
  }

  /** `add` and `other` land together. */
  lemma {:induction false} BothLand(m: Merger, st: Store, r: Race, claim: seq<bool>)
    requires ClaimsTwo(claim) && st.s.head == map[] && st.s.queue == [r.Addition()] + [r.Other()]
    requires |st.s.log| == 1 && AllPending(st.s)
    ensures Overwrites(StoreStep(m, st, Publish(claim)).s.log, r)
  {
    StepPublishes(m, st, claim);
    AddingIs(map[], r.y, r.file);
    AddingIs(map[r.y := r.file], r.y, r.unseen);
    PublishesTwo(st, r.Addition(), r.Other(), claim);
    UnseenIsLost(r);
  }

  /** `other` lands on `add`. */
  lemma {:induction false} OtherLands(m: Merger, st: Store, r: Race, claim: seq<bool>)
    requires ClaimsOne(claim) && st.s.head == map[r.y := r.file] && st.s.queue == [] + [r.Other()]
    requires |st.s.log| == 2 && AllPending(st.s)
    ensures Overwrites(StoreStep(m, st, Publish(claim)).s.log, r)
  {
    StepPublishes(m, st, claim);
    JustOne(r.Other(), claim);
    AddingIs(map[r.y := r.file], r.y, r.unseen);
    PublishesRow(st, r.Other(), claim);
    UnseenIsLost(r);
  }

  lemma {:induction false} RunCons(m: Merger, st: Store, a: Action, rest: seq<Action>)
    ensures StoreRun(m, st, [a] + rest) == StoreRun(m, StoreStep(m, st, a), rest)
  {
    assert ([a] + rest)[1..] == rest;
  }

  lemma {:induction false} RunFive(m: Merger, st: Store, r: Race, claim: seq<bool>, claim': seq<bool>)
    ensures StoreRun(m, st, r.Run(claim, claim')) ==
      var st3 := StoreStep(m, Submit(Submit(st, r.del), r.add), Publish(claim));
      StoreStep(m, Submit(st3, r.other), Publish(claim'))
  {
    var st1 := Submit(st, r.del);
    var st2 := Submit(st1, r.add);
    var st3 := StoreStep(m, st2, Publish(claim));
    var st4 := Submit(st3, r.other);
    RunCons(m, st, Accept(r.del),
            [Accept(r.add)] + ([Publish(claim)] + ([Accept(r.other)] + ([Publish(claim')] + []))));
    RunCons(m, st1, Accept(r.add), [Publish(claim)] + ([Accept(r.other)] + ([Publish(claim')] + [])));
    RunCons(m, st2, Publish(claim), [Accept(r.other)] + ([Publish(claim')] + []));
    RunCons(m, st3, Accept(r.other), [Publish(claim')] + []);
    RunCons(m, st4, Publish(claim'), []);
  }

  /** The deletion of x is published alone: its tombstones overtake the accepted `add`, so
      `other` is accepted on a file its author never saw, and overwrites it. */
  lemma {:induction false} OvertakingLosesUpdate(m: Merger, r: Race, one: seq<bool>, two: seq<bool>)
    requires r.Apart() && TakesAlong(r.x, r.y) && ClaimsOne(one) && ClaimsTwo(two)
    ensures Overwrites(StoreRun(m, r.Start(), r.Run(one, two)).s.log, r)
  {
    var st2 := Submit(Submit(r.Start(), r.del), r.add);
    BothAccepted(r);
    Overtaken(m, st2, r, one);
    var st3 := StoreStep(m, st2, Publish(one));
    OtherAccepted(st3, r, map[], [r.Addition()], 1);
    BothLand(m, Submit(st3, r.other), r, two);
    RunFive(m, r.Start(), r, one, two);
  }

  /** The whole queue is published in its own order: the same happens. */
  lemma {:induction false} InOrderLosesUpdate(m: Merger, r: Race, one: seq<bool>, two: seq<bool>)
    requires r.Apart() && TakesAlong(r.x, r.y) && ClaimsOne(one) && ClaimsTwo(two)
    ensures Overwrites(StoreRun(m, r.Start(), r.Run(two, one)).s.log, r)
  {
    var st2 := Submit(Submit(r.Start(), r.del), r.add);
    BothAccepted(r);
    OvertakenTogether(m, st2, r, two);
    var st3 := StoreStep(m, st2, Publish(two));
    OtherAccepted(st3, r, map[r.y := r.file], [], 2);
    OtherLands(m, Submit(st3, r.other), r, one);
    RunFive(m, r.Start(), r, two, one);
  }
}
