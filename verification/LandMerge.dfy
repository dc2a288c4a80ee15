/**
  Merging an agent's changed files onto the head before it lands them
  (agents/src/land.ts).  A content hash names its content, so contents stand for hashes.
 */
module LandMerge {
  import opened Options
  import opened Patchsets
  import GitImport
  import L = Lines
  import M = Merge3

  /** A changed file: what the baseline had, what the agent has (`None`: deleted), its mode. */
  datatype Change = Change(path: Path, base: Option<string>, ours: Option<string>, mode: nat)

  /** The agent's edits, as the loop holds them: None is a missing entry, such as one read
      past the end. */
  type Slots = seq<Option<Edit>>

  datatype Outcome =
    | Merged(edits: Slots, merged: seq<Path>)
    | Clashes(paths: seq<Path>, hunks: seq<(Path, M.Hunk)>)
    | Unrelated

  /** What becomes of one change on a head: nobody else touched the file, the same change is
      there already, the two merge, or they clash. */
  datatype Fate = Kept | Already | Joined(text: string) | Clash(hunks: seq<M.Hunk>)

  function Content(t: Tree, p: Path): Option<string>
  {
    if p in t then Some(t[p].content) else None
  }

  predicate Mergeable(isText: string -> bool, c: Change, theirs: Option<string>)
  {
    c.ours.Some? && theirs.Some? && isText(c.ours.value) && isText(theirs.value)
    && (c.base.Some? ==> isText(c.base.value))
  }

  function TextOf(base: Option<string>): string
  {
    if base.Some? then base.value else ""
  }

  /** The fate of a change, given how the three texts merge. */
  ghost function FateWith(isText: string -> bool, c: Change, theirs: Option<string>, result: M.MergeResult): Fate
  {
    if theirs == c.base then Kept
    else if theirs == c.ours then Already
    else if !Mergeable(isText, c, theirs) then Clash([])
    else match result case Clean(text) => Joined(text) case Conflicted(hunks) => Clash(hunks)
  }

  ghost function MergeOf(c: Change, theirs: Option<string>): M.MergeResult
  {
    if c.ours.None? || theirs.None? then M.Conflicted([])
    else M.ResultOf(M.ChunksOf(TextOf(c.base), c.ours.value, theirs.value))
  }

  ghost function FateOf(isText: string -> bool, c: Change, theirs: Option<string>): Fate
  {
    FateWith(isText, c, theirs, MergeOf(c, theirs))
  }

  // ---------- What is promised of one changed file ----------

  /** The agent's and the head's version of a text file merge line by line to this text. */
  ghost predicate Merges(isText: string -> bool, c: Change, theirs: Option<string>, text: string)
  {
    && c.ours.Some? && theirs.Some? && isText(c.ours.value) && isText(theirs.value)
    && (c.base.Some? ==> isText(c.base.value))
    && M.ResultOf(M.ChunksOf(TextOf(c.base), c.ours.value, theirs.value)) == M.Clean(text)
  }

  /** Both sides changed the file, differently, and it does not merge. */
  ghost predicate Irreconcilable(isText: string -> bool, c: Change, theirs: Option<string>)
  {
    theirs != c.base && theirs != c.ours && forall text :: !Merges(isText, c, theirs, text)
  }

  /** What the file may be once the merge has landed: the agent's where nobody else touched
      it, the head's where that is the agent's too or the two are irreconcilable, and else
      the merge of both. */
  ghost predicate Rightful(isText: string -> bool, head: Tree, c: Change, f: Option<File>)
  {
    var theirs := Content(head, c.path);
    if theirs == c.base then f == if c.ours.Some? then Some(File(c.ours.value, c.mode)) else None
    else if theirs == c.ours || Irreconcilable(isText, c, theirs) then f == Get(head, c.path)
    else f.Some? && f.value.mode == c.mode && Merges(isText, c, theirs, f.value.content)
  }

  /** The fate of a change says which of these it is. */
  lemma FateIs(isText: string -> bool, c: Change, theirs: Option<string>)
    ensures var fate := FateOf(isText, c, theirs);
      && (fate.Kept? <==> theirs == c.base)
      && (fate.Already? <==> theirs != c.base && theirs == c.ours)
      && (fate.Clash? <==> Irreconcilable(isText, c, theirs))
      && (forall text :: fate == Joined(text) <==>
            theirs != c.base && theirs != c.ours && Merges(isText, c, theirs, text))
  {
    var fate := FateOf(isText, c, theirs);
    if fate.Joined? { assert Merges(isText, c, theirs, fate.text); }
  }

  // ---------- The loop ----------

  ghost predicate Distinct(changes: seq<Change>)
  {
    forall i, j :: 0 <= i < j < |changes| ==> changes[i].path != changes[j].path
  }

  /** The edit that brings the agent's own content. */
  function EditOf(c: Change): Edit
  {
    if c.ours.Some? then Upsert(c.path, File(c.ours.value, c.mode)) else Delete(c.path)
  }

  function Slot(edits: Slots, i: nat): Option<Edit>
  {
    if i < |edits| then edits[i] else None
  }

  /** The edits bring the agent's content of the changes, one for one: what the first try
      starts with. */
  ghost predicate Carries(edits: Slots, changes: seq<Change>)
  {
    |edits| == |changes| && forall i :: 0 <= i < |changes| ==> edits[i] == Some(EditOf(changes[i]))
  }

  /** What becomes of each change. */
  ghost function Fates(isText: string -> bool, head: Tree, changes: seq<Change>): (fates: seq<Fate>)
    ensures |fates| == |changes|
    ensures forall i :: 0 <= i < |changes| ==> fates[i] == FateOf(isText, changes[i], Content(head, changes[i].path))
  {
    seq(|changes|, i requires 0 <= i < |changes| => FateOf(isText, changes[i], Content(head, changes[i].path)))
  }

  /** What the turn of a change pushes: the entry at its index, or the merge. */
  function PushOf(f: Fate, c: Change, slot: Option<Edit>): Slots
  {
    match f
    case Kept => [slot]
    case Joined(text) => [Some(Upsert(c.path, File(text, c.mode)))]
    case _ => []
  }

  ghost function Pushes(fates: seq<Fate>, changes: seq<Change>, edits: Slots, i: nat): Slots
    requires |fates| == |changes| && i < |changes|
  {
    PushOf(fates[i], changes[i], Slot(edits, i))
  }

  ghost function Pushed(fates: seq<Fate>, changes: seq<Change>, edits: Slots, n: nat): Slots
    requires |fates| == |changes| && n <= |changes|
  {
    if n == 0 then [] else Pushed(fates, changes, edits, n - 1) + Pushes(fates, changes, edits, n - 1)
  }

  ghost function Clashing(fates: seq<Fate>, changes: seq<Change>, n: nat): seq<Path>
    requires |fates| == |changes| && n <= |changes|
  {
    if n == 0 then []
    else Clashing(fates, changes, n - 1) + if fates[n - 1].Clash? then [changes[n - 1].path] else []
  }

  ghost function Joining(fates: seq<Fate>, changes: seq<Change>, n: nat): seq<Path>
    requires |fates| == |changes| && n <= |changes|
  {
    if n == 0 then []
    else Joining(fates, changes, n - 1) + if fates[n - 1].Joined? then [changes[n - 1].path] else []
  }

  ghost function ClashHunks(fates: seq<Fate>, changes: seq<Change>, n: nat): seq<(Path, M.Hunk)>
    requires |fates| == |changes| && n <= |changes|
  {
    if n == 0 then []
    else ClashHunks(fates, changes, n - 1) +
         if fates[n - 1].Clash? then Labelled(changes[n - 1].path, fates[n - 1].hunks) else []
  }

  function Labelled(p: Path, hunks: seq<M.Hunk>): seq<(Path, M.Hunk)>
  {
    seq(|hunks|, k requires 0 <= k < |hunks| => (p, hunks[k]))
  }

  /** One turn of the loop, lines 233 to 256, up to what it pushes. */
  method Judge(isText: string -> bool, c: Change, theirs: Option<string>) returns (fate: Fate)
    ensures fate == FateOf(isText, c, theirs)
    ensures fate.Kept? <==> theirs == c.base
    ensures fate.Already? <==> theirs != c.base && theirs == c.ours
    ensures fate.Clash? <==> Irreconcilable(isText, c, theirs)
    ensures fate.Joined? ==> Merges(isText, c, theirs, fate.text)
    ensures forall h :: fate.Clash? && h in fate.hunks <==> HunkOf(isText, c, theirs, h)
  {
    FateIs(isText, c, theirs);
    forall h ensures var f := FateOf(isText, c, theirs); f.Clash? && h in f.hunks <==> HunkOf(isText, c, theirs, h) {
      FateHunks(isText, c, theirs, h);
    }
    if theirs == c.base {
      return Kept;
    }
    if theirs == c.ours {
      return Already;
    }
    if c.ours.None? || theirs.None? || !isText(c.ours.value) || !isText(theirs.value)
       || (c.base.Some? && !isText(c.base.value)) {
      return Clash([]);
    }
    var result := M.Merge3(TextOf(c.base), c.ours.value, theirs.value);
    fate := match result case Clean(text) => Joined(text) case Conflicted(hunks) => Clash(hunks);
  }

  ghost function OutcomeOf(isText: string -> bool, head: Tree, changes: seq<Change>, edits: Slots): Outcome
  {
    OutcomeWith(Fates(isText, head, changes), changes, edits)
  }

  ghost function OutcomeWith(fates: seq<Fate>, changes: seq<Change>, edits: Slots): Outcome
    requires |fates| == |changes|
  {
    var n := |changes|;
    var clashing, joining, pushed := Clashing(fates, changes, n), Joining(fates, changes, n),
        Pushed(fates, changes, edits, n);
    if clashing != [] then Clashes(clashing, ClashHunks(fates, changes, n))
    else if joining == [] && |pushed| == |edits| then Unrelated
    else Merged(pushed, joining)
  }

  /** What the loop has gathered from the first n changes. */
  ghost predicate Gathered(fates: seq<Fate>, changes: seq<Change>, edits: Slots, n: nat,
                           out: Slots, merged: seq<Path>, conflicts: seq<Path>, hunks: seq<(Path, M.Hunk)>)
    requires |fates| == |changes| && n <= |changes|
  {
    && out == Pushed(fates, changes, edits, n) && merged == Joining(fates, changes, n)
    && conflicts == Clashing(fates, changes, n) && hunks == ClashHunks(fates, changes, n)
  }

  lemma GatheredNext(fates: seq<Fate>, changes: seq<Change>, edits: Slots, n: nat,
                     out: Slots, merged: seq<Path>, conflicts: seq<Path>, hunks: seq<(Path, M.Hunk)>)
    requires |fates| == |changes| && n < |changes| && Gathered(fates, changes, edits, n, out, merged, conflicts, hunks)
    ensures var c := changes[n];
      match fates[n]
      case Kept => Gathered(fates, changes, edits, n + 1, out + [Slot(edits, n)], merged, conflicts, hunks)
      case Already => Gathered(fates, changes, edits, n + 1, out, merged, conflicts, hunks)
      case Clash(hs) =>
        Gathered(fates, changes, edits, n + 1, out, merged, conflicts + [c.path], hunks + Labelled(c.path, hs))
      case Joined(text) =>
        var edit := Some(Upsert(c.path, File(text, c.mode)));
        Gathered(fates, changes, edits, n + 1, out + [edit], merged + [c.path], conflicts, hunks)
  {
    assert out + [] == out && merged + [] == merged && conflicts + [] == conflicts && hunks + [] == hunks;
  }

  /** Lines 232 to 257. */
  method MergeEach(isText: string -> bool, head: Tree, changes: seq<Change>, edits: Slots)
    returns (out: Slots, merged: seq<Path>, conflicts: seq<Path>, hunks: seq<(Path, M.Hunk)>)
    ensures Gathered(Fates(isText, head, changes), changes, edits, |changes|, out, merged, conflicts, hunks)
  {
    ghost var fates := Fates(isText, head, changes);
    out, merged, conflicts, hunks := [], [], [], [];
    for i := 0 to |changes|
      invariant Gathered(fates, changes, edits, i, out, merged, conflicts, hunks)
    {
      var c := changes[i];
      var fate := Judge(isText, c, Content(head, c.path));
      GatheredNext(fates, changes, edits, i, out, merged, conflicts, hunks);
      match fate
      case Kept => out := out + [Slot(edits, i)];
      case Already =>
      case Clash(hs) =>
        conflicts := conflicts + [c.path];
        hunks := hunks + Labelled(c.path, hs);
      case Joined(text) =>
        out := out + [Some(Upsert(c.path, File(text, c.mode)))];
        merged := merged + [c.path];
    }
  }

  // ---------- What should land ----------

  /** The edit a change should land as, if any. */
  ghost function LandsAs(fates: seq<Fate>, changes: seq<Change>, i: nat): seq<Edit>
    requires |fates| == |changes| && i < |changes|
  {
    match fates[i]
    case Kept => [EditOf(changes[i])]
    case Joined(text) => [Upsert(changes[i].path, File(text, changes[i].mode))]
    case _ => []
  }

  ghost function Landing(fates: seq<Fate>, changes: seq<Change>, n: nat): seq<Edit>
    requires |fates| == |changes| && n <= |changes|
  {
    if n == 0 then [] else Landing(fates, changes, n - 1) + LandsAs(fates, changes, n - 1)
  }

  function Present(edits: seq<Edit>): Slots
  {
    seq(|edits|, i requires 0 <= i < |edits| => Some(edits[i]))
  }

  /** A kept change finds its own edit at its index. */
  ghost predicate FindsOwn(fates: seq<Fate>, changes: seq<Change>, edits: Slots, n: nat)
    requires |fates| == |changes| && n <= |changes|
  {
    forall i :: 0 <= i < n && fates[i].Kept? ==> Slot(edits, i) == Some(EditOf(changes[i]))
  }

  lemma {:induction false} PushedLength(fates: seq<Fate>, changes: seq<Change>, edits: Slots, n: nat)
    requires |fates| == |changes| && n <= |changes|
    ensures |Pushed(fates, changes, edits, n)| == |Landing(fates, changes, n)|
  {
    if n > 0 { PushedLength(fates, changes, edits, n - 1); }
  }

  lemma LastRightIff(fates: seq<Fate>, changes: seq<Change>, edits: Slots, i: nat)
    requires |fates| == |changes| && i < |changes|
    ensures Pushes(fates, changes, edits, i) == Present(LandsAs(fates, changes, i)) <==>
      (fates[i].Kept? ==> Slot(edits, i) == Some(EditOf(changes[i])))
  {
    if fates[i].Kept? {
      assert Pushes(fates, changes, edits, i)[0] == Slot(edits, i);
      assert Present([EditOf(changes[i])])[0] == Some(EditOf(changes[i]));
    }
  }

  lemma PresentConcat(x: seq<Edit>, y: seq<Edit>)
    ensures Present(x + y) == Present(x) + Present(y)
  {
  }

  lemma SplitEqual<T>(x: seq<T>, y: seq<T>, x': seq<T>, y': seq<T>)
    requires |x| == |x'|
    ensures x + y == x' + y' <==> x == x' && y == y'
  {
    assert x == (x + y)[..|x|] && x' == (x' + y')[..|x'|];
    assert y == (x + y)[|x|..] && y' == (x' + y')[|x'|..];
  }

  lemma FindsOwnNext(fates: seq<Fate>, changes: seq<Change>, edits: Slots, n: nat)
    requires |fates| == |changes| && n < |changes|
    ensures FindsOwn(fates, changes, edits, n + 1) <==>
      FindsOwn(fates, changes, edits, n) && (fates[n].Kept? ==> Slot(edits, n) == Some(EditOf(changes[n])))
  {
  }

  lemma RightNext(fates: seq<Fate>, changes: seq<Change>, edits: Slots, n: nat)
    requires |fates| == |changes| && n < |changes|
    ensures Pushed(fates, changes, edits, n + 1) == Present(Landing(fates, changes, n + 1)) <==>
      && Pushed(fates, changes, edits, n) == Present(Landing(fates, changes, n))
      && (fates[n].Kept? ==> Slot(edits, n) == Some(EditOf(changes[n])))
  {
    PushedLength(fates, changes, edits, n);
    LastRightIff(fates, changes, edits, n);
    var landing, own := Landing(fates, changes, n), LandsAs(fates, changes, n);
    PresentConcat(landing, own);
    SplitEqual(Pushed(fates, changes, edits, n), Pushes(fates, changes, edits, n), Present(landing), Present(own));
  }

  /** The loop pushes what should land if and only if every kept change finds its own edit
      at its index. */
  lemma {:induction false} PushesRightIff(fates: seq<Fate>, changes: seq<Change>, edits: Slots, n: nat)
    requires |fates| == |changes| && n <= |changes|
    ensures Pushed(fates, changes, edits, n) == Present(Landing(fates, changes, n)) <==>
      FindsOwn(fates, changes, edits, n)
  {
    if n == 0 {
      assert Pushed(fates, changes, edits, 0) == [] && Present(Landing(fates, changes, 0)) == [];
    } else {
      var k := n - 1;
      PushesRightIff(fates, changes, edits, k);
      RightNext(fates, changes, edits, k);
      FindsOwnNext(fates, changes, edits, k);
    }
  }

  /** Every edit that lands is that of one change. */
  lemma {:induction false} LandingIsOfChange(fates: seq<Fate>, changes: seq<Change>, n: nat, k: nat) returns (i: nat)
    requires |fates| == |changes| && n <= |changes| && k < |Landing(fates, changes, n)|
    ensures i < n && LandsAs(fates, changes, i) == [Landing(fates, changes, n)[k]]
  {
    var before := Landing(fates, changes, n - 1);
    if k < |before| {
      i := LandingIsOfChange(fates, changes, n - 1, k);
    } else {
      i := n - 1;
    }
  }

  lemma {:induction false} LandingHas(fates: seq<Fate>, changes: seq<Change>, n: nat, i: nat)
    requires |fates| == |changes| && i < n <= |changes| && LandsAs(fates, changes, i) != []
    ensures GitImport.Mentions(Landing(fates, changes, n), changes[i].path)
  {
    var before, now := Landing(fates, changes, n - 1), Landing(fates, changes, n);
    if i < n - 1 {
      LandingHas(fates, changes, n - 1, i);
      var k :| 0 <= k < |before| && before[k].path == changes[i].path;
      assert now[k].path == changes[i].path;
    } else {
      assert now[|before|].path == changes[i].path;
    }
  }

  lemma {:induction false} LandingNamedOnce(fates: seq<Fate>, changes: seq<Change>, n: nat)
    requires |fates| == |changes| && Distinct(changes) && n <= |changes|
    ensures GitImport.NamedOnce(Landing(fates, changes, n))
  {
    if n > 0 {
      var before := Landing(fates, changes, n - 1);
      LandingNamedOnce(fates, changes, n - 1);
      forall k | 0 <= k < |before|
        ensures before[k].path != changes[n - 1].path
      {
        var i := LandingIsOfChange(fates, changes, n - 1, k);
      }
    }
  }

  lemma {:induction false} NoneClashes(fates: seq<Fate>, changes: seq<Change>, n: nat)
    requires |fates| == |changes| && n <= |changes|
    ensures Clashing(fates, changes, n) == [] <==> forall i :: 0 <= i < n ==> !fates[i].Clash?
  {
    if n > 0 {
      NoneClashes(fates, changes, n - 1);
    }
  }

  lemma {:induction false} NoneJoins(fates: seq<Fate>, changes: seq<Change>, n: nat)
    requires |fates| == |changes| && n <= |changes|
    ensures Joining(fates, changes, n) == [] <==> forall i :: 0 <= i < n ==> !fates[i].Joined?
  {
    if n > 0 {
      NoneJoins(fates, changes, n - 1);
    }
  }

  /** What a change's file is once the merge has landed. */
  ghost function Expected(fates: seq<Fate>, head: Tree, changes: seq<Change>, i: nat): Option<File>
    requires |fates| == |changes| && i < |changes|
  {
    match fates[i]
    case Kept => if changes[i].ours.Some? then Some(File(changes[i].ours.value, changes[i].mode)) else None
    case Joined(text) => Some(File(text, changes[i].mode))
    case _ => Get(head, changes[i].path)
  }

  lemma ExpectedIsRightful(isText: string -> bool, head: Tree, changes: seq<Change>, i: nat)
    requires i < |changes|
    ensures Rightful(isText, head, changes[i], Expected(Fates(isText, head, changes), head, changes, i))
  {
    FateIs(isText, changes[i], Content(head, changes[i].path));
  }

  /** The edits, on the head, leave every changed file rightful and every other as it was. */
  ghost predicate LandsRight(isText: string -> bool, head: Tree, changes: seq<Change>, edits: seq<Edit>)
  {
    var landed := ApplyEdits(head, edits);
    && landed.Some?
    && (forall i :: 0 <= i < |changes| ==> Rightful(isText, head, changes[i], Get(landed.value, changes[i].path)))
    && (forall p :: (forall i :: 0 <= i < |changes| ==> changes[i].path != p) ==> Get(landed.value, p) == Get(head, p))
  }

  /** What should land overwrites nothing: on the head, each changed file is the agent's where
      nobody else touched it, what both agree on, or the clean merge of the two; every other
      file stays.  The loop pushes it exactly when the kept changes find their own edits, as
      on the first try. */
  lemma MergeOverwritesNothing(isText: string -> bool, head: Tree, changes: seq<Change>, edits: Slots)
    requires Distinct(changes)
    ensures var fates, n := Fates(isText, head, changes), |changes|;
      && LandsRight(isText, head, changes, Landing(fates, changes, n))
      && (Pushed(fates, changes, edits, n) == Present(Landing(fates, changes, n)) <==>
            FindsOwn(fates, changes, edits, n))
      && (Carries(edits, changes) ==> FindsOwn(fates, changes, edits, n))
  {
    var fates, n := Fates(isText, head, changes), |changes|;
    PushesRightIff(fates, changes, edits, n);
    LandedElsewhere(fates, head, changes, "");
    forall i | 0 <= i < n
      ensures var landed := ApplyEdits(head, Landing(fates, changes, n)).value;
        Rightful(isText, head, changes[i], Get(landed, changes[i].path))
    {
      LandedAt(fates, head, changes, i);
      ExpectedIsRightful(isText, head, changes, i);
    }
    forall p | forall i :: 0 <= i < n ==> changes[i].path != p
      ensures Get(ApplyEdits(head, Landing(fates, changes, n)).value, p) == Get(head, p)
    {
      LandedElsewhere(fates, head, changes, p);
    }
  }

  lemma LandedElsewhere(fates: seq<Fate>, head: Tree, changes: seq<Change>, p: Path)
    requires |fates| == |changes| && Distinct(changes)
    ensures var landed := ApplyEdits(head, Landing(fates, changes, |changes|));
      landed.Some? && ((forall i :: 0 <= i < |changes| ==> changes[i].path != p) ==>
        Get(landed.value, p) == Get(head, p))
  {
    LandingNamedOnce(fates, changes, |changes|);
    GitImport.ApplyOnce(head, Landing(fates, changes, |changes|), p);
    if forall i :: 0 <= i < |changes| ==> changes[i].path != p { NotMentioned(fates, changes, |changes|, p); }
  }

  lemma {:induction false} NotMentioned(fates: seq<Fate>, changes: seq<Change>, n: nat, p: Path)
    requires |fates| == |changes| && n <= |changes| && forall i :: 0 <= i < |changes| ==> changes[i].path != p
    ensures !GitImport.Mentions(Landing(fates, changes, n), p)
  {
    if n > 0 { NotMentioned(fates, changes, n - 1, p); }
  }

  lemma LandedAt(fates: seq<Fate>, head: Tree, changes: seq<Change>, i: nat)
    requires |fates| == |changes| && Distinct(changes) && i < |changes|
    ensures var landed := ApplyEdits(head, Landing(fates, changes, |changes|));
      landed.Some? && Get(landed.value, changes[i].path) == Expected(fates, head, changes, i)
  {
    var landing, p := Landing(fates, changes, |changes|), changes[i].path;
    LandingNamedOnce(fates, changes, |changes|);
    GitImport.ApplyOnce(head, landing, p);
    var k := PlaceOf(fates, changes, i);
    if k.Some? { assert landing[k.value].path == p; }
  }

  /** Where the edit of a change is among those that land, if it has one. */
  lemma PlaceOf(fates: seq<Fate>, changes: seq<Change>, i: nat) returns (k: Option<nat>)
    requires |fates| == |changes| && Distinct(changes) && i < |changes|
    ensures var landing := Landing(fates, changes, |changes|);
      if k.None? then LandsAs(fates, changes, i) == [] && !GitImport.Mentions(landing, changes[i].path)
      else k.value < |landing| && LandsAs(fates, changes, i) == [landing[k.value]]
  {
    var n, p := |changes|, changes[i].path;
    var landing := Landing(fates, changes, n);
    if LandsAs(fates, changes, i) != [] { LandingHas(fates, changes, n, i); }
    if GitImport.Mentions(landing, p) {
      var place :| 0 <= place < |landing| && landing[place].path == p;
      var j := LandingIsOfChange(fates, changes, n, place);
      assert j == i;
      k := Some(place);
    } else {
      k := None;
    }
  }

  // ---------- Trying again ----------

  lemma {:induction false} LandingLength(fates: seq<Fate>, changes: seq<Change>, n: nat)
    requires |fates| == |changes| && n <= |changes|
    ensures |Landing(fates, changes, n)| <= n
    ensures |Landing(fates, changes, n)| == n <==> forall i :: 0 <= i < n ==> LandsAs(fates, changes, i) != []
    ensures |Landing(fates, changes, n)| == n ==>
      forall i :: 0 <= i < n ==> [Landing(fates, changes, n)[i]] == LandsAs(fates, changes, i)
  {
    if n > 0 {
      LandingLength(fates, changes, n - 1);
    }
  }

  /** The change was kept, or merged to nothing but the agent's own content. */
  predicate StaysOwn(fate: Fate, c: Change)
  {
    fate.Kept? || (fate.Joined? && Some(fate.text) == c.ours)
  }

  lemma StaysOwnIff(fates: seq<Fate>, changes: seq<Change>, i: nat)
    requires |fates| == |changes| && i < |changes|
    ensures LandsAs(fates, changes, i) == [EditOf(changes[i])] <==> StaysOwn(fates[i], changes[i])
    ensures forall e :: LandsAs(fates, changes, i) == [e] ==>
      (e == EditOf(changes[i]) <==> StaysOwn(fates[i], changes[i]))
  {
    if fates[i].Joined? {
      assert Upsert(changes[i].path, File(fates[i].text, changes[i].mode)) == EditOf(changes[i]) <==>
        Some(fates[i].text) == changes[i].ours;
    }
  }

  /** The next try starts from what this one pushed.  After a try without clashes that
      still is the agent's content, one for one, exactly when every change was kept or
      merged to the agent's own content. */
  lemma RetryCarriesIff(fates: seq<Fate>, changes: seq<Change>, edits: Slots)
    requires |fates| == |changes| && Carries(edits, changes) && Clashing(fates, changes, |changes|) == []
    ensures Carries(Pushed(fates, changes, edits, |changes|), changes) <==>
      forall i :: 0 <= i < |changes| ==> StaysOwn(fates[i], changes[i])
  {
    var n := |changes|;
    var landing, pushed := Landing(fates, changes, n), Pushed(fates, changes, edits, n);
    NoneClashes(fates, changes, n);
    LandingLength(fates, changes, n);
    PushesRightIff(fates, changes, edits, n);
    if |pushed| == n {
      forall i | 0 <= i < n ensures pushed[i] == Some(EditOf(changes[i])) <==> StaysOwn(fates[i], changes[i]) {
        StaysOwnIff(fates, changes, i);
        assert pushed[i] == Some(landing[i]) && [landing[i]] == LandsAs(fates, changes, i);
      }
    } else {
      var i :| 0 <= i < n && LandsAs(fates, changes, i) == [];
      StaysOwnIff(fates, changes, i);
    }
  }

  /** The tries of one landing, on the heads they find, until one clashes: each starts from
      the edits the one before pushed. */
  ghost function After(isText: string -> bool, heads: seq<Tree>, changes: seq<Change>, edits: Slots): Slots
    decreases |heads|
  {
    if heads == [] then edits
    else match OutcomeOf(isText, heads[0], changes, edits)
      case Merged(next, _) => After(isText, heads[1..], changes, next)
      case Unrelated => After(isText, heads[1..], changes, edits)
      case Clashes(_, _) => edits
  }

  /** On this head no change is merged to other than the agent's own content, or found there
      already. */
  ghost predicate KeepsOwn(isText: string -> bool, head: Tree, changes: seq<Change>)
  {
    forall i :: 0 <= i < |changes| ==>
      var fate := FateOf(isText, changes[i], Content(head, changes[i].path));
      fate.Clash? || StaysOwn(fate, changes[i])
  }

  lemma TryCarries(isText: string -> bool, head: Tree, changes: seq<Change>, edits: Slots)
    requires Carries(edits, changes) && KeepsOwn(isText, head, changes)
    ensures var r := OutcomeOf(isText, head, changes, edits); r.Merged? ==> Carries(r.edits, changes)
  {
    var fates, n := Fates(isText, head, changes), |changes|;
    if Clashing(fates, changes, n) == [] {
      NoneClashes(fates, changes, n);
      RetryCarriesIff(fates, changes, edits);
    }
  }

  /** Over any tries, on any heads: if none does, the last one still has the agent's content. */
  lemma {:induction false} TriesCarry(isText: string -> bool, heads: seq<Tree>, changes: seq<Change>, edits: Slots)
    requires Carries(edits, changes)
    requires forall k :: 0 <= k < |heads| ==> KeepsOwn(isText, heads[k], changes)
    ensures Carries(After(isText, heads, changes, edits), changes)
    decreases |heads|
  {
    if heads != [] {
      TryCarries(isText, heads[0], changes, edits);
      match OutcomeOf(isText, heads[0], changes, edits) {
        case Merged(next, _) => TriesCarry(isText, heads[1..], changes, next);
        case Unrelated => TriesCarry(isText, heads[1..], changes, edits);
        case Clashes(_, _) =>
      }
    }
  }

  /** "Unrelated" is said exactly when no file clashes or merges and as many are kept as
      there are edits. */
  lemma UnrelatedIff(isText: string -> bool, head: Tree, changes: seq<Change>, edits: Slots)
    ensures OutcomeOf(isText, head, changes, edits).Unrelated? <==>
      var fates := Fates(isText, head, changes);
      && (forall i :: 0 <= i < |changes| ==> fates[i].Kept? || fates[i].Already?)
      && |Landing(fates, changes, |changes|)| == |edits|
  {
    var fates, n := Fates(isText, head, changes), |changes|;
    NoneClashes(fates, changes, n);
    NoneJoins(fates, changes, n);
    PushedLength(fates, changes, edits, n);
  }

  /** With one edit for each change, exactly when nobody else touched any of the files. */
  lemma UnrelatedIsUntouched(isText: string -> bool, head: Tree, changes: seq<Change>, edits: Slots)
    requires |edits| == |changes|
    ensures OutcomeOf(isText, head, changes, edits).Unrelated? <==>
      forall i :: 0 <= i < |changes| ==> Content(head, changes[i].path) == changes[i].base
  {
    var fates := Fates(isText, head, changes);
    UnrelatedIff(isText, head, changes, edits);
    KeepsAllIff(fates, changes);
    forall i | 0 <= i < |changes| ensures fates[i].Kept? <==> Content(head, changes[i].path) == changes[i].base {
      KeptIff(isText, changes[i], Content(head, changes[i].path));
    }
  }

  lemma KeptIff(isText: string -> bool, c: Change, theirs: Option<string>)
    ensures FateOf(isText, c, theirs).Kept? <==> theirs == c.base
  {
  }

  lemma KeepsAllIff(fates: seq<Fate>, changes: seq<Change>)
    requires |fates| == |changes|
    ensures (forall i :: 0 <= i < |changes| ==> fates[i].Kept?) <==>
      && (forall i :: 0 <= i < |changes| ==> fates[i].Kept? || fates[i].Already?)
      && |Landing(fates, changes, |changes|)| == |changes|
  {
    LandingLength(fates, changes, |changes|);
    if forall i :: 0 <= i < |changes| ==> fates[i].Kept? {
      forall i | 0 <= i < |changes| ensures LandsAs(fates, changes, i) != [] {
        assert fates[i].Kept?;
      }
    } else if i :| 0 <= i < |changes| && fates[i].Already? {
      assert LandsAs(fates, changes, i) == [];
    }
  }

  // ---------- What the call answers ----------

  /** A change whose file is irreconcilable, at this path. */
  ghost predicate ClashesAt(isText: string -> bool, head: Tree, changes: seq<Change>, p: Path)
  {
    exists i :: 0 <= i < |changes| && changes[i].path == p && Irreconcilable(isText, changes[i], Content(head, p))
  }

  /** A change whose file is merged, at this path. */
  ghost predicate MergesAt(isText: string -> bool, head: Tree, changes: seq<Change>, p: Path)
  {
    exists i, text :: 0 <= i < |changes| && changes[i].path == p && MergesTo(isText, changes[i], Content(head, p), text)
  }

  /** Both sides changed the file, differently, and it merges. */
  ghost predicate MergesTo(isText: string -> bool, c: Change, theirs: Option<string>, text: string)
  {
    theirs != c.base && theirs != c.ours && Merges(isText, c, theirs, text)
  }

  /** A conflict of the line merge of an irreconcilable text file, at this path. */
  ghost predicate HunkAt(isText: string -> bool, head: Tree, changes: seq<Change>, p: Path, h: M.Hunk)
  {
    exists i :: 0 <= i < |changes| && changes[i].path == p && HunkOf(isText, changes[i], Content(head, p), h)
  }

  ghost predicate HunkOf(isText: string -> bool, c: Change, theirs: Option<string>, h: M.Hunk)
  {
    && Irreconcilable(isText, c, theirs) && c.ours.Some? && theirs.Some? && isText(c.ours.value)
    && isText(theirs.value) && (c.base.Some? ==> isText(c.base.value))
    && var result := M.ResultOf(M.ChunksOf(TextOf(c.base), c.ours.value, theirs.value));
    && result.Conflicted? && h in result.conflicts
  }

  lemma FateHunks(isText: string -> bool, c: Change, theirs: Option<string>, h: M.Hunk)
    ensures var fate := FateOf(isText, c, theirs); fate.Clash? && h in fate.hunks <==> HunkOf(isText, c, theirs, h)
  {
    FateIs(isText, c, theirs);
  }

  lemma {:induction false} ClashHunksIff(fates: seq<Fate>, changes: seq<Change>, n: nat, p: Path, h: M.Hunk)
    requires |fates| == |changes| && n <= |changes|
    ensures (p, h) in ClashHunks(fates, changes, n) <==>
      exists i :: 0 <= i < n && changes[i].path == p && fates[i].Clash? && h in fates[i].hunks
  {
    if n > 0 {
      ClashHunksIff(fates, changes, n - 1, p, h);
      if fates[n - 1].Clash? { LabelledIff(changes[n - 1].path, fates[n - 1].hunks, p, h); }
    }
  }

  lemma LabelledIff(q: Path, hunks: seq<M.Hunk>, p: Path, h: M.Hunk)
    ensures (p, h) in Labelled(q, hunks) <==> p == q && h in hunks
  {
    if h in hunks {
      var k :| 0 <= k < |hunks| && hunks[k] == h;
      assert Labelled(q, hunks)[k] == (q, h);
    }
  }

  lemma HunkAtIff(isText: string -> bool, head: Tree, changes: seq<Change>, p: Path, h: M.Hunk)
    ensures (p, h) in ClashHunks(Fates(isText, head, changes), changes, |changes|) <==>
      HunkAt(isText, head, changes, p, h)
  {
    var fates := Fates(isText, head, changes);
    ClashHunksIff(fates, changes, |changes|, p, h);
    forall i | 0 <= i < |changes| && changes[i].path == p
      ensures fates[i].Clash? && h in fates[i].hunks <==> HunkOf(isText, changes[i], Content(head, p), h)
    {
      FateHunks(isText, changes[i], Content(head, p), h);
    }
  }

  lemma {:induction false} ClashingIff(fates: seq<Fate>, changes: seq<Change>, n: nat, p: Path)
    requires |fates| == |changes| && n <= |changes|
    ensures p in Clashing(fates, changes, n) <==> exists i :: 0 <= i < n && changes[i].path == p && fates[i].Clash?
  {
    if n > 0 { ClashingIff(fates, changes, n - 1, p); }
  }

  lemma {:induction false} JoiningIff(fates: seq<Fate>, changes: seq<Change>, n: nat, p: Path)
    requires |fates| == |changes| && n <= |changes|
    ensures p in Joining(fates, changes, n) <==> exists i :: 0 <= i < n && changes[i].path == p && fates[i].Joined?
  {
    if n > 0 { JoiningIff(fates, changes, n - 1, p); }
  }

  lemma ClashesAtIff(isText: string -> bool, head: Tree, changes: seq<Change>, p: Path)
    ensures p in Clashing(Fates(isText, head, changes), changes, |changes|) <==> ClashesAt(isText, head, changes, p)
  {
    var fates := Fates(isText, head, changes);
    ClashingIff(fates, changes, |changes|, p);
    forall i | 0 <= i < |changes| && changes[i].path == p
      ensures fates[i].Clash? <==> Irreconcilable(isText, changes[i], Content(head, p))
    {
      FateIs(isText, changes[i], Content(head, p));
    }
  }

  lemma MergesAtIff(isText: string -> bool, head: Tree, changes: seq<Change>, p: Path)
    ensures p in Joining(Fates(isText, head, changes), changes, |changes|) <==> MergesAt(isText, head, changes, p)
  {
    var fates := Fates(isText, head, changes);
    JoiningIff(fates, changes, |changes|, p);
    if i :| 0 <= i < |changes| && changes[i].path == p && fates[i].Joined? {
      FateIs(isText, changes[i], Content(head, p));
      assert MergesTo(isText, changes[i], Content(head, p), fates[i].text);
    }
    if i, text :| 0 <= i < |changes| && changes[i].path == p && MergesTo(isText, changes[i], Content(head, p), text) {
      FateIs(isText, changes[i], Content(head, p));
      assert fates[i] == Joined(text);
    }
  }

  /** What the caller submits next: the edits of the answer, or the ones it had. */
  function Submitted(r: Outcome, edits: Slots): Slots
    requires !r.Clashes?
  {
    if r.Merged? then r.edits else edits
  }

  /** From the agent's own edits, without a conflict: what is submitted lands right. */
  lemma AnswerLandsRight(isText: string -> bool, head: Tree, changes: seq<Change>, edits: Slots)
    requires Distinct(changes) && Carries(edits, changes) && !OutcomeOf(isText, head, changes, edits).Clashes?
    ensures exists landing ::
      LandsRight(isText, head, changes, landing) &&
      Submitted(OutcomeOf(isText, head, changes, edits), edits) == Present(landing)
  {
    var fates, n := Fates(isText, head, changes), |changes|;
    MergeOverwritesNothing(isText, head, changes, edits);
    var landing := Landing(fates, changes, n);
    assert Pushed(fates, changes, edits, n) == Present(landing);
    if OutcomeOf(isText, head, changes, edits).Unrelated? {
      UnrelatedIsUntouched(isText, head, changes, edits);
      AllKept(isText, head, changes, edits);
    }
    assert Submitted(OutcomeOf(isText, head, changes, edits), edits) == Present(landing);
  }

  lemma AllKept(isText: string -> bool, head: Tree, changes: seq<Change>, edits: Slots)
    requires Carries(edits, changes)
    requires forall i :: 0 <= i < |changes| ==> Content(head, changes[i].path) == changes[i].base
    ensures edits == Present(Landing(Fates(isText, head, changes), changes, |changes|))
  {
    var fates, n := Fates(isText, head, changes), |changes|;
    LandingLength(fates, changes, n);
    forall i | 0 <= i < n ensures LandsAs(fates, changes, i) == [EditOf(changes[i])] {
      FateIs(isText, changes[i], Content(head, changes[i].path));
    }
  }

  /** `mergeOntoHead`, with whatever edits an earlier try left.  It conflicts exactly when some
      file is irreconcilable, and names exactly those; else it names exactly the files that
      merge, and from the agent's own edits what is submitted next lands right. */
  method MergeOntoHead(isText: string -> bool, head: Tree, changes: seq<Change>, edits: Slots) returns (r: Outcome)
    ensures r == OutcomeOf(isText, head, changes, edits)
    ensures r.Clashes? <==> exists p :: ClashesAt(isText, head, changes, p)
    ensures r.Clashes? ==> forall p :: p in r.paths <==> ClashesAt(isText, head, changes, p)
    ensures r.Clashes? ==> forall p, h :: (p, h) in r.hunks <==> HunkAt(isText, head, changes, p, h)
    ensures r.Merged? ==> forall p :: p in r.merged <==> MergesAt(isText, head, changes, p)
    ensures r.Unrelated? ==> forall p :: !MergesAt(isText, head, changes, p)
    ensures Distinct(changes) && Carries(edits, changes) && !r.Clashes? ==>
      exists landing :: Submitted(r, edits) == Present(landing) && LandsRight(isText, head, changes, landing)
  {
    var out, merged, conflicts, hunks := MergeEach(isText, head, changes, edits);
    forall p ensures p in conflicts <==> ClashesAt(isText, head, changes, p) {
      ClashesAtIff(isText, head, changes, p);
    }
    forall p ensures p in merged <==> MergesAt(isText, head, changes, p) {
      MergesAtIff(isText, head, changes, p);
    }
    if |conflicts| > 0 {
      assert conflicts[0] in conflicts;
      forall p, h ensures (p, h) in hunks <==> HunkAt(isText, head, changes, p, h) {
        HunkAtIff(isText, head, changes, p, h);
      }
      return Clashes(conflicts, hunks);
    }
    if Distinct(changes) && Carries(edits, changes) { AnswerLandsRight(isText, head, changes, edits); }
    if |merged| == 0 && |out| == |edits| {
      return Unrelated;
    }
    r := Merged(out, merged);
  }

  // ---------- Tries that push the wrong content ----------

  /** One change, merged on the first try with what another agent landed, which is reverted
      before the second: that one takes the file for untouched, says "unrelated", and the
      merge made for the other head is submitted again. */
  lemma RevertIsUnrelated(isText: string -> bool, c: Change, first: Tree, second: Tree, text: string)
    requires FateOf(isText, c, Content(first, c.path)) == Joined(text) && Content(second, c.path) == c.base
    ensures var merge := [Some(Upsert(c.path, File(text, c.mode)))];
      && OutcomeOf(isText, first, [c], [Some(EditOf(c))]) == Merged(merge, [c.path])
      && OutcomeOf(isText, second, [c], merge) == Unrelated
  {
    var fates1, fates2 := Fates(isText, first, [c]), Fates(isText, second, [c]);
    assert fates1 == [Joined(text)] && fates2 == [Kept];
    OneChange(fates1, c, [Some(EditOf(c))]);
    OneChange(fates2, c, [Some(Upsert(c.path, File(text, c.mode)))]);
  }

  lemma OneChange(fates: seq<Fate>, c: Change, edits: Slots)
    requires |fates| == 1
    ensures Pushed(fates, [c], edits, 1) == Pushes(fates, [c], edits, 0)
    ensures Clashing(fates, [c], 1) == if fates[0].Clash? then [c.path] else []
    ensures Joining(fates, [c], 1) == if fates[0].Joined? then [c.path] else []
  {
    assert Pushed(fates, [c], edits, 0) == [] && Clashing(fates, [c], 0) == [] && Joining(fates, [c], 0) == [];
  }

  /** Two changes, of which the first try merges the first, and the second try, which finds
      that one untouched, merges the second: it pushes the old merge with the new one. */
  lemma OldMergeIsPushed(isText: string -> bool, c: Change, d: Change, first: Tree, second: Tree, text: string,
                         other: string)
    requires Fates(isText, first, [c, d]) == [Joined(text), Kept]
    requires Fates(isText, second, [c, d]) == [Kept, Joined(other)]
    ensures var merge := Some(Upsert(c.path, File(text, c.mode)));
      && OutcomeOf(isText, first, [c, d], [Some(EditOf(c)), Some(EditOf(d))]) ==
         Merged([merge, Some(EditOf(d))], [c.path])
      && OutcomeOf(isText, second, [c, d], [merge, Some(EditOf(d))]) ==
         Merged([merge, Some(Upsert(d.path, File(other, d.mode)))], [d.path])
  {
    JoinThenKeep(c, d, text, [Some(EditOf(c)), Some(EditOf(d))]);
    KeepThenJoin(c, d, other, [Some(Upsert(c.path, File(text, c.mode))), Some(EditOf(d))]);
  }

  lemma JoinThenKeep(c: Change, d: Change, text: string, edits: Slots)
    requires |edits| == 2
    ensures OutcomeWith([Joined(text), Kept], [c, d], edits) ==
      Merged([Some(Upsert(c.path, File(text, c.mode))), edits[1]], [c.path])
  {
    TwoChanges([Joined(text), Kept], c, d, edits);
  }

  lemma KeepThenJoin(c: Change, d: Change, text: string, edits: Slots)
    requires |edits| == 2
    ensures OutcomeWith([Kept, Joined(text)], [c, d], edits) ==
      Merged([edits[0], Some(Upsert(d.path, File(text, d.mode)))], [d.path])
  {
    TwoChanges([Kept, Joined(text)], c, d, edits);
  }

  lemma TwoFates(isText: string -> bool, head: Tree, c: Change, d: Change)
    ensures Fates(isText, head, [c, d]) ==
      [FateOf(isText, c, Content(head, c.path)), FateOf(isText, d, Content(head, d.path))]
  {
  }

  /** What that second try pushes, on the head it found: the merge is there again. */
  lemma MergeIsBack(second: Tree, c: Path, d: Path, merge: File, other: File)
    requires c != d
    ensures var landed := ApplyEdits(second, [Upsert(c, merge), Upsert(d, other)]);
      landed.Some? && Get(landed.value, c) == Some(merge) && Get(landed.value, d) == Some(other)
  {
    var edits := [Upsert(c, merge), Upsert(d, other)];
    GitImport.ApplyOnce(second, edits, c);
    GitImport.ApplyOnce(second, edits, d);
    assert edits[0].path == c && edits[1].path == d;
  }

  /** There are such inputs, with a merge that is not the agent's content: the agent adds a
      line above, another one below. */
  lemma LinesApartJoin(isText: string -> bool, c: Change, theirs: string, a: L.Line, x: L.Line, t: L.Line)
    requires c.base.Some? && c.ours.Some? && Mergeable(isText, c, Some(theirs)) && a != x && t != x
    requires L.SplitLines(c.base.value) == [x] && L.SplitLines(c.ours.value) == [a, x] && L.SplitLines(theirs) == [x, t]
    ensures FateOf(isText, c, Some(theirs)) == Joined(L.Join([a, x, t]))
  {
    M.AboveAndBelow(c.base.value, c.ours.value, theirs, a, x, t);
    assert |[x, t]| == 2 && |[x]| == 1 && [a, x][0] == a && [x, t][0] == x;
  }

  lemma JoinIsNotOwn(ours: string, a: L.Line, x: L.Line, t: L.Line)
    requires L.SplitLines(ours) == [a, x] && L.IsLines([a, x, t])
    ensures L.Join([a, x, t]) != ours
  {
    L.SplitJoin([a, x, t]);
    assert |[a, x, t]| == 3 && |[a, x]| == 2;
  }

  /** A text of one line, with a line added above and with one added below. */
  ghost predicate Around(base: string, ours: string, theirs: string, a: L.Line, x: L.Line, t: L.Line)
  {
    && a != x && t != x && L.IsLines([a, x, t])
    && L.SplitLines(base) == [x] && L.SplitLines(ours) == [a, x] && L.SplitLines(theirs) == [x, t]
  }

  /** The agent adds a line above in two files; the first try finds a line added below in the
      first of them, the second try, where that is reverted, in the second.  The second try
      pushes the old merge: the first file then holds the reverted line again, where nobody
      else had touched it and the agent's content should be. */
  lemma RevertIsUndone(isText: string -> bool, p: Path, q: Path, base: string, ours: string, theirs: string, mode: nat,
                       a: L.Line, x: L.Line, t: L.Line)
    requires p != q && Around(base, ours, theirs, a, x, t) && isText(base) && isText(ours) && isText(theirs)
    ensures var c, d := Change(p, Some(base), Some(ours), mode), Change(q, Some(base), Some(ours), mode);
      var first := map[p := File(theirs, mode), q := File(base, mode)];
      var second := map[p := File(base, mode), q := File(theirs, mode)];
      var text := L.Join([a, x, t]);
      var merge, merge' := Upsert(p, File(text, mode)), Upsert(q, File(text, mode));
      && OutcomeOf(isText, first, [c, d], [Some(EditOf(c)), Some(EditOf(d))]) ==
         Merged([Some(merge), Some(EditOf(d))], [p])
      && OutcomeOf(isText, second, [c, d], [Some(merge), Some(EditOf(d))]) == Merged([Some(merge), Some(merge')], [q])
      && Fates(isText, second, [c, d])[0] == Kept
      && var landed := ApplyEdits(second, [merge, merge']);
      && landed.Some? && Content(landed.value, p) == Some(text) && Some(text) != c.ours
  {
    var c, d := Change(p, Some(base), Some(ours), mode), Change(q, Some(base), Some(ours), mode);
    var first := map[p := File(theirs, mode), q := File(base, mode)];
    var second := map[p := File(base, mode), q := File(theirs, mode)];
    var text := L.Join([a, x, t]);
    LinesApartJoin(isText, c, theirs, a, x, t);
    LinesApartJoin(isText, d, theirs, a, x, t);
    TwoFates(isText, first, c, d);
    TwoFates(isText, second, c, d);
    OldMergeIsPushed(isText, c, d, first, second, text, text);
    JoinIsNotOwn(ours, a, x, t);
    MergeIsBack(second, p, q, File(text, mode), File(text, mode));
  }

  lemma JoinTwo(x: L.Line, y: L.Line)
    ensures L.Join([x]) == x.text && L.Join([x, y]) == x.text + y.text
  {
    assert [x, y][1..] == [y] && [y][1..] == [] && [x][1..] == [];
    assert L.Join([y]) == y.text + L.Join([]) && L.Join([x]) == x.text + L.Join([]);
  }

  /** Such texts, made of any lines. */
  lemma AroundExists(a: L.Line, x: L.Line, b: L.Line)
    requires a != x && b != x && L.IsLine(a.text, false) && L.IsLine(x.text, false) && L.IsLine(b.text, false)
    ensures Around(x.text, a.text + x.text, x.text + b.text, a, x, b)
  {
    JoinTwo(x, b);
    JoinTwo(a, x);
    L.SplitJoin([x]);
    L.SplitJoin([a, x]);
    L.SplitJoin([x, b]);
  }

  /** Two changes, the first of which another agent landed too.  The first try drops it; when
      it is reverted before the second try, that one takes the second change's edit for the
      first's, and reads past the end for the second's: the first change is not pushed. */
  lemma DropMisaligns(isText: string -> bool, c: Change, d: Change, first: Tree, second: Tree)
    requires c.path != d.path && c.ours != c.base
    requires Content(first, c.path) == c.ours && Content(first, d.path) == d.base
    requires Content(second, c.path) == c.base && Content(second, d.path) == d.base
    ensures OutcomeOf(isText, first, [c, d], [Some(EditOf(c)), Some(EditOf(d))]) == Merged([Some(EditOf(d))], [])
    ensures OutcomeOf(isText, second, [c, d], [Some(EditOf(d))]) == Merged([Some(EditOf(d)), None], [])
    ensures Landing(Fates(isText, second, [c, d]), [c, d], 2) == [EditOf(c), EditOf(d)]
  {
    TwoFates(isText, first, c, d);
    TwoFates(isText, second, c, d);
    AlreadyThenKeep(c, d, [Some(EditOf(c)), Some(EditOf(d))]);
    KeepBoth(c, d, [Some(EditOf(d))]);
  }

  lemma AlreadyThenKeep(c: Change, d: Change, edits: Slots)
    requires |edits| == 2
    ensures OutcomeWith([Already, Kept], [c, d], edits) == Merged([edits[1]], [])
  {
    TwoChanges([Already, Kept], c, d, edits);
  }

  lemma KeepBoth(c: Change, d: Change, edits: Slots)
    requires |edits| == 1
    ensures OutcomeWith([Kept, Kept], [c, d], edits) == Merged([edits[0], None], [])
    ensures Landing([Kept, Kept], [c, d], 2) == [EditOf(c), EditOf(d)]
  {
    var fates, changes := [Kept, Kept], [c, d];
    TwoChanges(fates, c, d, edits);
    assert Landing(fates, changes, 0) == [] && Landing(fates, changes, 1) == [EditOf(c)];
  }

  lemma TwoChanges(fates: seq<Fate>, c: Change, d: Change, edits: Slots)
    requires |fates| == 2
    ensures Pushed(fates, [c, d], edits, 2) == Pushes(fates, [c, d], edits, 0) + Pushes(fates, [c, d], edits, 1)
    ensures Clashing(fates, [c, d], 2) ==
      (if fates[0].Clash? then [c.path] else []) + (if fates[1].Clash? then [d.path] else [])
    ensures Joining(fates, [c, d], 2) ==
      (if fates[0].Joined? then [c.path] else []) + (if fates[1].Joined? then [d.path] else [])
  {
    var changes := [c, d];
    assert Pushed(fates, changes, edits, 0) == [];
    assert Pushed(fates, changes, edits, 1) == Pushes(fates, changes, edits, 0);
    assert Clashing(fates, changes, 0) == [] && Clashing(fates, changes, 1) == if fates[0].Clash? then [c.path] else [];
    assert Joining(fates, changes, 0) == [] && Joining(fates, changes, 1) == if fates[0].Joined? then [c.path] else [];
  }

  lemma MirroredFates(isText: string -> bool, path: Path, base: Option<string>, a: string, b: string, mode: nat,
                      r: M.MergeResult)
    requires Some(a) != base && Some(b) != base
    ensures var first := FateWith(isText, Change(path, base, Some(a), mode), Some(b), r);
      var second := FateWith(isText, Change(path, base, Some(b), mode), Some(a), M.Mirror(r));
      && (first.Clash? <==> second.Clash?)
      && (first.Already? <==> a == b) && (second.Already? <==> a == b)
      && (first.Joined? ==> second == first)
  {
  }

  /** Two agents that changed one file from the same baseline: whoever lands first, the other
      clashes or merges to the same text. */
  lemma EitherMayLandFirst(isText: string -> bool, path: Path, base: Option<string>, a: string, b: string, mode: nat)
    requires Some(a) != base && Some(b) != base
    ensures var first := FateOf(isText, Change(path, base, Some(a), mode), Some(b));
      var second := FateOf(isText, Change(path, base, Some(b), mode), Some(a));
      && (first.Clash? <==> second.Clash?)
      && (first.Already? <==> a == b) && (second.Already? <==> a == b)
      && (first.Joined? ==> second == first)
  {
    M.MergeSwap(TextOf(base), a, b);
    MirroredFates(isText, path, base, a, b, mode, M.ResultOf(M.ChunksOf(TextOf(base), a, b)));
  }
}
