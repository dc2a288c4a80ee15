/**
  The bridge's three-way line merge (agents/src/merge.ts, `merge3`).
 */
module Merge3 {
  import opened Lines
  import Myers

  datatype Hunk = Hunk(base: seq<Line>, ours: seq<Line>, theirs: seq<Line>)

  datatype MergeResult = Clean(text: string) | Conflicted(conflicts: seq<Hunk>)

  // ---------- Aligned chunks: the reference decomposition ----------

  /** The stretches between sync points, and the base lines (sync points) both
      sides kept. */
  datatype Chunks = Last(hunk: Hunk) | Then(hunk: Hunk, line: Line, rest: Chunks)
  {
    function Base(): seq<Line> {
      match this case Last(h) => h.base case Then(h, l, rest) => h.base + [l] + rest.Base()
    }

    function Ours(): seq<Line> {
      match this case Last(h) => h.ours case Then(h, l, rest) => h.ours + [l] + rest.Ours()
    }

    function Theirs(): seq<Line> {
      match this case Last(h) => h.theirs case Then(h, l, rest) => h.theirs + [l] + rest.Theirs()
    }

    /** The sync lines. */
    function Syncs(): seq<Line> {
      match this case Last(_) => [] case Then(_, l, rest) => [l] + rest.Syncs()
    }

    /** The stretches, in order. */
    function Hunks(): seq<Hunk> {
      match this case Last(h) => [h] case Then(h, _, rest) => [h] + rest.Hunks()
    }

    /** The merged lines: every sync line, and in each stretch the side that changed. */
    function Merged(): seq<Line> {
      match this case Last(h) => Changed(h) case Then(h, l, rest) => Changed(h) + [l] + rest.Merged()
    }

    function Conflicts(): seq<Hunk> {
      match this
      case Last(h) => if Overlaps(h) then [h] else []
      case Then(h, _, rest) => (if Overlaps(h) then [h] else []) + rest.Conflicts()
    }

    /** Ours and theirs exchanged. */
    function Swapped(): Chunks {
      match this case Last(h) => Last(Swap(h)) case Then(h, l, rest) => Then(Swap(h), l, rest.Swapped())
    }
  }

  /** Both sides changed the stretch, and differently. */
  predicate Overlaps(h: Hunk)
  {
    h.ours != h.theirs && h.ours != h.base && h.theirs != h.base
  }

  /** The side that changed; nothing for an overlap. */
  function Changed(h: Hunk): (r: seq<Line>)
  {
    if Overlaps(h) then [] else if h.ours == h.base then h.theirs else h.ours
  }

  function Swap(h: Hunk): Hunk
  {
    Hunk(h.base, h.theirs, h.ours)
  }

  // ---------- Sync points ----------

  /** `of` sends each base line to the line of `side` it was kept as, or to -1. */
  ghost predicate KeptAs(base: seq<Line>, side: seq<Line>, of: seq<int>)
  {
    && |of| == |base|
    && (forall k :: 0 <= k < |of| ==> -1 <= of[k] < |side| && (of[k] >= 0 ==> side[of[k]] == base[k]))
    && (forall j, k :: 0 <= j < k < |of| && of[j] >= 0 && of[k] >= 0 ==> of[j] < of[k])
  }

  ghost predicate Pairs(p: Myers.Pairs, k: int, j: int)
  {
    exists i :: 0 <= i < |p| && p[i].0 == k && p[i].1 == j
  }

  /** The table built from the matched pairs. */
  ghost predicate TableOf(p: Myers.Pairs, of: seq<int>)
  {
    && (forall i :: 0 <= i < |p| ==> p[i].0 < |of| && of[p[i].0] == p[i].1)
    && (forall k :: 0 <= k < |of| ==> of[k] == -1 || Pairs(p, k, of[k]))
  }

  lemma TableUnique(p: Myers.Pairs, of: seq<int>, of': seq<int>)
    requires TableOf(p, of) && TableOf(p, of') && |of| == |of'|
    ensures of == of'
  {
  }

  lemma TableIsKeptAs(base: seq<Line>, side: seq<Line>, p: Myers.Pairs, of: seq<int>)
    requires |of| == |base| && Myers.IsCommon(base, side, p) && TableOf(p, of)
    ensures KeptAs(base, side, of)
  {
    forall j, k | 0 <= j < k < |of| && of[j] >= 0 && of[k] >= 0 ensures of[j] < of[k] {
      var i :| 0 <= i < |p| && p[i].0 == j && p[i].1 == of[j];
      var i' :| 0 <= i' < |p| && p[i'].0 == k && p[i'].1 == of[k];
      assert i < i' || i' <= i;
    }
  }

  /** Lines 92 to 95: all -1 at first, then one store per pair. */
  method Table(p: Myers.Pairs, n: nat) returns (of: seq<int>)
    requires forall i :: 0 <= i < |p| ==> p[i].0 < n
    requires forall i, j :: 0 <= i < j < |p| ==> p[i].0 < p[j].0
    ensures |of| == n && TableOf(p, of)
  {
    var table := new int[n](_ => -1);
    for q := 0 to |p|
      invariant forall i :: 0 <= i < q ==> table[p[i].0] == p[i].1
      invariant forall k :: 0 <= k < n ==> table[k] == -1 || Pairs(p, k, table[k])
    {
      table[p[q].0] := p[q].1;
    }
    of := table[..];
  }

  /** The chunks the loop at line 108 walks through from base line k on, with the
      stretch since the last sync point starting at (ib, ia, it). */
  function ChunksFrom(b: seq<Line>, a: seq<Line>, t: seq<Line>, aOf: seq<int>, tOf: seq<int>,
                      k: nat, ib: nat, ia: nat, it: nat): (cs: Chunks)
    requires ib <= k <= |b| == |aOf| == |tOf| && ia <= |a| && it <= |t|
    requires forall j :: 0 <= j < |b| ==> aOf[j] < |a| && tOf[j] < |t|
    decreases |b| - k
  {
    if k == |b| then Last(Hunk(b[ib..], a[ia..], t[it..]))
    else if aOf[k] < ia || tOf[k] < it then ChunksFrom(b, a, t, aOf, tOf, k + 1, ib, ia, it)
    else Then(Hunk(b[ib..k], a[ia..aOf[k]], t[it..tOf[k]]), b[k],
              ChunksFrom(b, a, t, aOf, tOf, k + 1, k + 1, aOf[k] + 1, tOf[k] + 1))
  }

  /** The base lines from k on that both sides kept. */
  function BothKept(b: seq<Line>, aOf: seq<int>, tOf: seq<int>, k: nat): (lines: seq<Line>)
    requires k <= |b| == |aOf| == |tOf|
    decreases |b| - k
  {
    if k == |b| then []
    else (if aOf[k] >= 0 && tOf[k] >= 0 then [b[k]] else []) + BothKept(b, aOf, tOf, k + 1)
  }

  /** Nothing kept from base line k on lies before position i of the side. */
  ghost predicate Ahead(of: seq<int>, k: nat, i: nat)
  {
    forall j :: k <= j < |of| && of[j] >= 0 ==> i <= of[j]
  }

  lemma AheadNext(base: seq<Line>, side: seq<Line>, of: seq<int>, k: nat, i: nat)
    requires KeptAs(base, side, of) && k < |of| && Ahead(of, k, i)
    ensures Ahead(of, k + 1, i) && (of[k] < i <==> of[k] < 0)
    ensures of[k] >= 0 ==> Ahead(of, k + 1, of[k] + 1) && i <= of[k] < |side| && side[of[k]] == base[k]
  {
  }

  lemma ThenAligns(b: seq<Line>, a: seq<Line>, t: seq<Line>, ib: nat, k: nat, ia: nat, ka: nat, it: nat, kt: nat,
                   rest: Chunks)
    requires ib <= k < |b| && ia <= ka < |a| && it <= kt < |t| && a[ka] == b[k] && t[kt] == b[k]
    requires rest.Base() == b[k + 1..] && rest.Ours() == a[ka + 1..] && rest.Theirs() == t[kt + 1..]
    ensures var cs := Then(Hunk(b[ib..k], a[ia..ka], t[it..kt]), b[k], rest);
      cs.Base() == b[ib..] && cs.Ours() == a[ia..] && cs.Theirs() == t[it..]
  {
    Cut(b, ib, k);
    Cut(a, ia, ka);
    Cut(t, it, kt);
  }

  /** The sync points cut base, ours and theirs into aligned chunks. */
  lemma {:induction false} ChunksAlign(b: seq<Line>, a: seq<Line>, t: seq<Line>, aOf: seq<int>, tOf: seq<int>,
                                       k: nat, ib: nat, ia: nat, it: nat)
    requires KeptAs(b, a, aOf) && KeptAs(b, t, tOf) && ib <= k <= |b| && ia <= |a| && it <= |t|
    requires Ahead(aOf, k, ia) && Ahead(tOf, k, it)
    ensures var cs := ChunksFrom(b, a, t, aOf, tOf, k, ib, ia, it);
      cs.Base() == b[ib..] && cs.Ours() == a[ia..] && cs.Theirs() == t[it..]
    decreases |b| - k
  {
    if k < |b| {
      AheadNext(b, a, aOf, k, ia);
      AheadNext(b, t, tOf, k, it);
      if aOf[k] < ia || tOf[k] < it {
        ChunksAlign(b, a, t, aOf, tOf, k + 1, ib, ia, it);
      } else {
        ChunksAlign(b, a, t, aOf, tOf, k + 1, k + 1, aOf[k] + 1, tOf[k] + 1);
        ThenAligns(b, a, t, ib, k, ia, aOf[k], it, tOf[k],
                   ChunksFrom(b, a, t, aOf, tOf, k + 1, k + 1, aOf[k] + 1, tOf[k] + 1));
      }
    }
  }

  /** The sync points are exactly the base lines kept on both sides. */
  lemma {:induction false} ChunksSync(b: seq<Line>, a: seq<Line>, t: seq<Line>, aOf: seq<int>, tOf: seq<int>,
                                      k: nat, ib: nat, ia: nat, it: nat)
    requires KeptAs(b, a, aOf) && KeptAs(b, t, tOf) && ib <= k <= |b| && ia <= |a| && it <= |t|
    requires Ahead(aOf, k, ia) && Ahead(tOf, k, it)
    ensures ChunksFrom(b, a, t, aOf, tOf, k, ib, ia, it).Syncs() == BothKept(b, aOf, tOf, k)
    decreases |b| - k
  {
    if k < |b| {
      AheadNext(b, a, aOf, k, ia);
      AheadNext(b, t, tOf, k, it);
      var cs := ChunksFrom(b, a, t, aOf, tOf, k, ib, ia, it);
      if aOf[k] < ia || tOf[k] < it {
        ChunksSync(b, a, t, aOf, tOf, k + 1, ib, ia, it);
        assert BothKept(b, aOf, tOf, k) == [] + BothKept(b, aOf, tOf, k + 1);
      } else {
        ChunksSync(b, a, t, aOf, tOf, k + 1, k + 1, aOf[k] + 1, tOf[k] + 1);
        assert cs.Then? && cs.line == b[k] && cs.Syncs() == [b[k]] + cs.rest.Syncs();
      }
    }
  }

  lemma Cut(s: seq<Line>, i: nat, j: nat)
    requires i <= j < |s|
    ensures s[i..] == s[i..j] + [s[j]] + s[j + 1..]
  {
  }

  ghost function Lookup(p: Myers.Pairs, k: nat): int
  {
    if exists i :: 0 <= i < |p| && p[i].0 == k then (var i :| 0 <= i < |p| && p[i].0 == k; p[i].1) else -1
  }

  ghost function TableFor(base: seq<Line>, side: seq<Line>): (of: seq<int>)
    ensures |of| == |base| && TableOf(Myers.Lcs(base, side), of) && KeptAs(base, side, of)
  {
    Myers.LcsIsLongest(base, side);
    var p := Myers.Lcs(base, side);
    var of := seq(|base|, (k: nat) => Lookup(p, k));
    assert TableOf(p, of) by {
      forall i | 0 <= i < |p| ensures Lookup(p, p[i].0) == p[i].1 {
        forall j | 0 <= j < |p| && p[j].0 == p[i].0 ensures j == i { assert i < j || j < i || i == j; }
      }
    }
    TableIsKeptAs(base, side, p, of);
    of
  }

  // ---------- The merge ----------

  /** The aligned chunks of three texts. */
  ghost function ChunksOf(base: string, ours: string, theirs: string): (cs: Chunks)
  {
    var b, a, t := SplitLines(base), SplitLines(ours), SplitLines(theirs);
    ChunksFrom(b, a, t, TableFor(b, a), TableFor(b, t), 0, 0, 0, 0)
  }

  ghost function ResultOf(cs: Chunks): MergeResult
  {
    if cs.Conflicts() == [] then Clean(Join(cs.Merged())) else Conflicted(cs.Conflicts())
  }

  /** Lines 102 to 107. */
  method Resolve(h: Hunk, out0: seq<Line>, conflicts0: seq<Hunk>) returns (out: seq<Line>, conflicts: seq<Hunk>)
    ensures out == out0 + Changed(h) && conflicts == conflicts0 + (if Overlaps(h) then [h] else [])
  {
    out, conflicts := out0, conflicts0;
    if h.ours == h.theirs { out := out + h.ours; }
    else if h.ours == h.base { out := out + h.theirs; }
    else if h.theirs == h.base { out := out + h.ours; }
    else { conflicts := conflicts + [h]; }
  }

  /** Lines 88 to 120. */
  method Merge3(base: string, ours: string, theirs: string) returns (result: MergeResult)
    ensures result == ResultOf(ChunksOf(base, ours, theirs))
  {
    var b, a, t := SplitLines(base), SplitLines(ours), SplitLines(theirs);
    var aPairs := Myers.LcsPairs(b, a);
    var tPairs := Myers.LcsPairs(b, t);
    var aOf := Table(aPairs, |b|);
    var tOf := Table(tPairs, |b|);
    TableUnique(aPairs, aOf, TableFor(b, a));
    TableUnique(tPairs, tOf, TableFor(b, t));
    result := MergeLines(b, a, t, aOf, tOf);
  }

  lemma StepMerged(out: seq<Line>, conflicts: seq<Hunk>, cs: Chunks)
    requires cs.Then?
    ensures out + cs.Merged() == out + Changed(cs.hunk) + [cs.line] + cs.rest.Merged()
    ensures conflicts + cs.Conflicts() ==
      conflicts + (if Overlaps(cs.hunk) then [cs.hunk] else []) + cs.rest.Conflicts()
  {
    var found := if Overlaps(cs.hunk) then [cs.hunk] else [];
    assert cs.Merged() == Changed(cs.hunk) + [cs.line] + cs.rest.Merged();
    assert cs.Conflicts() == found + cs.rest.Conflicts();
    Regroup(out, Changed(cs.hunk), [cs.line], cs.rest.Merged());
    Regroup(conflicts, found, [], cs.rest.Conflicts());
    assert found + [] == found && conflicts + found + [] == conflicts + found;
  }

  lemma Regroup<T>(o: seq<T>, x: seq<T>, y: seq<T>, z: seq<T>)
    ensures o + (x + y + z) == o + x + y + z
  {
  }

  /** Lines 97 to 119. */
  method MergeLines(b: seq<Line>, a: seq<Line>, t: seq<Line>, aOf: seq<int>, tOf: seq<int>)
    returns (result: MergeResult)
    requires |b| == |aOf| == |tOf|
    requires forall j :: 0 <= j < |b| ==> aOf[j] < |a| && tOf[j] < |t|
    ensures result == ResultOf(ChunksFrom(b, a, t, aOf, tOf, 0, 0, 0, 0))
  {
    ghost var all := ChunksFrom(b, a, t, aOf, tOf, 0, 0, 0, 0);
    var out: seq<Line>, conflicts: seq<Hunk> := [], [];
    var ib, ia, it := 0, 0, 0;
    ghost var rest := all;
    for k := 0 to |b|
      invariant 0 <= ib <= k && 0 <= ia <= |a| && 0 <= it <= |t|
      invariant rest == ChunksFrom(b, a, t, aOf, tOf, k, ib, ia, it)
      invariant all.Merged() == out + rest.Merged()
      invariant all.Conflicts() == conflicts + rest.Conflicts()
    {
      if aOf[k] < ia || tOf[k] < it { continue; }
      var hunk := Hunk(b[ib..k], a[ia..aOf[k]], t[it..tOf[k]]);
      assert rest == Then(hunk, b[k], ChunksFrom(b, a, t, aOf, tOf, k + 1, k + 1, aOf[k] + 1, tOf[k] + 1));
      StepMerged(out, conflicts, rest);
      out, conflicts := Resolve(hunk, out, conflicts);
      out := out + [b[k]];
      ib, ia, it := k + 1, aOf[k] + 1, tOf[k] + 1;
      rest := rest.rest;
    }
    out, conflicts := Resolve(Hunk(b[ib..], a[ia..], t[it..]), out, conflicts);
    if |conflicts| > 0 { return Conflicted(conflicts); }
    return Clean(Join(out));
  }

  // ---------- What a merge means ----------

  /** Pieces with the sync lines between them. */
  function Woven(pieces: seq<seq<Line>>, syncs: seq<Line>): seq<Line>
    requires |pieces| == |syncs| + 1
  {
    if syncs == [] then pieces[0] else pieces[0] + [syncs[0]] + Woven(pieces[1..], syncs[1..])
  }

  /** The piece of a stretch is what the side that changed it made of it, or both. */
  ghost predicate Took(h: Hunk, piece: seq<Line>)
  {
    || (h.ours == h.base && piece == h.theirs)
    || (h.theirs == h.base && piece == h.ours)
    || (h.ours == h.theirs && piece == h.ours)
  }

  /** A merged text is the sync lines, with what was taken of each stretch between them. */
  ghost predicate Takes(lines: seq<Line>, hunks: seq<Hunk>, syncs: seq<Line>, pieces: seq<seq<Line>>)
  {
    && |pieces| == |hunks| == |syncs| + 1 && lines == Woven(pieces, syncs)
    && forall i :: 0 <= i < |hunks| ==> Took(hunks[i], pieces[i])
  }

  /** The stretches in which all three sides differ, in order. */
  ghost function Differing(hunks: seq<Hunk>): (r: seq<Hunk>)
    ensures r == [] <==> forall i :: 0 <= i < |hunks| ==>
      hunks[i].ours == hunks[i].theirs || hunks[i].ours == hunks[i].base || hunks[i].theirs == hunks[i].base
  {
    if hunks == [] then []
    else
      var h := hunks[0];
      assert forall i :: 0 <= i < |hunks[1..]| ==> hunks[1..][i] == hunks[i + 1];
      (if h.ours != h.theirs && h.ours != h.base && h.theirs != h.base then [h] else []) + Differing(hunks[1..])
  }

  /** The merge decomposes its inputs: the chunks concatenate back to the three
      texts, and the sync lines are exactly the base lines both sides kept. */
  lemma MergeDecomposes(base: string, ours: string, theirs: string)
    ensures var cs := ChunksOf(base, ours, theirs);
      && Join(cs.Base()) == base && Join(cs.Ours()) == ours && Join(cs.Theirs()) == theirs
      && cs.Syncs() == BothKept(SplitLines(base), TableFor(SplitLines(base), SplitLines(ours)),
                                TableFor(SplitLines(base), SplitLines(theirs)), 0)
  {
    var b, a, t := SplitLines(base), SplitLines(ours), SplitLines(theirs);
    ChunksAlign(b, a, t, TableFor(b, a), TableFor(b, t), 0, 0, 0, 0);
    ChunksSync(b, a, t, TableFor(b, a), TableFor(b, t), 0, 0, 0, 0);
    JoinSplit(base);
    JoinSplit(ours);
    JoinSplit(theirs);
  }

  /** The result is clean exactly when in no stretch all three sides differ, and then takes
      of each stretch what changed; otherwise those stretches are reported, in order. */
  lemma MergeMeans(cs: Chunks)
    ensures ResultOf(cs).Clean? <==> Differing(cs.Hunks()) == []
    ensures ResultOf(cs).Clean? ==> exists lines, pieces ::
      ResultOf(cs).text == Join(lines) && Takes(lines, cs.Hunks(), cs.Syncs(), pieces)
    ensures ResultOf(cs).Conflicted? ==> ResultOf(cs).conflicts == Differing(cs.Hunks())
  {
    ConflictsDiffer(cs);
    if cs.Conflicts() == [] {
      var pieces := MergedTakes(cs);
      assert Takes(cs.Merged(), cs.Hunks(), cs.Syncs(), pieces);
    }
  }

  lemma {:induction false} MergedTakes(cs: Chunks) returns (pieces: seq<seq<Line>>)
    requires cs.Conflicts() == []
    ensures Takes(cs.Merged(), cs.Hunks(), cs.Syncs(), pieces)
  {
    if cs.Last? {
      pieces := [Changed(cs.hunk)];
    } else {
      var rest := MergedTakes(cs.rest);
      pieces := [Changed(cs.hunk)] + rest;
      assert pieces[1..] == rest && cs.Syncs()[1..] == cs.rest.Syncs();
    }
  }

  lemma {:induction false} ConflictsDiffer(cs: Chunks)
    ensures cs.Conflicts() == Differing(cs.Hunks())
  {
    if cs.Last? {
      assert cs.Hunks()[1..] == [];
    } else {
      ConflictsDiffer(cs.rest);
      assert cs.Hunks()[1..] == cs.rest.Hunks();
    }
  }

  // ---------- Laws ----------

  lemma {:induction false} OneSided(cs: Chunks)
    requires forall h :: h in cs.Hunks() ==> h.theirs == h.base || h.ours == h.theirs
    ensures cs.Conflicts() == [] && cs.Merged() == cs.Ours()
  {
    if cs.Then? { OneSided(cs.rest); }
  }

  lemma {:induction false} StrictPairsAreIdentity(p: Myers.Pairs, n: nat)
    requires |p| == n && forall i :: 0 <= i < n ==> p[i].0 < n && p[i].1 < n
    requires forall i, j :: 0 <= i < j < n ==> p[i].0 < p[j].0 && p[i].1 < p[j].1
    ensures forall i :: 0 <= i < n ==> p[i] == (i, i)
  {
    forall i | 0 <= i < n ensures p[i] == (i, i) {
      LowerBound(p, i);
      UpperBound(p, i, n);
    }
  }

  lemma {:induction false} LowerBound(p: Myers.Pairs, i: nat)
    requires i < |p| && forall i, j :: 0 <= i < j < |p| ==> p[i].0 < p[j].0 && p[i].1 < p[j].1
    ensures p[i].0 >= i && p[i].1 >= i
  {
    if i > 0 { LowerBound(p, i - 1); }
  }

  lemma {:induction false} UpperBound(p: Myers.Pairs, i: nat, n: nat)
    requires i < |p| == n && forall i :: 0 <= i < n ==> p[i].0 < n && p[i].1 < n
    requires forall i, j :: 0 <= i < j < n ==> p[i].0 < p[j].0 && p[i].1 < p[j].1
    ensures p[i].0 <= i && p[i].1 <= i
    decreases n - i
  {
    if i + 1 < n { UpperBound(p, i + 1, n); }
  }

  /** A text diffed with itself keeps every line where it is. */
  lemma SelfTable(b: seq<Line>)
    ensures forall k :: 0 <= k < |b| ==> TableFor(b, b)[k] == k
  {
    var of := TableFor(b, b);
    SelfPairs(b);
    forall k | 0 <= k < |b| ensures of[k] == k {
      assert Myers.Lcs(b, b)[k] == (k, k);
    }
  }

  lemma SelfPairs(b: seq<Line>)
    ensures |Myers.Lcs(b, b)| == |b| && forall k :: 0 <= k < |b| ==> Myers.Lcs(b, b)[k] == (k, k)
  {
    var p, id := Myers.Lcs(b, b), seq(|b|, (k: nat) => (k, k));
    Myers.LcsIsLongest(b, b);
    assert Myers.IsCommon(b, b, id);
    CommonFits(b, p);
    StrictPairsAreIdentity(p, |b|);
  }

  lemma CommonFits(b: seq<Line>, p: Myers.Pairs)
    requires Myers.IsCommon(b, b, p)
    ensures |p| <= |b|
  {
    Myers.CommonEnds(b, b, p);
  }

  lemma {:induction false} UnchangedGaps(b: seq<Line>, a: seq<Line>, aOf: seq<int>, tOf: seq<int>, k: nat, ib: nat,
                                         ia: nat)
    requires ib <= k <= |b| == |aOf| == |tOf| && ia <= |a|
    requires forall j :: 0 <= j < |b| ==> aOf[j] < |a| && tOf[j] == j
    ensures forall h :: h in ChunksFrom(b, a, b, aOf, tOf, k, ib, ia, ib).Hunks() ==> h.theirs == h.base
    decreases |b| - k
  {
    if k == |b| {
    } else if aOf[k] < ia {
      UnchangedGaps(b, a, aOf, tOf, k + 1, ib, ia);
    } else {
      UnchangedGaps(b, a, aOf, tOf, k + 1, k + 1, aOf[k] + 1);
    }
  }

  lemma {:induction false} SameGaps(b: seq<Line>, a: seq<Line>, aOf: seq<int>, k: nat, ib: nat, ia: nat)
    requires ib <= k <= |b| == |aOf| && ia <= |a|
    requires forall j :: 0 <= j < |b| ==> aOf[j] < |a|
    ensures forall h :: h in ChunksFrom(b, a, a, aOf, aOf, k, ib, ia, ia).Hunks() ==> h.ours == h.theirs
    decreases |b| - k
  {
    if k == |b| {
    } else if aOf[k] < ia {
      SameGaps(b, a, aOf, k + 1, ib, ia);
    } else {
      SameGaps(b, a, aOf, k + 1, k + 1, aOf[k] + 1);
    }
  }

  /** Merging with an unchanged side returns the other side, clean. */
  lemma MergeWithUnchanged(base: string, ours: string)
    ensures ResultOf(ChunksOf(base, ours, base)) == Clean(ours)
  {
    var b, a := SplitLines(base), SplitLines(ours);
    SelfTable(b);
    UnchangedGaps(b, a, TableFor(b, a), TableFor(b, b), 0, 0, 0);
    OneSided(ChunksOf(base, ours, base));
    MergeDecomposes(base, ours, base);
  }

  /** Merging two identical sides returns that text, clean. */
  lemma MergeIdentical(base: string, side: string)
    ensures ResultOf(ChunksOf(base, side, side)) == Clean(side)
  {
    var b, a := SplitLines(base), SplitLines(side);
    SameGaps(b, a, TableFor(b, a), 0, 0, 0);
    OneSided(ChunksOf(base, side, side));
    MergeDecomposes(base, side, side);
  }

  function Mirror(r: MergeResult): MergeResult
  {
    match r
    case Clean(text) => r
    case Conflicted(hs) => Conflicted(seq(|hs|, (i: nat) requires i < |hs| => Swap(hs[i])))
  }

  /** Exchanging ours and theirs keeps a clean text and mirrors the conflicts. */
  lemma MergeSwap(base: string, ours: string, theirs: string)
    ensures ResultOf(ChunksOf(base, theirs, ours)) == Mirror(ResultOf(ChunksOf(base, ours, theirs)))
  {
    var b, a, t := SplitLines(base), SplitLines(ours), SplitLines(theirs);
    SwapChunks(b, a, t, TableFor(b, a), TableFor(b, t), 0, 0, 0, 0);
    SwapResult(ChunksOf(base, ours, theirs));
  }

  lemma {:induction false} SwapChunks(b: seq<Line>, a: seq<Line>, t: seq<Line>, aOf: seq<int>, tOf: seq<int>,
                                      k: nat, ib: nat, ia: nat, it: nat)
    requires ib <= k <= |b| == |aOf| == |tOf| && ia <= |a| && it <= |t|
    requires forall j :: 0 <= j < |b| ==> aOf[j] < |a| && tOf[j] < |t|
    ensures ChunksFrom(b, t, a, tOf, aOf, k, ib, it, ia) == ChunksFrom(b, a, t, aOf, tOf, k, ib, ia, it).Swapped()
    decreases |b| - k
  {
    if k == |b| {
    } else if aOf[k] < ia || tOf[k] < it {
      SwapChunks(b, a, t, aOf, tOf, k + 1, ib, ia, it);
    } else {
      SwapChunks(b, a, t, aOf, tOf, k + 1, k + 1, aOf[k] + 1, tOf[k] + 1);
    }
  }

  lemma {:induction false} SwapResult(cs: Chunks)
    ensures cs.Swapped().Merged() == cs.Merged()
    ensures |cs.Swapped().Conflicts()| == |cs.Conflicts()|
    ensures forall i :: 0 <= i < |cs.Conflicts()| ==> cs.Swapped().Conflicts()[i] == Swap(cs.Conflicts()[i])
  {
    if cs.Then? { SwapResult(cs.rest); }
  }

  // ---------- Changes apart from each other ----------

  lemma AtLeast(base: seq<Line>, side: seq<Line>, q: Myers.Pairs)
    requires Myers.IsCommon(base, side, q)
    ensures |q| <= |Myers.Lcs(base, side)|
  {
    Myers.LcsIsLongest(base, side);
  }

  /** A base of one line, which the side has at place j and nowhere else, is kept there. */
  lemma OneKept(base: seq<Line>, side: seq<Line>, j: nat)
    requires |base| == 1 && j < |side| && side[j] == base[0] && forall i :: 0 <= i < |side| && i != j ==>
      side[i] != base[0]
    ensures |TableFor(base, side)| == 1 && TableFor(base, side)[0] == j
  {
    AtLeast(base, side, [(0, j)]);
    var p, of := Myers.Lcs(base, side), TableFor(base, side);
    FoundInTable(p, of);
  }

  lemma FoundInTable(p: Myers.Pairs, of: seq<int>)
    requires |p| >= 1 && |of| == 1 && TableOf(p, of)
    ensures of[0] >= 0
  {
    assert p[0].0 == 0 && of[p[0].0] == p[0].1;
  }

  /** From the only base line on, which is the second line of ours and the first of theirs. */
  lemma ChunksAround(b: seq<Line>, a: seq<Line>, t: seq<Line>, aOf: seq<int>, tOf: seq<int>, k: nat, cs: Chunks)
    requires k == 0 && |b| == |aOf| == |tOf| == k + 1 && |a| == |t| == k + 2 && aOf[k] == k + 1 && tOf[k] == k
    requires cs == ChunksFrom(b, a, t, aOf, tOf, k, k, k, k)
    ensures cs.Then? && cs.hunk == Hunk([], [a[0]], []) && cs.line == b[0] && cs.rest == Last(Hunk([], [], [t[1]]))
  {
    ChunksNext(b, a, t, aOf, tOf, k, k, k, k);
    ChunksEnd(b, a, t, aOf, tOf, k + 1, k + 2, k + 1);
    SlicesAround(b, a, t);
  }

  lemma SlicesAround(b: seq<Line>, a: seq<Line>, t: seq<Line>)
    requires |b| == 1 && |a| == |t| == 2
    ensures Hunk(b[0..0], a[0..1], t[0..0]) == Hunk([], [a[0]], [])
    ensures Hunk(b[1..], a[2..], t[1..]) == Hunk([], [], [t[1]])
  {
    assert b[0..0] == [] && t[0..0] == [] && a[0..1] == [a[0]];
    assert b[1..] == [] && a[2..] == [] && t[1..] == [t[1]];
  }

  lemma ChunksEnd(b: seq<Line>, a: seq<Line>, t: seq<Line>, aOf: seq<int>, tOf: seq<int>, ib: nat, ia: nat, it: nat)
    requires ib <= |b| == |aOf| == |tOf| && ia <= |a| && it <= |t|
    requires forall j :: 0 <= j < |b| ==> aOf[j] < |a| && tOf[j] < |t|
    ensures ChunksFrom(b, a, t, aOf, tOf, |b|, ib, ia, it) == Last(Hunk(b[ib..], a[ia..], t[it..]))
  {
  }

  lemma ChunksNext(b: seq<Line>, a: seq<Line>, t: seq<Line>, aOf: seq<int>, tOf: seq<int>,
                   k: nat, ib: nat, ia: nat, it: nat)
    requires ib <= k < |b| == |aOf| == |tOf| && ia <= |a| && it <= |t|
    requires forall j :: 0 <= j < |b| ==> aOf[j] < |a| && tOf[j] < |t|
    requires ia <= aOf[k] && it <= tOf[k]
    ensures ChunksFrom(b, a, t, aOf, tOf, k, ib, ia, it) ==
      Then(Hunk(b[ib..k], a[ia..aOf[k]], t[it..tOf[k]]), b[k],
           ChunksFrom(b, a, t, aOf, tOf, k + 1, k + 1, aOf[k] + 1, tOf[k] + 1))
  {
  }

  lemma ResultAround(cs: Chunks, a: Line, x: Line, t: Line)
    requires cs.Then? && cs.hunk == Hunk([], [a], []) && cs.line == x && cs.rest == Last(Hunk([], [], [t]))
    ensures ResultOf(cs) == Clean(Join([a, x, t]))
  {
    assert cs.rest.Merged() == [t] && cs.rest.Conflicts() == [];
    assert [a] + [x] + [t] == [a, x, t];
  }

  /** One side adds a line above a line, the other one below it: both are merged in. */
  lemma AboveAndBelow(base: string, ours: string, theirs: string, a: Line, x: Line, t: Line)
    requires a != x && t != x
    requires SplitLines(base) == [x] && SplitLines(ours) == [a, x] && SplitLines(theirs) == [x, t]
    ensures ResultOf(ChunksOf(base, ours, theirs)) == Clean(Join([a, x, t]))
  {
    var bs, os, ts := SplitLines(base), SplitLines(ours), SplitLines(theirs);
    OneKept(bs, os, 1);
    OneKept(bs, ts, 0);
    ChunksAround(bs, os, ts, TableFor(bs, os), TableFor(bs, ts), 0, ChunksOf(base, ours, theirs));
    ResultAround(ChunksOf(base, ours, theirs), a, x, t);
  }
}
