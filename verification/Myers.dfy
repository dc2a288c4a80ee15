/**
  Myers' O(ND) line diff (agents/src/merge.ts, `lcsPairs`).

  The source keeps, for every round d and diagonal k, the furthest x reached with
  d edits.  A diagonal of round d is determined by how many lines of `a` were
  dropped (h) and how many lines of `b` were taken in (v), with d == h + v and
  k == h - v, so everything below is indexed by (h, v): the point reached after
  matching g lines is (h + g, v + g).
 */
module Myers {

  type Pairs = seq<(nat, nat)>

  // ---------- Common subsequences and edit paths ----------

  /** `p` pairs equal lines of `a` and `b`, in increasing order on both sides. */
  ghost predicate IsCommon<T>(a: seq<T>, b: seq<T>, p: Pairs)
  {
    && (forall i :: 0 <= i < |p| ==> p[i].0 < |a| && p[i].1 < |b| && a[p[i].0] == b[p[i].1])
    && (forall i, j :: 0 <= i < j < |p| ==> p[i].0 < p[j].0 && p[i].1 < p[j].1)
  }

  /** All pairs lie before (x, y). */
  ghost predicate Below(p: Pairs, x: nat, y: nat)
  {
    forall i :: 0 <= i < |p| ==> p[i].0 < x && p[i].1 < y
  }

  /** After h drops, v insertions and g matches the next lines are both there and equal. */
  predicate Same<T(==)>(a: seq<T>, b: seq<T>, h: nat, v: nat, g: nat)
  {
    h + g < |a| && v + g < |b| && a[h + g] == b[v + g]
  }

  /** Some edit path drops h lines of `a`, takes in v lines of `b` and matches g
      lines, in some order.  As in the source, a path may run past the end of
      either side; only matches have to stay inside both. */
  ghost predicate Path<T>(a: seq<T>, b: seq<T>, h: nat, v: nat, g: nat)
    decreases h + v + g
  {
    || (h == 0 && v == 0 && g == 0)
    || (g > 0 && Same(a, b, h, v, g - 1) && Path(a, b, h, v, g - 1))
    || (h > 0 && Path(a, b, h - 1, v, g))
    || (v > 0 && Path(a, b, h, v - 1, g))
  }

  /** A common subsequence of the first x and y lines is an edit path to (x, y). */
  lemma {:induction false} CommonIsPath<T>(a: seq<T>, b: seq<T>, p: Pairs, x: nat, y: nat)
    requires IsCommon(a, b, p) && x <= |a| && y <= |b|
    requires Below(p, x, y)
    ensures |p| <= x && |p| <= y && Path(a, b, x - |p|, y - |p|, |p|)
    decreases x + y
  {
    if |p| > 0 && p[|p| - 1] == (x - 1, y - 1) {
      CommonIsPath(a, b, p[..|p| - 1], x - 1, y - 1);
    } else if x > 0 && (|p| == 0 || p[|p| - 1].0 < x - 1) {
      CommonIsPath(a, b, p, x - 1, y);
    } else if y > 0 {
      CommonIsPath(a, b, p, x, y - 1);
    }
  }

  /** A path that runs past the ends can be cut back to them: it keeps its matches
      and needs exactly the overrun fewer edits. */
  lemma {:induction false} Clamp<T>(a: seq<T>, b: seq<T>, h: nat, v: nat, g: nat)
    requires Path(a, b, h, v, g)
    ensures g <= |a| && g <= |b|
    ensures Path(a, b, if h + g > |a| then |a| - g else h, if v + g > |b| then |b| - g else v, g)
    decreases h + v + g
  {
    if g > 0 && Same(a, b, h, v, g - 1) && Path(a, b, h, v, g - 1) {
    } else if h > 0 && Path(a, b, h - 1, v, g) {
      Clamp(a, b, h - 1, v, g);
    } else if v > 0 && Path(a, b, h, v - 1, g) {
      Clamp(a, b, h, v - 1, g);
    }
  }

  // ---------- The frontier ----------

  /** Follows equal lines from (h + g, v + g). */
  function Slide<T(==)>(a: seq<T>, b: seq<T>, h: nat, v: nat, g: nat): (r: nat)
    ensures r >= g && !Same(a, b, h, v, r)
    ensures forall j: nat :: g <= j < r ==> Same(a, b, h, v, j)
    decreases |a| - (h + g)
  {
    if Same(a, b, h, v, g) then Slide(a, b, h, v, g + 1) else g
  }

  /** The most lines the algorithm matches after dropping h and taking in v. */
  function Most<T(==)>(a: seq<T>, b: seq<T>, h: nat, v: nat): (g: nat)
    decreases h + v, 2
  {
    Slide(a, b, h, v, Entry(a, b, h, v))
  }

  /** Where round h + v enters diagonal h - v, before following equal lines. */
  function Entry<T(==)>(a: seq<T>, b: seq<T>, h: nat, v: nat): (g: nat)
    decreases h + v, 1
  {
    if h == 0 && v == 0 then 0
    else if Down(a, b, h, v) then Most(a, b, h, v - 1)
    else Most(a, b, h - 1, v)
  }

  /** The source's choice of the diagonal to come from. */
  predicate Down<T(==)>(a: seq<T>, b: seq<T>, h: nat, v: nat)
    requires h + v > 0
    decreases h + v, 0
  {
    h == 0 || (v != 0 && h - 1 + Most(a, b, h - 1, v) < h + Most(a, b, h, v - 1))
  }

  lemma {:induction false} SlidePath<T>(a: seq<T>, b: seq<T>, h: nat, v: nat, g: nat, r: nat)
    requires Path(a, b, h, v, g) && g <= r
    requires forall j: nat :: g <= j < r ==> Same(a, b, h, v, j)
    ensures Path(a, b, h, v, r)
    decreases r
  {
    if g < r {
      SlidePath(a, b, h, v, g, r - 1);
      assert Same(a, b, h, v, r - 1);
    }
  }

  lemma {:induction false} MostIsReached<T>(a: seq<T>, b: seq<T>, h: nat, v: nat)
    ensures Path(a, b, h, v, Most(a, b, h, v))
    decreases h + v
  {
    if h + v > 0 {
      if Down(a, b, h, v) { MostIsReached(a, b, h, v - 1); } else { MostIsReached(a, b, h - 1, v); }
    }
    SlidePath(a, b, h, v, Entry(a, b, h, v), Most(a, b, h, v));
  }

  lemma EntryIsMax<T>(a: seq<T>, b: seq<T>, h: nat, v: nat)
    ensures h > 0 ==> Most(a, b, h - 1, v) <= Most(a, b, h, v)
    ensures v > 0 ==> Most(a, b, h, v - 1) <= Most(a, b, h, v)
  {
    if h + v > 0 {
      assert Entry(a, b, h, v) == if Down(a, b, h, v) then Most(a, b, h, v - 1) else Most(a, b, h - 1, v);
    }
  }

  /** The frontier is furthest reaching: no path with the same edits matches more. */
  lemma {:induction false} MostIsMost<T>(a: seq<T>, b: seq<T>, h: nat, v: nat, g: nat)
    requires Path(a, b, h, v, g)
    ensures g <= Most(a, b, h, v)
    decreases h + v + g
  {
    EntryIsMax(a, b, h, v);
    if g > 0 && Same(a, b, h, v, g - 1) && Path(a, b, h, v, g - 1) {
      MostIsMost(a, b, h, v, g - 1);
      assert Most(a, b, h, v) == g - 1 ==> Same(a, b, h, v, Most(a, b, h, v));
    } else if h > 0 && Path(a, b, h - 1, v, g) {
      MostIsMost(a, b, h - 1, v, g);
    } else if v > 0 && Path(a, b, h, v - 1, g) {
      MostIsMost(a, b, h, v - 1, g);
    }
  }

  // ---------- Where the forward run ends ----------

  /** The source's `x >= n && y >= m`. */
  predicate Ends<T(==)>(a: seq<T>, b: seq<T>, h: nat, v: nat)
  {
    h + Most(a, b, h, v) >= |a| && v + Most(a, b, h, v) >= |b|
  }

  /** No earlier round ended. */
  ghost predicate NoneEnds<T>(a: seq<T>, b: seq<T>, d: nat)
  {
    forall h: nat, v: nat :: h + v < d ==> !Ends(a, b, h, v)
  }

  /** The first round that ends does so exactly at the corner (n, m). */
  lemma FirstEndIsCorner<T>(a: seq<T>, b: seq<T>, h: nat, v: nat)
    requires Ends(a, b, h, v) && NoneEnds(a, b, h + v)
    ensures h + Most(a, b, h, v) == |a| && v + Most(a, b, h, v) == |b|
  {
    var g := Most(a, b, h, v);
    MostIsReached(a, b, h, v);
    Clamp(a, b, h, v, g);
    var h', v' := |a| - g, |b| - g;
    MostIsMost(a, b, h', v', g);
    assert Ends(a, b, h', v');
  }

  /** Every common subsequence of g lines makes round n + m - 2g end. */
  lemma CommonEnds<T>(a: seq<T>, b: seq<T>, p: Pairs)
    requires IsCommon(a, b, p)
    ensures |p| <= |a| && |p| <= |b| && Ends(a, b, |a| - |p|, |b| - |p|)
  {
    CommonIsPath(a, b, p, |a|, |b|);
    MostIsMost(a, b, |a| - |p|, |b| - |p|, |p|);
  }

  // ---------- The backward walk ----------

  /** The run of matches from (h + g, v + g) up to (h + r, v + r). */
  function Run(h: nat, v: nat, g: nat, r: nat): (p: Pairs)
    requires g <= r
    ensures |p| == r - g && forall i :: 0 <= i < |p| ==> p[i] == (h + g + i, v + g + i)
  {
    seq(r - g, (j: nat) => (h + g + j, v + g + j))
  }

  /** The matches of the path the backward walk retraces from (h, v). */
  function Trail<T(==)>(a: seq<T>, b: seq<T>, h: nat, v: nat): (p: Pairs)
    decreases h + v, 1
  {
    Lead(a, b, h, v) + Run(h, v, Entry(a, b, h, v), Most(a, b, h, v))
  }

  function Lead<T(==)>(a: seq<T>, b: seq<T>, h: nat, v: nat): (p: Pairs)
    decreases h + v, 0
  {
    if h + v == 0 then []
    else if Down(a, b, h, v) then Trail(a, b, h, v - 1)
    else Trail(a, b, h - 1, v)
  }

  lemma RunIsCommon<T>(a: seq<T>, b: seq<T>, h: nat, v: nat, g: nat, r: nat)
    requires g <= r && forall j: nat :: g <= j < r ==> Same(a, b, h, v, j)
    ensures IsCommon(a, b, Run(h, v, g, r))
  {
    var p := Run(h, v, g, r);
    forall i | 0 <= i < |p|
      ensures p[i].0 < |a| && p[i].1 < |b| && a[p[i].0] == b[p[i].1]
    {
      assert Same(a, b, h, v, g + i);
    }
  }

  /** Following a run of equal lines extends a common subsequence. */
  lemma RunExtends<T>(a: seq<T>, b: seq<T>, p: Pairs, h: nat, v: nat, g: nat, r: nat)
    requires IsCommon(a, b, p) && Below(p, h + g, v + g)
    requires g <= r && forall j: nat :: g <= j < r ==> Same(a, b, h, v, j)
    ensures IsCommon(a, b, p + Run(h, v, g, r)) && Below(p + Run(h, v, g, r), h + r, v + r)
  {
    RunIsCommon(a, b, h, v, g, r);
  }

  lemma {:induction false} TrailIsCommon<T>(a: seq<T>, b: seq<T>, h: nat, v: nat)
    ensures |Trail(a, b, h, v)| == Most(a, b, h, v)
    ensures IsCommon(a, b, Trail(a, b, h, v))
    ensures Below(Trail(a, b, h, v), h + Most(a, b, h, v), v + Most(a, b, h, v))
    decreases h + v
  {
    LeadIsCommon(a, b, h, v);
    RunExtends(a, b, Lead(a, b, h, v), h, v, Entry(a, b, h, v), Most(a, b, h, v));
  }

  lemma {:induction false} LeadIsCommon<T>(a: seq<T>, b: seq<T>, h: nat, v: nat)
    ensures |Lead(a, b, h, v)| == Entry(a, b, h, v)
    ensures IsCommon(a, b, Lead(a, b, h, v))
    ensures Below(Lead(a, b, h, v), h + Entry(a, b, h, v), v + Entry(a, b, h, v))
    decreases h + v, 0
  {
    if h + v > 0 {
      if Down(a, b, h, v) { TrailIsCommon(a, b, h, v - 1); } else { TrailIsCommon(a, b, h - 1, v); }
    }
  }

  /** The longest common subsequence's length, as the source's rounds define it:
      the corner is reached with fewest edits. */
  ghost function Longest<T>(a: seq<T>, b: seq<T>): (g: nat)
    ensures g <= |a| && g <= |b| && Ends(a, b, |a| - g, |b| - g) && NoneEnds(a, b, |a| + |b| - 2 * g)
    ensures Most(a, b, |a| - g, |b| - g) == g
  {
    CommonEnds(a, b, []);
    var d := FirstRound(a, b, 0);
    var h: nat, v: nat :| h + v == d && Ends(a, b, h, v);
    FirstEndIsCorner(a, b, h, v);
    Most(a, b, h, v)
  }

  /** The first round, from d on, in which some diagonal ends. */
  ghost function FirstRound<T>(a: seq<T>, b: seq<T>, d: nat): (r: nat)
    requires d <= |a| + |b| && NoneEnds(a, b, d) && Ends(a, b, |a|, |b|)
    ensures NoneEnds(a, b, r) && exists h: nat, v: nat :: h + v == r && Ends(a, b, h, v)
    decreases |a| + |b| - d
  {
    if exists h: nat, v: nat :: h + v == d && Ends(a, b, h, v) then d
    else FirstRound(a, b, d + 1)
  }

  /** What `lcsPairs` returns. */
  ghost function Lcs<T>(a: seq<T>, b: seq<T>): (p: Pairs)
  {
    Trail(a, b, |a| - Longest(a, b), |b| - Longest(a, b))
  }

  /** Soundness and optimality of the returned pairs, for all inputs. */
  lemma LcsIsLongest<T>(a: seq<T>, b: seq<T>)
    ensures IsCommon(a, b, Lcs(a, b))
    ensures forall p: Pairs :: IsCommon(a, b, p) ==> |p| <= |Lcs(a, b)|
  {
    var g := Longest(a, b);
    TrailIsCommon(a, b, |a| - g, |b| - g);
    forall p: Pairs | IsCommon(a, b, p)
      ensures |p| <= |Lcs(a, b)|
    {
      CommonEnds(a, b, p);
    }
  }

  // ---------- The algorithm ----------

  /** The entry of diagonal (h, v) in a frontier array. */
  ghost predicate At<T>(a: seq<T>, b: seq<T>, vd: seq<int>, offset: int, h: nat, v: nat)
  {
    0 <= offset + h - v < |vd| && vd[offset + h - v] == h + Most(a, b, h, v)
  }

  /** While round d runs: the diagonals of round d - 1 are still there to be read,
      and the first i diagonals of round d are done. */
  ghost predicate Partial<T>(a: seq<T>, b: seq<T>, vd: seq<int>, offset: int, d: nat, i: nat)
  {
    && (d == 0 ==> 0 <= offset + 1 < |vd| && vd[offset + 1] == 0)
    && (forall h: nat, v: nat :: h + v == d - 1 ==> At(a, b, vd, offset, h, v))
    && (forall h: nat, v: nat :: h + v == d && h < i ==> At(a, b, vd, offset, h, v))
  }

  /** The source's test for coming from the diagonal above, on a saved frontier. */
  predicate FromAbove(vd: seq<int>, offset: int, d: int, k: int)
    requires 1 <= offset + k && offset + k + 1 < |vd|
  {
    k == -d || (k != d && vd[offset + k - 1] < vd[offset + k + 1])
  }

  /** On the frontier of round d - 1 that test is `Down`. */
  lemma FromAboveIsDown<T>(a: seq<T>, b: seq<T>, vd: seq<int>, offset: int, h: nat, v: nat, i: nat)
    requires 1 <= offset + h - v && offset + h - v + 1 < |vd| && Partial(a, b, vd, offset, h + v, i)
    ensures h + v > 0 ==> FromAbove(vd, offset, h + v, h - v) == Down(a, b, h, v)
    ensures h + v > 0 && h > 0 ==> vd[offset + h - v - 1] == h - 1 + Most(a, b, h - 1, v)
    ensures h + v > 0 && v > 0 ==> vd[offset + h - v + 1] == h + Most(a, b, h, v - 1)
  {
    if h > 0 { assert At(a, b, vd, offset, h - 1, v); }
    if v > 0 { assert At(a, b, vd, offset, h, v - 1); }
  }

  /** Writing diagonal i of round d keeps the entries the round still reads. */
  lemma PartialStep<T>(a: seq<T>, b: seq<T>, vd: seq<int>, offset: int, d: nat, i: nat)
    requires i <= d && 0 <= offset + 2 * i - d < |vd| && Partial(a, b, vd, offset, d, i)
    ensures Partial(a, b, vd[offset + 2 * i - d := i + Most(a, b, i, d - i)], offset, d, i + 1)
  {
    var vd' := vd[offset + 2 * i - d := i + Most(a, b, i, d - i)];
    forall h: nat, v: nat | h + v == d - 1
      ensures At(a, b, vd', offset, h, v)
    {
      assert At(a, b, vd, offset, h, v);
    }
    forall h: nat, v: nat | h + v == d && h < i + 1
      ensures At(a, b, vd', offset, h, v)
    {
      assert h < i ==> At(a, b, vd, offset, h, v);
    }
  }

  /** Follows the run of equal lines from (x0, y0). */
  method Follow<T(==)>(a: seq<T>, b: seq<T>, x0: int, y0: int, ghost h: nat, ghost v: nat, ghost g: nat)
    returns (x: int, y: int)
    requires x0 == h + g && y0 == v + g
    ensures x == h + Slide(a, b, h, v, g) && y == v + Slide(a, b, h, v, g)
  {
    x, y := x0, y0;
    ghost var r := g;
    while x < |a| && y < |b| && a[x] == b[y]
      invariant x == h + r && y == v + r && Slide(a, b, h, v, r) == Slide(a, b, h, v, g)
      decreases |a| - x
    {
      assert Same(a, b, h, v, r);
      x, y, r := x + 1, y + 1, r + 1;
    }
    assert !Same(a, b, h, v, r);
  }

  /** One diagonal of the forward run: the choice between the two neighbours, then
      the run of equal lines. */
  method Advance<T(==)>(a: seq<T>, b: seq<T>, vd: array<int>, offset: int, d: int, k: int, ghost i: nat)
    returns (x: int, y: int)
    requires 0 <= i <= d && k == 2 * i - d && 1 <= offset + k && offset + k + 1 < vd.Length
    requires Partial(a, b, vd[..], offset, d, i)
    ensures x == i + Most(a, b, i, d - i) && y == d - i + Most(a, b, i, d - i)
  {
    FromAboveIsDown(a, b, vd[..], offset, i, d - i, i);
    if k == -d || (k != d && vd[offset + k - 1] < vd[offset + k + 1]) {
      x := vd[offset + k + 1];
    } else {
      x := vd[offset + k - 1] + 1;
    }
    assert x == i + Entry(a, b, i, d - i);
    x, y := Follow(a, b, x, x - k, i, d - i, Entry(a, b, i, d - i));
  }

  /** Round d of the forward run, updating the frontier in place. */
  method Round<T(==)>(a: seq<T>, b: seq<T>, vd: array<int>, offset: int, d: int) returns (found: bool)
    requires 0 <= d && offset >= d + 1 && offset + d + 1 < vd.Length
    requires Partial(a, b, vd[..], offset, d, 0)
    modifies vd
    ensures found <==> exists h: nat, v: nat :: h + v == d && Ends(a, b, h, v)
    ensures !found ==> Partial(a, b, vd[..], offset, d + 1, 0)
  {
    found := false;
    var k := -d;
    ghost var i: nat := 0;
    while k <= d
      invariant i <= d + 1 && k == 2 * i - d
      invariant Partial(a, b, vd[..], offset, d, i)
      invariant forall h: nat, v: nat :: h + v == d && h < i ==> !Ends(a, b, h, v)
      decreases d + 2 - k
    {
      var x, y := Advance(a, b, vd, offset, d, k, i);
      PartialStep(a, b, vd[..], offset, d, i);
      ghost var before := vd[..];
      vd[offset + k] := x;
      assert vd[..] == before[offset + 2 * i - d := i + Most(a, b, i, d - i)];
      if x >= |a| && y >= |b| {
        assert Ends(a, b, i, d - i);
        found := true;
        return;
      }
      i, k := i + 1, k + 2;
    }
  }

  /** The forward run: the saved frontiers, one per round, up to the one that ends. */
  method Forward<T(==)>(a: seq<T>, b: seq<T>) returns (trace: seq<seq<int>>)
    ensures |trace| == |a| + |b| - 2 * Longest(a, b) + 1
    ensures forall d :: 0 <= d < |trace| ==>
      |trace[d]| == 2 * (|a| + |b|) + 3 && Partial(a, b, trace[d], |a| + |b| + 1, d, 0)
  {
    var max := |a| + |b|;
    var offset := max + 1;
    var vd := new int[2 * max + 3](_ => 0);
    trace := [];
    var found := false;
    var d := 0;
    while d <= max && !found
      invariant 0 <= d <= max + 1 && |trace| == d
      invariant forall e :: 0 <= e < d ==> |trace[e]| == 2 * max + 3 && Partial(a, b, trace[e], offset, e, 0)
      invariant !found ==> NoneEnds(a, b, d) && Partial(a, b, vd[..], offset, d, 0)
      invariant found ==> d > 0 && NoneEnds(a, b, d - 1) && exists h: nat, v: nat :: h + v == d - 1 && Ends(a, b, h, v)
      decreases max + 1 - d
    {
      trace := trace + [vd[..]];
      found := Round(a, b, vd, offset, d);
      d := d + 1;
    }
    CommonEnds(a, b, []);
    assert found;
    ghost var h: nat, v: nat :| h + v == d - 1 && Ends(a, b, h, v);
    FirstEndIsCorner(a, b, h, v);
    LongestIsUnique(a, b, h, v);
  }

  lemma LongestIsUnique<T>(a: seq<T>, b: seq<T>, h: nat, v: nat)
    requires Ends(a, b, h, v) && NoneEnds(a, b, h + v)
    ensures h == |a| - Longest(a, b) && v == |b| - Longest(a, b)
  {
    var g := Longest(a, b);
    FirstEndIsCorner(a, b, h, v);
    assert Ends(a, b, |a| - g, |b| - g);
  }

  function Reversed(p: Pairs): (r: Pairs)
  {
    if p == [] then [] else [p[|p| - 1]] + Reversed(p[..|p| - 1])
  }

  lemma ReversedAppend(p: Pairs, q: (nat, nat))
    ensures Reversed(p + [q]) == [q] + Reversed(p)
  {
    assert (p + [q])[..|p|] == p;
  }

  /** The inner loop of the backward walk: pushes the run of matches between the
      point a round entered its diagonal and the point it left it, last first. */
  method WalkRun(x0: int, y0: int, prevX: int, prevY: int, pairs0: Pairs, ghost h: nat, ghost v: nat, ghost g: nat,
                 ghost r: nat)
    returns (pairs: Pairs)
    requires g <= r && x0 == h + r && y0 == v + r
    requires (prevX == h + g && prevY < v + g) || (prevX < h + g && prevY == v + g)
    ensures Reversed(pairs) == Run(h, v, g, r) + Reversed(pairs0)
  {
    var x, y := x0, y0;
    pairs := pairs0;
    while x > prevX && y > prevY
      invariant h + g <= x <= h + r && x - h == y - v
      invariant Reversed(pairs) == Run(h, v, x - h, r) + Reversed(pairs0)
      decreases x
    {
      x, y := x - 1, y - 1;
      assert Run(h, v, x - h, r) == [(x, y)] + Run(h, v, x + 1 - h, r);
      ReversedAppend(pairs, (x, y));
      pairs := pairs + [(x, y)];
    }
  }

  /** (x, y) is where the forward run stood on diagonal (h, v). */
  ghost predicate Stands<T>(a: seq<T>, b: seq<T>, h: nat, v: nat, x: int, y: int)
  {
    x == h + Most(a, b, h, v) && y == v + Most(a, b, h, v)
  }

  /** The point on the saved frontier that round d came from. */
  method CameFrom<T(==)>(a: seq<T>, b: seq<T>, vd: seq<int>, offset: int, d: int, k: int, ghost h: nat, ghost v: nat)
    returns (prevX: int, prevY: int, ghost h': nat, ghost v': nat)
    requires d == h + v && k == h - v
    requires 1 <= offset + k && offset + k + 1 < |vd| && Partial(a, b, vd, offset, d, 0)
    ensures var g := Entry(a, b, h, v); (prevX == h + g && prevY < v + g) || (prevX < h + g && prevY == v + g)
    ensures d > 0 ==> h' + v' == d - 1 && Stands(a, b, h', v', prevX, prevY) && Lead(a, b, h, v) == Trail(a, b, h', v')
  {
    FromAboveIsDown(a, b, vd, offset, h, v, 0);
    var prevK := if k == -d || (k != d && vd[offset + k - 1] < vd[offset + k + 1]) then k + 1 else k - 1;
    prevX := vd[offset + prevK];
    prevY := prevX - prevK;
    h', v' := h, v;
    if d > 0 {
      if Down(a, b, h, v) { v' := v - 1; } else { h' := h - 1; }
    }
  }

  lemma Regroup(p: Pairs, q: Pairs, r: Pairs)
    ensures p + q + r == p + (q + r)
  {
  }

  /** One round of the backward walk retraces one round of the forward run: it
      pushes that round's matches and moves to the point the round came from. */
  method StepBack<T(==)>(a: seq<T>, b: seq<T>, vd: seq<int>, offset: int, d: int, x: int, y: int, pairs0: Pairs,
                         ghost h: nat, ghost v: nat)
    returns (prevX: int, prevY: int, pairs: Pairs, ghost h': nat, ghost v': nat)
    requires d == h + v && Stands(a, b, h, v, x, y)
    requires 1 <= offset + h - v && offset + h - v + 1 < |vd| && Partial(a, b, vd, offset, d, 0)
    ensures Trail(a, b, h, v) + Reversed(pairs0) == Lead(a, b, h, v) + Reversed(pairs)
    ensures d > 0 ==> h' + v' == d - 1 && Stands(a, b, h', v', prevX, prevY) && Lead(a, b, h, v) == Trail(a, b, h', v')
    ensures d == 0 ==> Lead(a, b, h, v) == []
  {
    prevX, prevY, h', v' := CameFrom(a, b, vd, offset, d, x - y, h, v);
    pairs := WalkRun(x, y, prevX, prevY, pairs0, h, v, Entry(a, b, h, v), Most(a, b, h, v));
    Regroup(Lead(a, b, h, v), Run(h, v, Entry(a, b, h, v), Most(a, b, h, v)), Reversed(pairs0));
  }

  /** The backward walk over the saved frontiers, from the corner. */
  method Backward<T(==)>(a: seq<T>, b: seq<T>, trace: seq<seq<int>>, ghost h0: nat, ghost v0: nat)
    returns (pairs: Pairs)
    requires |trace| == h0 + v0 + 1 && h0 + v0 <= |a| + |b| && Stands(a, b, h0, v0, |a|, |b|)
    requires forall d :: 0 <= d < |trace| ==>
      |trace[d]| == 2 * (|a| + |b|) + 3 && Partial(a, b, trace[d], |a| + |b| + 1, d, 0)
    ensures Reversed(pairs) == Trail(a, b, h0, v0)
  {
    var offset := |a| + |b| + 1;
    pairs := [];
    var x: int, y: int := |a|, |b|;
    var d := |trace| - 1;
    ghost var h: nat, v: nat, rest := h0, v0, Trail(a, b, h0, v0);
    ghost var all := rest;
    while d >= 0 && (x > 0 || y > 0)
      invariant -1 <= d < |trace|
      invariant d >= 0 ==> d == h + v && rest == Trail(a, b, h, v) && Stands(a, b, h, v, x, y)
      invariant d < 0 ==> rest == []
      invariant all == rest + Reversed(pairs)
      decreases d
    {
      rest := Lead(a, b, h, v);
      x, y, pairs, h, v := StepBack(a, b, trace[d], offset, d, x, y, pairs, h, v);
      d := d - 1;
    }
    if d >= 0 {
      TrailIsCommon(a, b, h, v);
    }
  }

  /** Lines 26 to 79: the pairs returned are exactly `Lcs(a, b)`. */
  method LcsPairs<T(==)>(a: seq<T>, b: seq<T>) returns (result: Pairs)
    ensures result == Lcs(a, b)
    ensures IsCommon(a, b, result)
    ensures forall p: Pairs :: IsCommon(a, b, p) ==> |p| <= |result|
  {
    var trace := Forward(a, b);
    var pairs := Backward(a, b, trace, |a| - Longest(a, b), |b| - Longest(a, b));
    result := Reversed(pairs);
    LcsIsLongest(a, b);
  }
}
