/**
  Unified diffs (agents/src/merge.ts, `unifiedDiff`): the edit script read off the
  matched pairs, and its hunks.
 */
module UnifiedDiff {
  import opened Lines
  import Myers

  datatype Kind = Keep | Drop | Take

  /** One output line, with its position in both texts. */
  datatype Op = Op(kind: Kind, line: Line, ai: nat, bi: nat)

  /** A hunk with the four numbers of its header. */
  datatype Hunk = Hunk(aStart: nat, aLen: nat, bStart: nat, bLen: nat, ops: seq<Op>)

  /** The lines an edit script reads (its context and "-" lines). */
  function Olds(ops: seq<Op>): (lines: seq<Line>)
  {
    if ops == [] then [] else Olds(ops[..|ops| - 1])
                              + (if ops[|ops| - 1].kind == Take then [] else [ops[|ops| - 1].line])
  }

  /** The lines an edit script writes (its context and "+" lines). */
  function News(ops: seq<Op>): (lines: seq<Line>)
  {
    if ops == [] then [] else News(ops[..|ops| - 1])
                              + (if ops[|ops| - 1].kind == Drop then [] else [ops[|ops| - 1].line])
  }

  /** Every op carries how many lines of either text come before it. */
  ghost predicate Numbered(ops: seq<Op>)
  {
    forall i :: 0 <= i < |ops| ==> ops[i].ai == |Olds(ops[..i])| && ops[i].bi == |News(ops[..i])|
  }

  function Kept(ops: seq<Op>): (n: nat)
  {
    if ops == [] then 0 else Kept(ops[..|ops| - 1]) + (if ops[|ops| - 1].kind == Keep then 1 else 0)
  }

  lemma Push(ops: seq<Op>, op: Op)
    ensures Olds(ops + [op]) == Olds(ops) + (if op.kind == Take then [] else [op.line])
    ensures News(ops + [op]) == News(ops) + (if op.kind == Drop then [] else [op.line])
    ensures Kept(ops + [op]) == Kept(ops) + (if op.kind == Keep then 1 else 0)
  {
    assert (ops + [op])[..|ops + [op]| - 1] == ops;
  }

  lemma PushNumbered(ops: seq<Op>, op: Op)
    requires Numbered(ops) && op.ai == |Olds(ops)| && op.bi == |News(ops)|
    ensures Numbered(ops + [op])
  {
    var ops' := ops + [op];
    forall i | 0 <= i < |ops'| ensures ops'[i].ai == |Olds(ops'[..i])| && ops'[i].bi == |News(ops'[..i])| {
      if i < |ops| {
        assert ops'[i] == ops[i] && ops'[..i] == ops[..i];
      } else {
        assert ops'[..i] == ops;
      }
    }
  }

  /** The script so far reads the first ai lines of `a` and writes the first bi of `b`. */
  ghost predicate Scripts(a: seq<Line>, b: seq<Line>, ops: seq<Op>, ai: int, bi: int)
  {
    0 <= ai <= |a| && 0 <= bi <= |b| && Olds(ops) == a[..ai] && News(ops) == b[..bi] && Numbered(ops)
  }

  lemma Extends(a: seq<Line>, i: nat)
    requires i < |a|
    ensures a[..i + 1] == a[..i] + [a[i]]
  {
  }

  lemma EmitOlds(a: seq<Line>, ops: seq<Op>, op: Op, ai: nat)
    requires ai <= |a| && Olds(ops) == a[..ai] && (op.kind != Take ==> ai < |a| && op.line == a[ai])
    ensures op.kind == Take ==> Olds(ops + [op]) == a[..ai]
    ensures op.kind != Take ==> Olds(ops + [op]) == a[..ai + 1]
  {
    Push(ops, op);
    if op.kind != Take { Extends(a, ai); }
  }

  lemma EmitNews(b: seq<Line>, ops: seq<Op>, op: Op, bi: nat)
    requires bi <= |b| && News(ops) == b[..bi] && (op.kind != Drop ==> bi < |b| && op.line == b[bi])
    ensures op.kind == Drop ==> News(ops + [op]) == b[..bi]
    ensures op.kind != Drop ==> News(ops + [op]) == b[..bi + 1]
  {
    Push(ops, op);
    if op.kind != Drop { Extends(b, bi); }
  }

  lemma EmitReads(a: seq<Line>, b: seq<Line>, ops: seq<Op>, op: Op, ai: nat, bi: nat)
    requires Scripts(a, b, ops, ai, bi) && op.ai == ai && op.bi == bi
    requires op.kind != Take ==> ai < |a| && op.line == a[ai]
    requires op.kind != Drop ==> bi < |b| && op.line == b[bi]
    ensures Scripts(a, b, ops + [op], if op.kind == Take then ai else ai + 1, if op.kind == Drop then bi else bi + 1)
  {
    EmitOlds(a, ops, op, ai);
    EmitNews(b, ops, op, bi);
    PushNumbered(ops, op);
  }

  /** Between two kept lines the dropped ones come before the taken ones. */
  ghost predicate DropsFirst(ops: seq<Op>)
  {
    forall i, j :: 0 <= i && j == i + 1 && j < |ops| && ops[i].kind == Take ==> ops[j].kind != Drop
  }

  predicate EndsIn(ops: seq<Op>, kind: Kind)
  {
    ops != [] && ops[|ops| - 1].kind == kind
  }

  lemma PushDropsFirst(ops: seq<Op>, op: Op)
    requires DropsFirst(ops) && (op.kind == Drop ==> !EndsIn(ops, Take))
    ensures DropsFirst(ops + [op]) && EndsIn(ops + [op], op.kind)
  {
    assert forall i :: 0 <= i < |ops| ==> (ops + [op])[i] == ops[i];
  }

  /** Pushes one op, whose line is the next of the texts it belongs to. */
  method Emit(a: seq<Line>, b: seq<Line>, ops0: seq<Op>, kind: Kind, ai: nat, bi: nat) returns (ops: seq<Op>)
    requires Scripts(a, b, ops0, ai, bi)
    requires kind != Take ==> ai < |a|
    requires kind != Drop ==> bi < |b|
    requires kind == Keep ==> a[ai] == b[bi]
    requires DropsFirst(ops0) && (kind == Drop ==> !EndsIn(ops0, Take))
    ensures DropsFirst(ops) && EndsIn(ops, kind)
    ensures Scripts(a, b, ops, if kind == Take then ai else ai + 1, if kind == Drop then bi else bi + 1)
    ensures Kept(ops) == Kept(ops0) + if kind == Keep then 1 else 0
  {
    var op := Op(kind, if kind == Take then b[bi] else a[ai], ai, bi);
    EmitReads(a, b, ops0, op, ai, bi);
    Push(ops0, op);
    PushDropsFirst(ops0, op);
    ops := ops0 + [op];
  }

  /** Lines 128 to 137: the script projects back to both texts, keeps exactly the matched
      lines, and drops before it takes. */
  method Script(a: seq<Line>, b: seq<Line>, pairs: Myers.Pairs) returns (ops: seq<Op>)
    requires Myers.IsCommon(a, b, pairs)
    ensures Olds(ops) == a && News(ops) == b && Numbered(ops) && Kept(ops) == |pairs|
    ensures DropsFirst(ops)
  {
    ops := [];
    var ai, bi := 0, 0;
    for i := 0 to |pairs|
      invariant Scripts(a, b, ops, ai, bi) && Kept(ops) == i && DropsFirst(ops) && !EndsIn(ops, Take)
      invariant i < |pairs| ==> ai <= pairs[i].0 && bi <= pairs[i].1
    {
      ops := Flush(a, b, ops, ai, bi, pairs[i].0, pairs[i].1);
      ops := Emit(a, b, ops, Keep, pairs[i].0, pairs[i].1);
      ai, bi := pairs[i].0 + 1, pairs[i].1 + 1;
    }
    ops := Flush(a, b, ops, ai, bi, |a|, |b|);
  }

  /** Lines 132 and 133: the dropped lines before a match, then the taken ones. */
  method Flush(a: seq<Line>, b: seq<Line>, ops0: seq<Op>, ai0: nat, bi0: nat, pa: nat, pb: nat) returns (ops: seq<Op>)
    requires ai0 <= pa <= |a| && bi0 <= pb <= |b| && Scripts(a, b, ops0, ai0, bi0)
    requires DropsFirst(ops0) && !EndsIn(ops0, Take)
    ensures Scripts(a, b, ops, pa, pb) && Kept(ops) == Kept(ops0) && DropsFirst(ops)
  {
    ops := ops0;
    var ai, bi := ai0, bi0;
    while ai < pa
      invariant ai0 <= ai <= pa && Scripts(a, b, ops, ai, bi) && Kept(ops) == Kept(ops0)
      invariant DropsFirst(ops) && !EndsIn(ops, Take)
    {
      ops := Emit(a, b, ops, Drop, ai, bi);
      ai := ai + 1;
    }
    while bi < pb
      invariant bi0 <= bi <= pb && Scripts(a, b, ops, ai, bi) && Kept(ops) == Kept(ops0) && DropsFirst(ops)
    {
      ops := Emit(a, b, ops, Take, ai, bi);
      bi := bi + 1;
    }
  }

  // ---------- Hunks ----------

  /** Half-open range of ops. */
  type Span = (nat, nat)

  /** ops[lo..hi] as a hunk, with the header the source prints. */
  function HunkAt(ops: seq<Op>, lo: nat, hi: nat): (h: Hunk)
    requires lo < hi <= |ops|
  {
    Hunk(ops[lo].ai + 1, |Olds(ops[lo..hi])|, ops[lo].bi + 1, |News(ops[lo..hi])|, ops[lo..hi])
  }

  ghost predicate AllKept(ops: seq<Op>, lo: nat, hi: nat)
    requires hi <= |ops|
  {
    forall i :: lo <= i < hi ==> ops[i].kind == Keep
  }

  /** The hunks are the given slices of the script, in order and without overlap,
      and no changed op before `upto` lies outside them. */
  ghost predicate Tiles(ops: seq<Op>, spans: seq<Span>, hunks: seq<Hunk>, upto: nat)
    requires upto <= |ops|
    decreases |spans|
  {
    if spans == [] then hunks == [] && AllKept(ops, 0, upto)
    else
      var n := |spans| - 1;
      var (lo, hi) := spans[n];
      && |hunks| == n + 1 && lo < hi <= upto && hunks[n] == HunkAt(ops, lo, hi)
      && AllKept(ops, hi, upto) && Tiles(ops, spans[..n], hunks[..n], lo)
  }

  /** Hunk j shows `context` ops before its first and after its last change, as far
      as the script goes, and every two hunks' changes are more than that apart. */
  ghost predicate Framed(ops: seq<Op>, spans: seq<Span>, context: nat)
  {
    forall j :: 0 <= j < |spans| ==> FramedSpan(ops, spans[j], context)
  }

  /** From a change to the next one of the hunk it is at most twice the context. */
  ghost predicate Close(ops: seq<Op>, first: nat, last: nat, context: nat)
    requires last < |ops|
  {
    forall i :: first <= i < last && ops[i].kind != Keep ==> ChangesWithin(ops, i, last, context)
  }

  ghost predicate ChangesWithin(ops: seq<Op>, i: nat, last: nat, context: nat)
    requires last < |ops|
  {
    exists j :: i < j <= last && j - i <= context * 2 && ops[j].kind != Keep
  }

  ghost predicate FramedSpan(ops: seq<Op>, span: Span, context: nat)
  {
    exists first: nat, last: nat :: first <= last < |ops| && ops[first].kind != Keep && ops[last].kind != Keep
      && span.0 == Before(first, context) && span.1 == After(last, context, |ops|) && Close(ops, first, last, context)
      && (span.1 <= |ops| ==> AllKept(ops, span.0, first) && AllKept(ops, last + 1, span.1))
  }

  /** The context before a change, within the script. */
  function Before(change: nat, context: nat): (lo: nat)
  {
    if change < context then 0 else change - context
  }

  /** The end of the context after the last change, within the script. */
  function After(last: nat, context: nat, n: nat): (hi: nat)
  {
    if n < last + context + 1 then n else last + context + 1
  }

  /** The indices of the changed ops among the first n, in order. */
  ghost predicate IsChanges(ops: seq<Op>, cs: seq<nat>, n: nat)
    requires n <= |ops|
  {
    && (forall i :: 0 <= i < |cs| ==> cs[i] < n && ops[cs[i]].kind != Keep)
    && (forall i, j :: 0 <= i < j < |cs| ==> cs[i] < cs[j])
    && (forall i :: 0 <= i < n && ops[i].kind != Keep ==> i in cs)
  }

  /** Line 139. */
  method Changes(ops: seq<Op>) returns (cs: seq<nat>)
    ensures IsChanges(ops, cs, |ops|)
  {
    cs := [];
    for i := 0 to |ops|
      invariant IsChanges(ops, cs, i)
    {
      if ops[i].kind != Keep {
        cs := cs + [i];
      }
    }
  }

  /** Between two neighbouring changes every op is kept. */
  lemma {:induction false} KeptBetween(ops: seq<Op>, changes: seq<nat>, c: nat, lo: nat, hi: nat)
    requires IsChanges(ops, changes, |ops|) && c <= |changes| && hi <= |ops|
    requires forall i :: 0 <= i < c ==> changes[i] < lo
    requires forall i :: c <= i < |changes| ==> hi <= changes[i]
    ensures AllKept(ops, lo, hi)
  {
    forall i | lo <= i < hi ensures ops[i].kind == Keep {
      assert i !in changes;
    }
  }

  /** Of the changes c to next - 1 each is in reach of the one before. */
  ghost predicate InReach(changes: seq<nat>, c: nat, next: nat, context: nat)
    requires next <= |changes|
  {
    forall i, j :: c <= i && j == i + 1 && j < next ==> changes[j] - changes[i] <= context * 2
  }

  /** Lines 143 to 148: the last of the changes grouped with change c, and the next
      change after them. */
  method Group(changes: seq<nat>, context: nat, c: nat) returns (last: nat, next: nat)
    requires c < |changes|
    ensures c < next <= |changes| && last == changes[next - 1]
    ensures next < |changes| ==> changes[next] - last > context * 2
    ensures InReach(changes, c, next, context)
  {
    last := changes[c];
    next := c + 1;
    while next < |changes| && changes[next] - last <= context * 2
      invariant c < next <= |changes| && last == changes[next - 1]
      invariant InReach(changes, c, next, context)
    {
      last := changes[next];
      next := next + 1;
    }
  }

  /** The changes c to next - 1 make one framed span that starts after the last one. */
  lemma {:induction false} NextSpan(ops: seq<Op>, context: nat, changes: seq<nat>, c: nat, next: nat, end: nat)
    requires IsChanges(ops, changes, |ops|) && c < next <= |changes|
    requires end <= Before(changes[c], context)
    requires forall i :: 0 <= i < c ==> changes[i] < end
    requires next < |changes| ==> changes[next] - changes[next - 1] > context * 2
    requires InReach(changes, c, next, context)
    ensures var lo, hi := Before(changes[c], context), After(changes[next - 1], context, |ops|);
      && lo < hi && AllKept(ops, end, lo) && FramedSpan(ops, (lo, hi), context)
      && (next < |changes| ==> hi <= Before(changes[next], context))
      && (forall i :: 0 <= i < next ==> changes[i] < hi)
  {
    SpanBounds(ops, context, changes, c, next);
    KeptBefore(ops, context, changes, c, end);
    FramesGroup(ops, context, changes, c, next);
  }

  lemma SpanBounds(ops: seq<Op>, context: nat, changes: seq<nat>, c: nat, next: nat)
    requires IsChanges(ops, changes, |ops|) && c < next <= |changes|
    requires next < |changes| ==> changes[next] - changes[next - 1] > context * 2
    ensures var lo, hi := Before(changes[c], context), After(changes[next - 1], context, |ops|);
      && lo < hi && (next < |changes| ==> hi <= Before(changes[next], context))
      && (forall i :: 0 <= i < next ==> changes[i] < hi)
  {
    assert forall i :: 0 <= i < next ==> changes[i] <= changes[next - 1];
  }

  lemma KeptBefore(ops: seq<Op>, context: nat, changes: seq<nat>, c: nat, end: nat)
    requires IsChanges(ops, changes, |ops|) && c < |changes| && forall i :: 0 <= i < c ==> changes[i] < end
    ensures AllKept(ops, end, Before(changes[c], context))
  {
    KeptBetween(ops, changes, c, end, Before(changes[c], context));
  }

  lemma FramesGroup(ops: seq<Op>, context: nat, changes: seq<nat>, c: nat, next: nat)
    requires IsChanges(ops, changes, |ops|) && c < next <= |changes| && InReach(changes, c, next, context)
    requires c > 0 ==> changes[c - 1] < Before(changes[c], context)
    requires next < |changes| ==> changes[next] - changes[next - 1] > context * 2
    ensures FramedSpan(ops, (Before(changes[c], context), After(changes[next - 1], context, |ops|)), context)
  {
    KeptUpTo(ops, context, changes, c);
    KeptAfter(ops, context, changes, next);
    GroupIsClose(ops, context, changes, c, next);
    assert changes[c] <= changes[next - 1];
    MakesFrame(ops, changes[c], changes[next - 1], context);
  }

  lemma KeptUpTo(ops: seq<Op>, context: nat, changes: seq<nat>, c: nat)
    requires IsChanges(ops, changes, |ops|) && c < |changes|
    requires c > 0 ==> changes[c - 1] < Before(changes[c], context)
    ensures AllKept(ops, Before(changes[c], context), changes[c])
  {
    assert forall i :: 0 <= i < c ==> changes[i] <= changes[c - 1];
    KeptBetween(ops, changes, c, Before(changes[c], context), changes[c]);
  }

  lemma KeptAfter(ops: seq<Op>, context: nat, changes: seq<nat>, next: nat)
    requires IsChanges(ops, changes, |ops|) && 0 < next <= |changes|
    requires next < |changes| ==> changes[next] - changes[next - 1] > context * 2
    ensures AllKept(ops, changes[next - 1] + 1, After(changes[next - 1], context, |ops|))
  {
    assert forall i :: 0 <= i < next ==> changes[i] <= changes[next - 1];
    assert forall i :: next <= i < |changes| ==> changes[next] <= changes[i];
    KeptBetween(ops, changes, next, changes[next - 1] + 1, After(changes[next - 1], context, |ops|));
  }

  lemma MakesFrame(ops: seq<Op>, first: nat, last: nat, context: nat)
    requires first <= last < |ops| && ops[first].kind != Keep && ops[last].kind != Keep
    requires Close(ops, first, last, context)
    requires AllKept(ops, Before(first, context), first) && AllKept(ops, last + 1, After(last, context, |ops|))
    ensures FramedSpan(ops, (Before(first, context), After(last, context, |ops|)), context)
  {
  }

  lemma GroupIsClose(ops: seq<Op>, context: nat, changes: seq<nat>, c: nat, next: nat)
    requires IsChanges(ops, changes, |ops|) && c < next <= |changes|
    requires InReach(changes, c, next, context)
    ensures Close(ops, changes[c], changes[next - 1], context)
  {
    var first, last := changes[c], changes[next - 1];
    forall i | first <= i < last && ops[i].kind != Keep
      ensures ChangesWithin(ops, i, last, context)
    {
      var k :| 0 <= k < |changes| && changes[k] == i;
      assert c <= k < next - 1;
      var j := k + 1;
      assert changes[j] - changes[k] <= context * 2;
      assert k + 1 == next - 1 || changes[k + 1] < changes[next - 1];
      assert ops[changes[k + 1]].kind != Keep;
    }
  }

  /** The hunks are slices of the script, without overlap, that hold every change, each
      framed by its context. */
  ghost predicate AreHunks(ops: seq<Op>, hunks: seq<Hunk>, context: nat)
  {
    exists spans :: Tiles(ops, spans, hunks, |ops|) && Framed(ops, spans, context)
  }

  /** Lines 139 to 155. */
  method Hunks(ops: seq<Op>, context: nat) returns (hunks: seq<Hunk>)
    ensures AreHunks(ops, hunks, context)
  {
    hunks := [];
    ghost var spans: seq<Span> := [];
    var changes := Changes(ops);
    var c := 0;
    ghost var end: nat := 0;
    while c < |changes|
      invariant 0 <= c <= |changes| && end <= |ops|
      invariant c < |changes| ==> end <= Before(changes[c], context)
      invariant forall i :: 0 <= i < c ==> changes[i] < end
      invariant Tiles(ops, spans, hunks, end) && Framed(ops, spans, context)
    {
      var last, next := Group(changes, context, c);
      var lo, hi := Before(changes[c], context), After(last, context, |ops|);
      NextSpan(ops, context, changes, c, next, end);
      ExtendTiles(ops, spans, hunks, end, lo);
      hunks, spans := AddHunk(ops, hunks, spans, lo, hi, context);
      end := hi;
      c := next;
    }
    KeptBetween(ops, changes, |changes|, end, |ops|);
    ExtendTiles(ops, spans, hunks, end, |ops|);
  }

  method AddHunk(ops: seq<Op>, hunks0: seq<Hunk>, ghost spans0: seq<Span>, lo: nat, hi: nat, ghost context: nat)
    returns (hunks: seq<Hunk>, ghost spans: seq<Span>)
    requires lo < hi <= |ops| && Tiles(ops, spans0, hunks0, lo)
    requires Framed(ops, spans0, context) && FramedSpan(ops, (lo, hi), context)
    ensures hunks == hunks0 + [HunkAt(ops, lo, hi)] && spans == spans0 + [(lo, hi)]
    ensures Tiles(ops, spans, hunks, hi) && Framed(ops, spans, context)
  {
    hunks, spans := hunks0 + [HunkAt(ops, lo, hi)], spans0 + [(lo, hi)];
    assert |hunks0| == |spans0|;
    assert spans[..|spans0|] == spans0 && hunks[..|spans0|] == hunks0;
  }

  lemma {:induction false} ExtendTiles(ops: seq<Op>, spans: seq<Span>, hunks: seq<Hunk>, end: nat, upto: nat)
    requires end <= upto <= |ops| && Tiles(ops, spans, hunks, end) && AllKept(ops, end, upto)
    ensures Tiles(ops, spans, hunks, upto)
  {
  }

  // ---------- The hunks are a patch ----------

  /** Applying hunks by their headers: the lines written so far and how many lines
      of `before` they consumed.  A header's start is read as one more than the lines
      before the hunk, as line 152 of merge.ts prints it, also where the hunk has no old
      line; the unified format prints the line before instead, so a header agrees with
      that format exactly when both its lengths are positive. */
  function Applied(before: seq<Line>, hunks: seq<Hunk>): (r: (seq<Line>, nat))
  {
    if hunks == [] then ([], 0)
    else
      var h := hunks[|hunks| - 1];
      var (out, pos) := Applied(before, hunks[..|hunks| - 1]);
      (out + Slice(before, pos, h.aStart - 1) + News(h.ops), if h.aStart == 0 then 0 else h.aStart - 1 + h.aLen)
  }

  function Slice(s: seq<Line>, lo: int, hi: int): (r: seq<Line>)
  {
    if 0 <= lo <= hi <= |s| then s[lo..hi] else []
  }

  /** The text the hunks make of `before`, their headers read in that way. */
  function Patch(before: seq<Line>, hunks: seq<Hunk>): (after: seq<Line>)
  {
    Applied(before, hunks).0 + Slice(before, Applied(before, hunks).1, |before|)
  }

  lemma {:induction false} Concat(x: seq<Op>, y: seq<Op>)
    ensures Olds(x + y) == Olds(x) + Olds(y) && News(x + y) == News(x) + News(y)
    decreases |y|
  {
    if y == [] {
      assert x + y == x;
    } else {
      assert (x + y)[..|x + y| - 1] == x + y[..|y| - 1];
      Concat(x, y[..|y| - 1]);
    }
  }

  lemma {:induction false} KeptReadsAndWrites(ops: seq<Op>)
    requires AllKept(ops, 0, |ops|)
    ensures Olds(ops) == News(ops)
  {
    if ops != [] { KeptReadsAndWrites(ops[..|ops| - 1]); }
  }

  /** How a slice of the script reads and writes, in terms of the prefixes. */
  lemma {:induction false} SliceReads(ops: seq<Op>, lo: nat, hi: nat)
    requires lo <= hi <= |ops|
    ensures |Olds(ops[..hi])| <= |Olds(ops)| && |Olds(ops[..hi])| == |Olds(ops[..lo])| + |Olds(ops[lo..hi])|
    ensures Olds(ops)[|Olds(ops[..lo])|..|Olds(ops[..hi])|] == Olds(ops[lo..hi])
    ensures News(ops[..hi]) == News(ops[..lo]) + News(ops[lo..hi])
  {
    assert ops[..hi] == ops[..lo] + ops[lo..hi];
    Concat(ops[..lo], ops[lo..hi]);
    assert ops == ops[..hi] + ops[hi..];
    Concat(ops[..hi], ops[hi..]);
  }

  /** What has been applied, once the kept lines up to line `upto` are copied. */
  ghost predicate AppliedTo(before: seq<Line>, hunks: seq<Hunk>, upto: nat, after: seq<Line>)
  {
    var (out, pos) := Applied(before, hunks);
    pos <= upto <= |before| && out + before[pos..upto] == after
  }

  lemma {:induction false} ApplyLast(before: seq<Line>, hunks: seq<Hunk>, lo: nat, after: seq<Line>, hi: nat, upto: nat)
    requires hunks != [] && AppliedTo(before, hunks[..|hunks| - 1], lo, after)
    requires hunks[|hunks| - 1].aStart == lo + 1 && lo + hunks[|hunks| - 1].aLen == hi <= upto <= |before|
    ensures AppliedTo(before, hunks, upto, after + News(hunks[|hunks| - 1].ops) + before[hi..upto])
  {
  }

  lemma {:induction false} TilesApply(ops: seq<Op>, spans: seq<Span>, hunks: seq<Hunk>, upto: nat)
    requires upto <= |ops| && Numbered(ops) && Tiles(ops, spans, hunks, upto)
    ensures AppliedTo(Olds(ops), hunks, |Olds(ops[..upto])|, News(ops[..upto]))
    decreases |spans|
  {
    if spans == [] {
      SliceReads(ops, 0, upto);
      assert ops[0..upto] == ops[..upto];
      KeptReadsAndWrites(ops[..upto]);
    } else {
      var n := |spans| - 1;
      var (lo, hi) := spans[n];
      TilesApply(ops, spans[..n], hunks[..n], lo);
      SliceReads(ops, lo, hi);
      SliceReads(ops, hi, upto);
      KeptReadsAndWrites(ops[hi..upto]);
      ApplyLast(Olds(ops), hunks, |Olds(ops[..lo])|, News(ops[..lo]), |Olds(ops[..hi])|, |Olds(ops[..upto])|);
    }
  }

  /** Replacing each hunk's old line range in the before text gives the after text. */
  lemma {:induction false} HunksArePatch(ops: seq<Op>, spans: seq<Span>, hunks: seq<Hunk>)
    requires Numbered(ops) && Tiles(ops, spans, hunks, |ops|)
    ensures Patch(Olds(ops), hunks) == News(ops)
  {
    TilesApply(ops, spans, hunks, |ops|);
    assert ops[..|ops|] == ops;
  }

  // ---------- The reverse patch ----------

  function Reverse(op: Op): Op
  {
    Op(match op.kind case Keep => Keep case Drop => Take case Take => Drop, op.line, op.bi, op.ai)
  }

  function ReverseAll(ops: seq<Op>): (r: seq<Op>)
    ensures |r| == |ops| && forall i :: 0 <= i < |ops| ==> r[i] == Reverse(ops[i])
  {
    seq(|ops|, (i: nat) requires i < |ops| => Reverse(ops[i]))
  }

  function ReverseHunk(h: Hunk): Hunk
  {
    Hunk(h.bStart, h.bLen, h.aStart, h.aLen, ReverseAll(h.ops))
  }

  function ReverseHunks(hunks: seq<Hunk>): (r: seq<Hunk>)
    ensures |r| == |hunks| && forall i :: 0 <= i < |hunks| ==> r[i] == ReverseHunk(hunks[i])
  {
    seq(|hunks|, (i: nat) requires i < |hunks| => ReverseHunk(hunks[i]))
  }

  lemma {:induction false} ReverseReads(ops: seq<Op>)
    ensures Olds(ReverseAll(ops)) == News(ops) && News(ReverseAll(ops)) == Olds(ops)
  {
    if ops != [] {
      assert ReverseAll(ops)[..|ops| - 1] == ReverseAll(ops[..|ops| - 1]);
      ReverseReads(ops[..|ops| - 1]);
    }
  }

  lemma {:induction false} ReverseNumbered(ops: seq<Op>)
    requires Numbered(ops)
    ensures Numbered(ReverseAll(ops))
  {
    forall i | 0 <= i < |ops|
      ensures ReverseAll(ops)[i].ai == |Olds(ReverseAll(ops)[..i])|
      ensures ReverseAll(ops)[i].bi == |News(ReverseAll(ops)[..i])|
    {
      assert ReverseAll(ops)[..i] == ReverseAll(ops[..i]);
      ReverseReads(ops[..i]);
    }
  }

  lemma {:induction false} ReverseTiles(ops: seq<Op>, spans: seq<Span>, hunks: seq<Hunk>, upto: nat)
    requires upto <= |ops| && Tiles(ops, spans, hunks, upto)
    ensures Tiles(ReverseAll(ops), spans, ReverseHunks(hunks), upto)
    decreases |spans|
  {
    if spans != [] {
      var n := |spans| - 1;
      var (lo, hi) := spans[n];
      ReverseTiles(ops, spans[..n], hunks[..n], lo);
      ReverseReads(ops[lo..hi]);
      assert ReverseAll(ops)[lo..hi] == ReverseAll(ops[lo..hi]);
      assert ReverseHunks(hunks)[..n] == ReverseHunks(hunks[..n]);
    }
  }

  /** The hunks read backwards take the after text to the before text. */
  lemma {:induction false} HunksReverse(ops: seq<Op>, spans: seq<Span>, hunks: seq<Hunk>)
    requires Numbered(ops) && Tiles(ops, spans, hunks, |ops|)
    ensures Patch(News(ops), ReverseHunks(hunks)) == Olds(ops)
  {
    ReverseReads(ops);
    ReverseNumbered(ops);
    ReverseTiles(ops, spans, hunks, |ops|);
    HunksArePatch(ReverseAll(ops), spans, ReverseHunks(hunks));
  }

  // ---------- The script is shortest ----------

  /** The matches behind the kept lines of a script. */
  function Matches(ops: seq<Op>): (p: Myers.Pairs)
  {
    if ops == [] then []
    else
      var pre := ops[..|ops| - 1];
      Matches(pre) + if ops[|ops| - 1].kind == Keep then [(|Olds(pre)|, |News(pre)|)] else []
  }

  lemma {:induction false} MatchesAreCommon(ops: seq<Op>)
    ensures Myers.IsCommon(Olds(ops), News(ops), Matches(ops)) && |Matches(ops)| == Kept(ops)
  {
    if ops != [] { MatchesAreCommon(ops[..|ops| - 1]); }
  }

  /** No script between the same texts keeps more lines. */
  lemma {:induction false} ScriptIsShortest(ops: seq<Op>, other: seq<Op>)
    requires Kept(ops) == |Myers.Lcs(Olds(ops), News(ops))|
    requires Olds(other) == Olds(ops) && News(other) == News(ops)
    ensures Kept(other) <= Kept(ops)
  {
    MatchesAreCommon(other);
    Myers.LcsIsLongest(Olds(ops), News(ops));
  }

  /** The hunks of a shortest script from one text to the other, which drops before it takes. */
  ghost predicate AreShortest(a: seq<Line>, b: seq<Line>, hunks: seq<Hunk>, context: nat)
  {
    exists ops ::
      && Olds(ops) == a && News(ops) == b && Kept(ops) == |Myers.Lcs(a, b)| && DropsFirst(ops)
      && AreHunks(ops, hunks, context)
  }

  /** `unifiedDiff` up to rendering: the hunks of a shortest script, which are a patch both
      ways. */
  method Diff(before: string, after: string, context: nat) returns (hunks: seq<Hunk>)
    ensures AreShortest(SplitLines(before), SplitLines(after), hunks, context)
    ensures Patch(SplitLines(before), hunks) == SplitLines(after)
    ensures Patch(SplitLines(after), ReverseHunks(hunks)) == SplitLines(before)
    ensures before == after <==> hunks == []
  {
    var a, b := SplitLines(before), SplitLines(after);
    var pairs := Myers.LcsPairs(a, b);
    var ops := Script(a, b, pairs);
    hunks := Hunks(ops, context);
    HunksPatch(ops, hunks, context);
    JoinSplit(before);
    JoinSplit(after);
  }

  lemma HunksPatch(ops: seq<Op>, hunks: seq<Hunk>, context: nat)
    requires Numbered(ops) && AreHunks(ops, hunks, context) && Kept(ops) == |Myers.Lcs(Olds(ops), News(ops))|
    ensures Patch(Olds(ops), hunks) == News(ops) && Patch(News(ops), ReverseHunks(hunks)) == Olds(ops)
    ensures Olds(ops) == News(ops) <==> hunks == []
  {
    var spans :| Tiles(ops, spans, hunks, |ops|) && Framed(ops, spans, context);
    HunksArePatch(ops, spans, hunks);
    HunksReverse(ops, spans, hunks);
    NoHunks(ops, spans, hunks, context);
  }

  lemma {:induction false} KeptCounts(ops: seq<Op>)
    ensures Kept(ops) <= |Olds(ops)| && Kept(ops) <= |News(ops)|
    ensures Kept(ops) == |Olds(ops)| == |News(ops)| ==> AllKept(ops, 0, |ops|)
  {
    if ops != [] {
      var n, before := |ops| - 1, ops[..|ops| - 1];
      KeptCounts(before);
      assert AllKept(before, 0, n) && ops[n].kind == Keep ==> AllKept(ops, 0, |ops|) by {
        assert forall i :: 0 <= i < n ==> ops[i] == before[i];
      }
    }
  }

  /** A text has all its lines in common with itself. */
  lemma SelfLcs(a: seq<Line>)
    ensures |Myers.Lcs(a, a)| >= |a|
  {
    var id := seq(|a|, (i: nat) => (i, i));
    assert Myers.IsCommon(a, a, id);
    Myers.LcsIsLongest(a, a);
  }

  /** A shortest script changes nothing exactly when the texts are equal. */
  lemma {:induction false} NoHunks(ops: seq<Op>, spans: seq<Span>, hunks: seq<Hunk>, context: nat)
    requires Tiles(ops, spans, hunks, |ops|) && Framed(ops, spans, context)
    requires Kept(ops) == |Myers.Lcs(Olds(ops), News(ops))|
    ensures hunks == [] <==> Olds(ops) == News(ops)
  {
    if hunks == [] {
      KeptReadsAndWrites(ops);
    } else {
      assert FramedSpan(ops, spans[0], context);
      if Olds(ops) == News(ops) {
        SelfLcs(Olds(ops));
        KeptCounts(ops);
      }
    }
  }
}
