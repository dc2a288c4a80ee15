/**
  Choosing the entries of a stack (service/changeset_stack.go): a changeset with all that
  builds on it, or that and its siblings with all that builds on them.
 */
module StackSelect {
  import opened Options

  datatype Id = Id(text: string)

  /** An entry of a stack; a root has no parent. */
  datatype Entry = Entry(id: Id, parent: Option<Id>, needsRestack: bool)

  // ---------- Reachability ----------

  ghost predicate Builds(stack: seq<Entry>, parent: Id, id: Id)
  {
    exists i :: 0 <= i < |stack| && stack[i].id == id && stack[i].parent == Some(parent)
  }

  ghost predicate Chain(stack: seq<Entry>, chain: seq<Id>)
  {
    |chain| > 0 && forall i :: 0 < i < |chain| ==> Builds(stack, chain[i - 1], chain[i])
  }

  /** The changeset is the root or builds on it, by any number of parent links. */
  ghost predicate Reachable(stack: seq<Entry>, root: Id, id: Id)
  {
    exists chain :: Chain(stack, chain) && chain[0] == root && chain[|chain| - 1] == id
  }

  /** The entries of these changesets, in stack order. */
  function InStackOrder(stack: seq<Entry>, ids: set<Id>): (out: seq<Entry>)
  {
    if stack == [] then []
    else (if stack[0].id in ids then [stack[0]] else []) + InStackOrder(stack[1..], ids)
  }

  lemma RootIsReachable(stack: seq<Entry>, root: Id)
    ensures Reachable(stack, root, root)
  {
    assert Chain(stack, [root]);
  }

  lemma ChildIsReachable(stack: seq<Entry>, root: Id, parent: Id, id: Id)
    requires Reachable(stack, root, parent) && Builds(stack, parent, id)
    ensures Reachable(stack, root, id)
  {
    var chain :| Chain(stack, chain) && chain[0] == root && chain[|chain| - 1] == parent;
    assert Chain(stack, chain + [id]);
  }

  /** The set has every child of its changesets. */
  ghost predicate HasChildren(stack: seq<Entry>, ids: set<Id>)
  {
    forall i :: 0 <= i < |stack| && stack[i].parent.Some? && stack[i].parent.value in ids ==> stack[i].id in ids
  }

  lemma {:induction false} ChainStays(stack: seq<Entry>, chain: seq<Id>, ids: set<Id>)
    requires Chain(stack, chain) && chain[0] in ids && HasChildren(stack, ids)
    ensures chain[|chain| - 1] in ids
  {
    if |chain| > 1 {
      assert Builds(stack, chain[0], chain[1]);
      var rest := chain[1..];
      assert forall i :: 0 <= i < |rest| ==> rest[i] == chain[i + 1];
      ChainStays(stack, rest, ids);
    }
  }

  lemma ReachableStays(stack: seq<Entry>, root: Id, ids: set<Id>)
    requires root in ids && HasChildren(stack, ids)
    ensures forall id :: Reachable(stack, root, id) ==> id in ids
  {
    forall id | Reachable(stack, root, id)
      ensures id in ids
    {
      var chain :| Chain(stack, chain) && chain[0] == root && chain[|chain| - 1] == id;
      ChainStays(stack, chain, ids);
    }
  }

  // ---------- The fixpoint loop ----------

  function Ids(stack: seq<Entry>): set<Id>
  {
    set i | 0 <= i < |stack| :: stack[i].id
  }

  /** One pass of the inner loop, lines 544 to 555. */
  method Pass(stack: seq<Entry>, root: Id, before: set<Id>) returns (after: set<Id>, changed: bool)
    requires root in before && before <= Ids(stack) + {root}
    requires forall id :: id in before ==> Reachable(stack, root, id)
    ensures before <= after <= Ids(stack) + {root}
    ensures forall id :: id in after ==> Reachable(stack, root, id)
    ensures changed ==> |before| < |after|
    ensures !changed ==> after == before && HasChildren(stack, before)
  {
    after, changed := before, false;
    for i := 0 to |stack|
      invariant before <= after <= Ids(stack) + {root}
      invariant forall id :: id in after ==> Reachable(stack, root, id)
      invariant changed <==> after != before
      invariant !changed ==> forall j :: 0 <= j < i && stack[j].parent.Some? && stack[j].parent.value in before ==>
        stack[j].id in before
    {
      var entry := stack[i];
      if entry.id !in after && entry.parent.Some? && entry.parent.value in after {
        assert Builds(stack, entry.parent.value, entry.id);
        ChildIsReachable(stack, root, entry.parent.value, entry.id);
        after := after + {entry.id};
        changed := true;
      }
    }
    Grows(before, after);
  }

  lemma Grows(before: set<Id>, after: set<Id>)
    requires before <= after
    ensures before != after ==> |before| < |after|
  {
    assert after == before + (after - before);
  }

  /** Lines 540 to 556: what builds on the root, in any stack, cycles of parent links
      included. */
  method Descendants(stack: seq<Entry>, root: Id) returns (below: set<Id>)
    ensures forall id :: id in below <==> Reachable(stack, root, id)
  {
    below := {root};
    RootIsReachable(stack, root);
    var changed := true;
    while changed
      invariant root in below && below <= Ids(stack) + {root}
      invariant forall id :: id in below ==> Reachable(stack, root, id)
      invariant !changed ==> HasChildren(stack, below)
      decreases changed, |Ids(stack) + {root}| - |below|
    {
      var before := below;
      below, changed := Pass(stack, root, before);
      Fits(below, Ids(stack) + {root});
    }
    ReachableStays(stack, root, below);
  }

  lemma Fits(s: set<Id>, t: set<Id>)
    requires s <= t
    ensures |s| <= |t|
  {
    assert t == s + (t - s);
  }

  /** The entries of the chosen changesets, lines 557 to 563. */
  method Keep(stack: seq<Entry>, ids: set<Id>) returns (out: seq<Entry>)
    ensures out == InStackOrder(stack, ids)
  {
    out := [];
    for i := 0 to |stack|
      invariant out + InStackOrder(stack[i..], ids) == InStackOrder(stack, ids)
    {
      assert stack[i..][1..] == stack[i + 1..];
      if stack[i].id in ids {
        out := out + [stack[i]];
      }
    }
  }

  /** `selectedStackEntries`: all entries without a root; else, in stack order, exactly the
      root and what builds on it. */
  method Selected(stack: seq<Entry>, root: Option<Id>) returns (out: seq<Entry>, ghost below: set<Id>)
    ensures root.None? ==> out == stack
    ensures root.Some? ==>
      out == InStackOrder(stack, below) && forall id :: id in below <==> Reachable(stack, root.value, id)
  {
    if root.None? {
      return stack, {};
    }
    var ids := Descendants(stack, root.value);
    out := Keep(stack, ids);
    below := ids;
  }

  // ---------- With siblings ----------

  /** `stackEntryByID`: the first entry of the changeset. */
  function EntryOf(stack: seq<Entry>, id: Id): (e: Option<Entry>)
    ensures e.Some? ==> e.value in stack && e.value.id == id
    ensures e.None? ==> id !in Ids(stack)
  {
    if stack == [] then None else if stack[0].id == id then Some(stack[0]) else EntryOf(stack[1..], id)
  }

  /** The changeset is, or builds on, one of the first n entries with this parent. */
  ghost predicate UnderSibling(stack: seq<Entry>, parent: Option<Id>, n: nat, id: Id)
  {
    exists i :: 0 <= i < n && i < |stack| && stack[i].parent == parent && Reachable(stack, stack[i].id, id)
  }

  /** A restack from `start` takes the changeset: it is or builds on it or, with siblings, on a
      changeset with the start's parent; with siblings, nothing when the start is not there. */
  ghost predicate Chosen(stack: seq<Entry>, start: Id, includeSiblings: bool, id: Id)
  {
    if !includeSiblings then Reachable(stack, start, id)
    else EntryOf(stack, start).Some? && UnderSibling(stack, EntryOf(stack, start).value.parent, |stack|, id)
  }

  /** What is selected for a restack: the whole stack, or what is chosen, in stack order. */
  ghost predicate ForRestack(stack: seq<Entry>, start: Option<Id>, includeSiblings: bool, out: seq<Entry>)
  {
    if start.None? then out == stack
    else exists ids :: out == InStackOrder(stack, ids) && forall id :: id in ids <==>
      Chosen(stack, start.value, includeSiblings, id)
  }

  lemma {:induction false} NoneInOrder(stack: seq<Entry>)
    ensures InStackOrder(stack, {}) == []
    decreases |stack|
  {
    if stack != [] { NoneInOrder(stack[1..]); }
  }

  /** `selectedRestackEntries`: with siblings, in stack order, exactly what is or builds on a
      changeset with the start's parent, and nothing when the start is not in the stack. */
  method SelectedForRestack(stack: seq<Entry>, start: Option<Id>, includeSiblings: bool)
    returns (out: seq<Entry>, ghost below: set<Id>)
    ensures start.None? ==> out == stack
    ensures start.Some? && !includeSiblings ==>
      out == InStackOrder(stack, below) && forall id :: id in below <==> Reachable(stack, start.value, id)
    ensures start.Some? && includeSiblings && EntryOf(stack, start.value).None? ==> out == []
    ensures start.Some? && includeSiblings && EntryOf(stack, start.value).Some? ==>
      out == InStackOrder(stack, below)
      && forall id :: id in below <==> UnderSibling(stack, EntryOf(stack, start.value).value.parent, |stack|, id)
    ensures ForRestack(stack, start, includeSiblings, out)
  {
    if start.None? || !includeSiblings {
      out, below := Selected(stack, start);
      return;
    }
    var first := EntryOf(stack, start.value);
    if first.None? {
      NoneInOrder(stack);
      return [], {};
    }
    var seen: set<Id> := {};
    var parent := first.value.parent;
    for i := 0 to |stack|
      invariant forall id :: id in seen <==> UnderSibling(stack, parent, i, id)
    {
      if stack[i].parent == parent {
        var subtree := Descendants(stack, stack[i].id);
        seen := seen + subtree;
      }
    }
    out := Keep(stack, seen);
    below := seen;
  }

  // ---------- Order ----------

  /** The stack lists every changeset once, a parent before what builds on it. */
  ghost predicate ParentsFirst(entries: seq<Entry>)
  {
    && (forall i, j :: 0 <= i < j < |entries| ==> entries[i].id != entries[j].id)
    && (forall i, j :: 0 <= i <= j < |entries| ==> entries[i].parent != Some(entries[j].id))
  }

  /** The entries selected are those of the chosen changesets. */
  lemma {:induction false} SelectedAreEntries(stack: seq<Entry>, ids: set<Id>)
    ensures forall e :: e in InStackOrder(stack, ids) <==> e in stack && e.id in ids
  {
    if stack != [] {
      SelectedAreEntries(stack[1..], ids);
    }
  }

  /** A selection keeps the order of the stack. */
  lemma {:induction false} SelectionParentsFirst(stack: seq<Entry>, ids: set<Id>)
    requires ParentsFirst(stack)
    ensures ParentsFirst(InStackOrder(stack, ids))
  {
    if stack != [] {
      var rest := stack[1..];
      var out := InStackOrder(rest, ids);
      SelectionParentsFirst(rest, ids);
      SelectedAreEntries(rest, ids);
      forall i | 0 <= i < |out|
        ensures out[i].id != stack[0].id && stack[0].parent != Some(out[i].id)
      {
        var j :| 0 <= j < |rest| && rest[j] == out[i];
        assert stack[j + 1] == out[i];
      }
    }
  }
}
