/**
  The cache of bare clones kept between imports (service/git_clone_cache.go), as a
  concurrent state machine: every locked region, and every step of a background clone
  or fetch outside the lock, is one atomic step.
 */
module CloneCache {

  /** The digest of a source (`cloneKey`), which names its directory. */
  datatype Key = Key(digest: string)
  type Time = int

  /** Seconds. */
  const FETCH_AFTER: Time := 30
  const STALE_OK: Time := 15 * 60

  /** The background command of a clone: none, a fetch, a clone that has not cleared
      the directory yet, or a clone that has. */
  datatype Job = Idle | Fetching | Clearing | Cloning

  /** A clone record.  Records are never reused: their index is their identity. */
  datatype Clone = Clone(key: Key, ready: nat, err: bool, cloned: bool, busy: bool, users: nat,
                         lastUsed: Time, fetchedAt: Time, job: Job)

  /** What is in the directory of a key. */
  datatype Dir = Missing | Partial | Whole

  /** A caller of `acquire`: waiting for a ready channel since it asked, holding the directory
      it asked for at `since` and got at `woke`, or on its way to release. */
  datatype Caller =
    Waiting(clone: nat, channel: nat, since: Time) | Holding(clone: nat, since: Time, woke: Time) | Leaving(clone: nat)

  datatype Cache = Cache(clones: seq<Clone>, entries: map<Key, nat>, sweeping: bool, timers: nat,
                         channels: nat, closed: set<nat>, disk: map<Key, Dir>, callers: map<nat, Caller>)

  datatype Event =
    | Acquire(id: nat, key: Key, now: Time)
    | Cancel(id: nat)
    | Wake(id: nat, now: Time)
    | Release(id: nat, at: Time, now: Time, kept: map<Key, nat>)
    | Sweep(now: Time, kept: map<Key, nat>)
    | Clear(n: nat)
    | Finish(n: nat, ok: bool, now: Time)

  datatype Limits = Limits(maxKept: nat, idleTTL: Time)

  // ---------- Steps ----------

  function On(disk: map<Key, Dir>, k: Key): Dir
  {
    if k in disk then disk[k] else Missing
  }

  predicate Indexed(clones: seq<Clone>, entries: map<Key, nat>)
  {
    forall k :: k in entries ==> entries[k] < |clones|
  }

  predicate NeedsStart(e: Clone, now: Time)
  {
    !e.busy && (e.err || now - e.fetchedAt > FETCH_AFTER)
  }

  /** `startLocked`, lines 123 to 130. */
  function Started(e: Clone, channel: nat, fetch: bool): Clone
  {
    e.(busy := true, ready := channel, job := if fetch then Fetching else Clearing)
  }

  /** The first locked region of `acquire`, lines 77 to 98. */
  function AcquireTo(c: Cache, id: nat, key: Key, now: Time): (r: Cache)
    requires Indexed(c.clones, c.entries)
  {
    if key !in c.entries then
      var e := Started(Clone(key, 0, false, false, false, 0, 0, 0, Idle), c.channels, false).(users := 1);
      c.(clones := c.clones + [e], entries := c.entries[key := |c.clones|], channels := c.channels + 1,
         callers := c.callers[id := Waiting(|c.clones|, c.channels, now)])
    else
      var n := c.entries[key];
      var e := c.clones[n];
      if NeedsStart(e, now) then
        c.(clones := c.clones[n := Started(e, c.channels, e.cloned).(users := e.users + 1)], channels := c.channels + 1,
           callers := c.callers[id := Waiting(n, c.channels, now)])
      else
        c.(clones := c.clones[n := e.(users := e.users + 1)], callers := c.callers[id := Waiting(n, e.ready, now)])
  }

  /** Lines 107 to 119: the clone serves the caller, or its error does. */
  predicate Serves(e: Clone, now: Time)
  {
    !e.err || (e.cloned && now - e.fetchedAt <= STALE_OK)
  }

  function Woken(w: Caller, e: Clone, now: Time): (r: Caller)
    requires w.Waiting?
    ensures r.clone == w.clone && (r.Holding? <==> Serves(e, now))
  {
    if Serves(e, now) then Holding(w.clone, w.since, now) else Leaving(w.clone)
  }

  predicate Unused(e: Clone)
  {
    e.users == 0 && !e.busy
  }

  /** An unused clone that goes whatever the number kept. */
  predicate Expired(e: Clone, now: Time, l: Limits)
  {
    Unused(e) && (!e.cloned || now - e.lastUsed > l.idleTTL)
  }

  function LastUsed(clones: seq<Clone>, entries: map<Key, nat>, k: Key): Time
    requires Indexed(clones, entries) && k in entries
  {
    clones[entries[k]].lastUsed
  }

  /** Dropped though not expired. */
  predicate Displaced(clones: seq<Clone>, entries: map<Key, nat>, now: Time, l: Limits, kept: map<Key, nat>, k: Key)
    requires Indexed(clones, entries)
  {
    k in entries && k !in kept && !Expired(clones[entries[k]], now, l)
  }

  /** What `evictLocked` may keep: every clone in use or busy, never an expired one, and
      of the other idle ones the most recently used, exactly as many as fit. */
  ghost predicate Evicts(clones: seq<Clone>, entries: map<Key, nat>, now: Time, l: Limits, kept: map<Key, nat>)
    requires Indexed(clones, entries)
  {
    && kept.Keys <= entries.Keys && (forall k :: k in kept ==> kept[k] == entries[k])
    && (forall k :: k in entries && !Unused(clones[entries[k]]) ==> k in kept)
    && (forall k :: k in kept ==> !Expired(clones[entries[k]], now, l))
    && (|kept| <= l.maxKept || forall k :: k in kept ==> !Unused(clones[entries[k]]))
    && (forall k :: Displaced(clones, entries, now, l, kept, k) ==> |kept| >= l.maxKept)
    && (forall k, j :: Displaced(clones, entries, now, l, kept, k) && j in kept && Unused(clones[entries[j]]) ==>
          LastUsed(clones, entries, k) <= LastUsed(clones, entries, j))
  }

  /** Dropping a clone removes its directory. */
  function Dropped(c: Cache, kept: map<Key, nat>): Cache
  {
    c.(entries := kept, disk := map k | k in c.disk && (k in c.entries ==> k in kept) :: c.disk[k])
  }

  function ArmSweep(c: Cache): Cache
  {
    if !c.sweeping && c.entries != map[] then c.(sweeping := true, timers := c.timers + 1) else c
  }

  /** Lines 160 to 163. */
  function LeaveTo(c: Cache, id: nat, now: Time): Cache
    requires id in c.callers && c.callers[id].clone < |c.clones| && c.clones[c.callers[id].clone].users > 0
  {
    var n := c.callers[id].clone;
    c.(clones := c.clones[n := c.clones[n].(users := c.clones[n].users - 1, lastUsed := now)],
       callers := c.callers - {id})
  }

  /** Lines 131 to 156. */
  function FinishTo(c: Cache, n: nat, ok: bool, now: Time): Cache
    requires n < |c.clones|
  {
    var e := c.clones[n];
    var done := e.(err := !ok, cloned := e.cloned || ok, fetchedAt := if ok then now else e.fetchedAt,
                   busy := false, job := Idle);
    c.(clones := c.clones[n := done], closed := c.closed + {e.ready},
       disk := if e.job == Fetching then c.disk else c.disk[e.key := if ok then Whole else Missing])
  }

  ghost predicate Enabled(c: Cache, e: Event, l: Limits)
  {
    Indexed(c.clones, c.entries) && match e
    case Acquire(id, _, _) => id !in c.callers
    case Cancel(id) => id in c.callers && c.callers[id].Waiting?
    case Wake(id, _) =>
      id in c.callers && c.callers[id].Waiting? && c.callers[id].channel in c.closed && c.callers[id].clone < |c.clones|
    case Release(id, at, now, kept) =>
      && id in c.callers && !c.callers[id].Waiting? && c.callers[id].clone < |c.clones|
      && c.clones[c.callers[id].clone].users > 0
      && Evicts(LeaveTo(c, id, at).clones, c.entries, now, l, kept)
    case Sweep(now, kept) => c.timers > 0 && Evicts(c.clones, c.entries, now, l, kept)
    case Clear(n) => n < |c.clones| && c.clones[n].job == Clearing
    case Finish(n, _, _) => n < |c.clones| && (c.clones[n].job == Fetching || c.clones[n].job == Cloning)
  }

  ghost function Step(c: Cache, e: Event, l: Limits): (r: Cache)
    requires Enabled(c, e, l)
  {
    match e
    case Acquire(id, key, now) => AcquireTo(c, id, key, now)
    case Cancel(id) => c.(callers := c.callers[id := Leaving(c.callers[id].clone)])
    case Wake(id, now) =>
      c.(callers := c.callers[id := Woken(c.callers[id], c.clones[c.callers[id].clone], now)])
    case Release(id, at, now, kept) => ArmSweep(Dropped(LeaveTo(c, id, at), kept))
    case Sweep(now, kept) => ArmSweep(Dropped(c.(timers := c.timers - 1, sweeping := false), kept))
    case Clear(n) =>
      c.(clones := c.clones[n := c.clones[n].(job := Cloning)], disk := c.disk[c.clones[n].key := Partial])
    case Finish(n, ok, now) => FinishTo(c, n, ok, now)
  }

  // ---------- The invariant ----------

  /** The record is the current one of its key. */
  predicate Live(c: Cache, n: nat)
    requires n < |c.clones|
  {
    c.clones[n].key in c.entries && c.entries[c.clones[n].key] == n
  }

  function CallersOf(callers: map<nat, Caller>, n: nat): set<nat>
  {
    set id | id in callers && callers[id].clone == n
  }

  ghost predicate GoodClone(c: Cache, n: nat)
    requires n < |c.clones|
  {
    var e := c.clones[n];
    && e.users == |CallersOf(c.callers, n)|
    && (e.busy <==> e.job != Idle) && e.ready < c.channels && (e.busy <==> e.ready !in c.closed)
    && (e.busy ==> (e.job == Fetching <==> e.cloned))
    && (e.busy || e.cloned || e.err)
    && (!Live(c, n) ==> Unused(e))
    && (Live(c, n) && e.cloned ==> On(c.disk, e.key) == Whole)
  }

  ghost predicate GoodCaller(c: Cache, id: nat)
    requires id in c.callers
  {
    var w := c.callers[id];
    && w.clone < |c.clones|
    && (w.Waiting? ==> w.channel < c.channels && (w.channel == c.clones[w.clone].ready || w.channel in c.closed))
    && (w.Waiting? && w.channel in c.closed ==> c.clones[w.clone].cloned || c.clones[w.clone].err)
    && (w.Holding? ==> c.clones[w.clone].cloned)
  }

  ghost predicate Inv(c: Cache)
  {
    && Indexed(c.clones, c.entries) && (forall k :: k in c.entries ==> c.clones[c.entries[k]].key == k)
    && (forall n :: 0 <= n < |c.clones| ==> GoodClone(c, n))
    && (forall id :: id in c.callers ==> GoodCaller(c, id))
    && (forall n, m :: 0 <= n < m < |c.clones| ==> c.clones[n].ready != c.clones[m].ready)
    && (forall ch :: ch in c.closed ==> ch < c.channels)
    && c.timers == (if c.sweeping then 1 else 0)
  }

  /** A clone nobody uses has a sweep coming. */
  ghost predicate SweepComes(c: Cache)
  {
    forall n :: 0 <= n < |c.clones| && Live(c, n) ==> c.clones[n].users > 0 || c.sweeping
  }

  const EMPTY: Cache := Cache([], map[], false, 0, 0, {}, map[], map[])

  // ---------- What the invariant means ----------

  /** A directory handed to a caller is there, whole, and no command may clear it. */
  ghost predicate HeldIsSafe(c: Cache)
  {
    forall id :: id in c.callers && c.callers[id].Holding? ==>
      var n := c.callers[id].clone;
      n < |c.clones| && Live(c, n) && On(c.disk, c.clones[n].key) == Whole
      && c.clones[n].job != Clearing && c.clones[n].job != Cloning
  }

  /** At most one git command runs on a directory. */
  ghost predicate OneCommand(c: Cache)
  {
    forall n, m :: 0 <= n < m < |c.clones| && c.clones[n].busy && c.clones[m].busy ==>
      c.clones[n].key != c.clones[m].key
  }

  /** A caller that waits on a channel still open waits for a command that is running and
      will close that very channel. */
  ghost predicate WaitsForCommand(c: Cache)
  {
    forall id :: id in c.callers && c.callers[id].Waiting? && c.callers[id].channel !in c.closed ==>
      var n := c.callers[id].clone;
      n < |c.clones| && c.clones[n].ready == c.callers[id].channel && c.clones[n].job != Idle
  }

  lemma NoneWaitsInVain(c: Cache)
    requires Inv(c)
    ensures WaitsForCommand(c)
  {
    forall id | id in c.callers && c.callers[id].Waiting? && c.callers[id].channel !in c.closed
      ensures var n := c.callers[id].clone;
        n < |c.clones| && c.clones[n].ready == c.callers[id].channel && c.clones[n].job != Idle
    {
      assert GoodCaller(c, id);
      assert GoodClone(c, c.callers[id].clone);
    }
  }

  lemma InvMeans(c: Cache)
    requires Inv(c)
    ensures HeldIsSafe(c) && OneCommand(c)
  {
    forall id | id in c.callers && c.callers[id].Holding?
      ensures var n := c.callers[id].clone;
        n < |c.clones| && Live(c, n) && On(c.disk, c.clones[n].key) == Whole
        && c.clones[n].job != Clearing && c.clones[n].job != Cloning
    {
      assert GoodCaller(c, id);
      var n := c.callers[id].clone;
      assert GoodClone(c, n);
      assert id in CallersOf(c.callers, n);
    }
    forall n, m | 0 <= n < m < |c.clones| && c.clones[n].busy && c.clones[m].busy
      ensures c.clones[n].key != c.clones[m].key
    {
      assert GoodClone(c, n) && GoodClone(c, m);
    }
  }

  // ---------- Every step keeps the invariant ----------

  lemma JoinCaller(callers: map<nat, Caller>, id: nat, w: Caller)
    requires id !in callers
    ensures |CallersOf(callers[id := w], w.clone)| == |CallersOf(callers, w.clone)| + 1
    ensures forall n :: n != w.clone ==> CallersOf(callers[id := w], n) == CallersOf(callers, n)
  {
    assert CallersOf(callers[id := w], w.clone) == CallersOf(callers, w.clone) + {id};
  }

  lemma MoveCaller(callers: map<nat, Caller>, id: nat, w: Caller)
    requires id in callers && callers[id].clone == w.clone
    ensures forall n :: CallersOf(callers[id := w], n) == CallersOf(callers, n)
  {
  }

  lemma DropCaller(callers: map<nat, Caller>, id: nat)
    requires id in callers
    ensures |CallersOf(callers - {id}, callers[id].clone)| == |CallersOf(callers, callers[id].clone)| - 1
    ensures forall n :: n != callers[id].clone ==> CallersOf(callers - {id}, n) == CallersOf(callers, n)
  {
    var n := callers[id].clone;
    assert CallersOf(callers, n) == CallersOf(callers - {id}, n) + {id};
  }

  /** A new record for a key that has none. */
  lemma NewKeeps(c: Cache, id: nat, key: Key, now: Time)
    requires Inv(c) && id !in c.callers && key !in c.entries
    ensures Inv(AcquireTo(c, id, key, now))
  {
    var r := AcquireTo(c, id, key, now);
    JoinCaller(c.callers, id, r.callers[id]);
    forall i | i in c.callers
      ensures c.callers[i].clone != |c.clones|
    {
      assert GoodCaller(c, i);
    }
    assert CallersOf(c.callers, |c.clones|) == {};
    forall n | 0 <= n < |r.clones|
      ensures GoodClone(r, n)
    {
      assert n < |c.clones| ==> GoodClone(c, n);
    }
    forall i | i in r.callers
      ensures GoodCaller(r, i)
    {
      assert i != id ==> GoodCaller(c, i);
    }
    forall n, m | 0 <= n < m < |r.clones|
      ensures r.clones[n].ready != r.clones[m].ready
    {
      assert GoodClone(c, n);
    }
  }

  /** The record of the key is joined as it is. */
  lemma JoinKeeps(c: Cache, id: nat, key: Key, now: Time)
    requires Inv(c) && id !in c.callers && key in c.entries && !NeedsStart(c.clones[c.entries[key]], now)
    ensures Inv(AcquireTo(c, id, key, now))
  {
    var r := AcquireTo(c, id, key, now);
    JoinCaller(c.callers, id, r.callers[id]);
    assert GoodClone(c, c.entries[key]);
    forall m | 0 <= m < |r.clones|
      ensures GoodClone(r, m)
    {
      assert GoodClone(c, m);
    }
    forall i | i in r.callers
      ensures GoodCaller(r, i)
    {
      assert i != id ==> GoodCaller(c, i);
    }
  }

  /** The record of the key is started again. */
  lemma RestartKeeps(c: Cache, id: nat, key: Key, now: Time)
    requires Inv(c) && id !in c.callers && key in c.entries && NeedsStart(c.clones[c.entries[key]], now)
    ensures Inv(AcquireTo(c, id, key, now))
  {
    var r := AcquireTo(c, id, key, now);
    JoinCaller(c.callers, id, r.callers[id]);
    assert GoodClone(c, c.entries[key]);
    forall m | 0 <= m < |r.clones|
      ensures GoodClone(r, m) && (m != c.entries[key] ==> r.clones[m].ready < c.channels)
    {
      assert GoodClone(c, m);
    }
    forall i | i in r.callers
      ensures GoodCaller(r, i)
    {
      assert i != id ==> GoodCaller(c, i);
    }
  }

  lemma AcquireKeepsSweeps(c: Cache, id: nat, key: Key, now: Time)
    requires Inv(c) && SweepComes(c) && id !in c.callers
    ensures SweepComes(AcquireTo(c, id, key, now))
  {
    var r := AcquireTo(c, id, key, now);
    forall n | 0 <= n < |r.clones| && Live(r, n)
      ensures r.clones[n].users > 0 || r.sweeping
    {
      if n < |c.clones| {
        assert Live(c, n);
      }
    }
  }

  /** A caller that waits goes on to hold the clone or to leave it. */
  lemma MoveKeeps(c: Cache, id: nat, w: Caller)
    requires Inv(c) && id in c.callers && !w.Waiting? && w.clone == c.callers[id].clone
    requires w.Holding? ==> w.clone < |c.clones| && c.clones[w.clone].cloned
    ensures Inv(c.(callers := c.callers[id := w]))
  {
    var r := c.(callers := c.callers[id := w]);
    MoveCaller(c.callers, id, w);
    forall n | 0 <= n < |r.clones|
      ensures GoodClone(r, n)
    {
      assert GoodClone(c, n);
    }
    forall i | i in r.callers
      ensures GoodCaller(r, i)
    {
      assert GoodCaller(c, i);
    }
  }

  /** Every caller is counted among the users of its clone. */
  lemma CallerIsUser(c: Cache, id: nat)
    requires Inv(c) && id in c.callers
    ensures c.callers[id].clone < |c.clones| && c.clones[c.callers[id].clone].users > 0
  {
    assert GoodCaller(c, id);
    assert GoodClone(c, c.callers[id].clone) && id in CallersOf(c.callers, c.callers[id].clone);
  }

  lemma LeaveKeeps(c: Cache, id: nat, now: Time)
    requires Inv(c) && id in c.callers && c.callers[id].clone < |c.clones| && c.clones[c.callers[id].clone].users > 0
    ensures Inv(LeaveTo(c, id, now))
  {
    var r := LeaveTo(c, id, now);
    DropCaller(c.callers, id);
    forall m | 0 <= m < |r.clones|
      ensures GoodClone(r, m)
    {
      assert GoodClone(c, m);
    }
    forall i | i in r.callers
      ensures GoodCaller(r, i)
    {
      assert GoodCaller(c, i);
    }
  }

  lemma DropKeeps(c: Cache, now: Time, l: Limits, kept: map<Key, nat>)
    requires Inv(c) && Evicts(c.clones, c.entries, now, l, kept)
    ensures Inv(Dropped(c, kept))
  {
    var r := Dropped(c, kept);
    forall n | 0 <= n < |r.clones|
      ensures GoodClone(r, n)
    {
      assert GoodClone(c, n);
    }
    forall i | i in r.callers
      ensures GoodCaller(r, i)
    {
      assert GoodCaller(c, i);
    }
  }

  lemma TimerKeeps(c: Cache, sweeping: bool)
    requires Inv(c)
    ensures Inv(c.(sweeping := sweeping, timers := if sweeping then 1 else 0))
  {
    var r := c.(sweeping := sweeping, timers := if sweeping then 1 else 0);
    forall n | 0 <= n < |r.clones|
      ensures GoodClone(r, n)
    {
      assert GoodClone(c, n);
    }
    forall i | i in r.callers
      ensures GoodCaller(r, i)
    {
      assert GoodCaller(c, i);
    }
  }

  lemma ArmKeeps(c: Cache)
    requires Inv(c)
    ensures Inv(ArmSweep(c)) && SweepComes(ArmSweep(c))
  {
    TimerKeeps(c, true);
  }

  lemma ClearKeeps(c: Cache, n: nat)
    requires Inv(c) && n < |c.clones| && c.clones[n].job == Clearing
    ensures Inv(c.(clones := c.clones[n := c.clones[n].(job := Cloning)], disk := c.disk[c.clones[n].key := Partial]))
  {
    var r := c.(clones := c.clones[n := c.clones[n].(job := Cloning)], disk := c.disk[c.clones[n].key := Partial]);
    assert GoodClone(c, n);
    forall m | 0 <= m < |r.clones|
      ensures GoodClone(r, m)
    {
      assert GoodClone(c, m);
    }
    forall i | i in r.callers
      ensures GoodCaller(r, i)
    {
      assert GoodCaller(c, i);
    }
  }

  lemma FinishKeeps(c: Cache, n: nat, ok: bool, now: Time)
    requires Inv(c) && n < |c.clones| && (c.clones[n].job == Fetching || c.clones[n].job == Cloning)
    ensures Inv(FinishTo(c, n, ok, now))
  {
    var r := FinishTo(c, n, ok, now);
    assert GoodClone(c, n);
    forall m | 0 <= m < |r.clones|
      ensures GoodClone(r, m)
    {
      assert GoodClone(c, m);
    }
    forall i | i in r.callers
      ensures GoodCaller(r, i)
    {
      assert GoodCaller(c, i);
    }
  }

  lemma StepKeeps(c: Cache, e: Event, l: Limits)
    requires Inv(c) && Enabled(c, e, l)
    ensures Inv(Step(c, e, l))
  {
    match e
    case Acquire(id, key, now) =>
      if key in c.entries && NeedsStart(c.clones[c.entries[key]], now) {
        RestartKeeps(c, id, key, now);
      } else if key in c.entries {
        JoinKeeps(c, id, key, now);
      } else {
        NewKeeps(c, id, key, now);
      }
    case Cancel(id) =>
      MoveKeeps(c, id, Leaving(c.callers[id].clone));
    case Wake(id, now) =>
      assert GoodCaller(c, id);
      MoveKeeps(c, id, Woken(c.callers[id], c.clones[c.callers[id].clone], now));
    case Release(id, at, now, kept) =>
      LeaveKeeps(c, id, at);
      DropKeeps(LeaveTo(c, id, at), now, l, kept);
      ArmKeeps(Dropped(LeaveTo(c, id, at), kept));
    case Sweep(now, kept) =>
      TimerKeeps(c, false);
      DropKeeps(c.(sweeping := false, timers := 0), now, l, kept);
      ArmKeeps(Dropped(c.(sweeping := false, timers := 0), kept));
    case Clear(n) =>
      ClearKeeps(c, n);
    case Finish(n, ok, now) =>
      FinishKeeps(c, n, ok, now);
  }

  lemma StepKeepsSweeps(c: Cache, e: Event, l: Limits)
    requires Inv(c) && SweepComes(c) && Enabled(c, e, l)
    ensures SweepComes(Step(c, e, l))
  {
    var r := Step(c, e, l);
    match e
    case Acquire(id, key, now) =>
      AcquireKeepsSweeps(c, id, key, now);
    case _ =>
      forall n | 0 <= n < |r.clones| && Live(r, n)
        ensures r.clones[n].users > 0 || r.sweeping
      {
        assert Live(c, n);
      }
  }

  // ---------- Runs ----------

  ghost predicate Possible(c: Cache, run: seq<Event>, l: Limits)
    decreases |run|
  {
    run == [] || (Enabled(c, run[0], l) && Possible(Step(c, run[0], l), run[1..], l))
  }

  ghost function After(c: Cache, run: seq<Event>, l: Limits): Cache
    requires Possible(c, run, l)
    decreases |run|
  {
    if run == [] then c else After(Step(c, run[0], l), run[1..], l)
  }

  lemma {:induction false} RunKeeps(c: Cache, run: seq<Event>, l: Limits)
    requires Inv(c) && SweepComes(c) && Possible(c, run, l)
    ensures Inv(After(c, run, l)) && SweepComes(After(c, run, l))
    decreases |run|
  {
    if run != [] {
      StepKeeps(c, run[0], l);
      StepKeepsSweeps(c, run[0], l);
      RunKeeps(Step(c, run[0], l), run[1..], l);
    }
  }

  /** Whatever the callers, the background commands and the timer do, in any order and
      from the empty cache on: a held directory is whole and stays put, one command works
      on a directory at a time, `users` counts the callers, one timer runs exactly while
      `sweeping` says so, and a clone nobody uses has a sweep coming. */
  lemma CacheIsSafe(run: seq<Event>, l: Limits)
    requires Possible(EMPTY, run, l)
    ensures var c := After(EMPTY, run, l);
      && HeldIsSafe(c) && OneCommand(c) && WaitsForCommand(c) && SweepComes(c)
      && (forall n :: 0 <= n < |c.clones| ==> c.clones[n].users == |CallersOf(c.callers, n)|)
      && c.timers == (if c.sweeping then 1 else 0)
  {
    RunKeeps(EMPTY, run, l);
    var c := After(EMPTY, run, l);
    InvMeans(c);
    NoneWaitsInVain(c);
    forall n | 0 <= n < |c.clones|
      ensures c.clones[n].users == |CallersOf(c.callers, n)|
    {
      assert GoodClone(c, n);
    }
  }

  lemma StepHolds(c: Cache, e: Event, l: Limits, id: nat)
    requires Enabled(c, e, l) && id in c.callers && c.callers[id].Holding? && c.callers[id].clone < |c.clones|
    requires !(e.Release? && e.id == id)
    ensures var r := Step(c, e, l); var n := c.callers[id].clone;
      id in r.callers && r.callers[id] == c.callers[id] && n < |r.clones| && r.clones[n].key == c.clones[n].key
  {
  }

  /** From when a caller gets a directory until it gives it back, the directory stays
      whole, whatever else happens. */
  lemma {:induction false} HeldUntilReleased(c: Cache, run: seq<Event>, l: Limits, id: nat)
    requires Inv(c) && Possible(c, run, l)
    requires id in c.callers && c.callers[id].Holding? && c.callers[id].clone < |c.clones|
    requires forall i :: 0 <= i < |run| && run[i].Release? ==> run[i].id != id
    ensures var r := After(c, run, l);
      id in r.callers && r.callers[id] == c.callers[id] && On(r.disk, c.clones[c.callers[id].clone].key) == Whole
    decreases |run|
  {
    if run == [] {
      InvMeans(c);
    } else {
      StepHolds(c, run[0], l, id);
      StepKeeps(c, run[0], l);
      HeldUntilReleased(Step(c, run[0], l), run[1..], l, id);
    }
  }

  /** A ready channel is closed once: never a channel that is closed already, and
      everyone who waits on it is let go. */
  lemma ClosesOnce(run: seq<Event>, n: nat, ok: bool, now: Time, l: Limits)
    requires Possible(EMPTY, run, l) && Enabled(After(EMPTY, run, l), Finish(n, ok, now), l)
    ensures var c := After(EMPTY, run, l); var r := Step(c, Finish(n, ok, now), l);
      && c.clones[n].ready !in c.closed
      && forall id :: id in r.callers && r.callers[id].Waiting? && r.callers[id].clone == n ==>
            r.callers[id].channel in r.closed
  {
    RunKeeps(EMPTY, run, l);
    var c := After(EMPTY, run, l);
    var r := Step(c, Finish(n, ok, now), l);
    assert GoodClone(c, n);
    forall id | id in r.callers && r.callers[id].Waiting? && r.callers[id].clone == n
      ensures r.callers[id].channel in r.closed
    {
      assert GoodCaller(c, id);
    }
  }

  // ---------- Held clones are current ----------

  /** When a step happens, if the clock showed `clock` before it. */
  function When(e: Event, clock: Time): Time
  {
    match e
    case Acquire(_, _, now) => now
    case Wake(_, now) => now
    case Release(_, _, now, _) => now
    case Sweep(now, _) => now
    case Finish(_, _, now) => now
    case Cancel(_) => clock
    case Clear(_) => clock
  }

  /** The clock does not go back. */
  ghost predicate Timely(clock: Time, run: seq<Event>)
    decreases |run|
  {
    run == [] || (clock <= When(run[0], clock) && Timely(When(run[0], clock), run[1..]))
  }

  /** A caller that may wake finds, if the last command did not fail, a clone fetched at most
      30 seconds before it asked; one that holds a clone got such a one, or one fetched at
      most 900 seconds before it woke. */
  ghost predicate CurrentFor(c: Cache, w: Caller, clock: Time)
    requires w.clone < |c.clones|
  {
    var e := c.clones[w.clone];
    && (w.Waiting? ==> w.since <= clock && (w.channel in c.closed && !e.err ==> e.fetchedAt >= w.since - 30))
    && (w.Holding? ==> e.fetchedAt >= w.since - 30 || e.fetchedAt >= w.woke - 900)
  }

  ghost predicate AllCurrent(c: Cache, clock: Time)
  {
    && (forall id :: id in c.callers ==> c.callers[id].clone < |c.clones| && CurrentFor(c, c.callers[id], clock))
    && (forall n :: 0 <= n < |c.clones| && c.clones[n].cloned ==> c.clones[n].fetchedAt <= clock)
  }

  predicate SameContent(x: Clone, y: Clone)
  {
    x.err == y.err && x.cloned == y.cloned && x.fetchedAt == y.fetchedAt
  }

  lemma AcquireFetchesNothing(c: Cache, id: nat, key: Key, now: Time)
    requires Indexed(c.clones, c.entries)
    ensures var r := AcquireTo(c, id, key, now);
      && r.closed == c.closed && r.callers - {id} == c.callers - {id} && |c.clones| <= |r.clones|
      && (forall n :: 0 <= n < |c.clones| ==> SameContent(r.clones[n], c.clones[n]))
      && (forall n :: |c.clones| <= n < |r.clones| ==> !r.clones[n].cloned)
  {
  }

  lemma AcquireCurrent(c: Cache, id: nat, key: Key, now: Time, clock: Time)
    requires Inv(c) && AllCurrent(c, clock) && id !in c.callers && clock <= now
    ensures AllCurrent(AcquireTo(c, id, key, now), now)
  {
    var r := AcquireTo(c, id, key, now);
    AcquireFetchesNothing(c, id, key, now);
    AskerCurrent(c, id, key, now);
    OthersCurrent(c, r, id, clock, now);
  }

  lemma OthersCurrent(c: Cache, r: Cache, id: nat, clock: Time, now: Time)
    requires AllCurrent(c, clock) && clock <= now && r.closed == c.closed && r.callers - {id} == c.callers - {id}
    requires |c.clones| <= |r.clones| && forall n :: 0 <= n < |c.clones| ==> SameContent(r.clones[n], c.clones[n])
    requires forall n :: |c.clones| <= n < |r.clones| ==> !r.clones[n].cloned
    requires id in r.callers && r.callers[id].clone < |r.clones| && CurrentFor(r, r.callers[id], now)
    ensures AllCurrent(r, now)
  {
    forall i | i in r.callers && i != id ensures r.callers[i].clone < |r.clones| && CurrentFor(r, r.callers[i], now) {
      assert i in r.callers - {id} && (c.callers - {id})[i] == (r.callers - {id})[i];
      assert CurrentFor(c, c.callers[i], clock);
      assert SameContent(r.clones[c.callers[i].clone], c.clones[c.callers[i].clone]);
    }
    forall n | 0 <= n < |r.clones| && r.clones[n].cloned ensures r.clones[n].fetchedAt <= now {
      assert n < |c.clones| && SameContent(r.clones[n], c.clones[n]);
    }
  }

  /** What a caller finds ready when it asks was fetched at most 30 seconds ago. */
  lemma AskerCurrent(c: Cache, id: nat, key: Key, now: Time)
    requires Inv(c) && id !in c.callers
    ensures var r := AcquireTo(c, id, key, now);
      id in r.callers && r.callers[id].clone < |r.clones| && CurrentFor(r, r.callers[id], now)
  {
    if key in c.entries { assert GoodClone(c, c.entries[key]); }
  }

  lemma FinishCurrent(c: Cache, n: nat, ok: bool, now: Time, clock: Time)
    requires Inv(c) && AllCurrent(c, clock) && clock <= now
    requires n < |c.clones| && (c.clones[n].job == Fetching || c.clones[n].job == Cloning)
    ensures AllCurrent(FinishTo(c, n, ok, now), now)
  {
    var r := FinishTo(c, n, ok, now);
    forall i | i in r.callers ensures r.callers[i].clone < |r.clones| && CurrentFor(r, r.callers[i], now) {
      assert CurrentFor(c, c.callers[i], clock) && GoodCaller(c, i);
    }
  }

  /** A step that fetches nothing and closes no channel, after which callers are as they were,
      leave, or are gone. */
  ghost predicate Quiet(c: Cache, r: Cache)
  {
    && r.closed == c.closed && |r.clones| == |c.clones|
    && (forall n :: 0 <= n < |c.clones| ==> SameContent(r.clones[n], c.clones[n]))
    && (forall i :: i in r.callers ==> i in c.callers && r.callers[i].clone == c.callers[i].clone)
    && (forall i :: i in r.callers ==> r.callers[i] == c.callers[i] || r.callers[i].Leaving?)
  }

  lemma QuietCurrent(c: Cache, r: Cache, clock: Time, later: Time)
    requires AllCurrent(c, clock) && clock <= later && Quiet(c, r)
    ensures AllCurrent(r, later)
  {
    forall i | i in r.callers ensures r.callers[i].clone < |r.clones| && CurrentFor(r, r.callers[i], later) {
      assert CurrentFor(c, c.callers[i], clock);
      assert SameContent(r.clones[c.callers[i].clone], c.clones[c.callers[i].clone]);
    }
    forall n | 0 <= n < |r.clones| && r.clones[n].cloned ensures r.clones[n].fetchedAt <= later {
      assert SameContent(r.clones[n], c.clones[n]);
    }
  }

  lemma LeaveIsQuiet(c: Cache, id: nat, at: Time, kept: map<Key, nat>)
    requires id in c.callers && c.callers[id].clone < |c.clones| && c.clones[c.callers[id].clone].users > 0
    ensures Quiet(c, ArmSweep(Dropped(LeaveTo(c, id, at), kept)))
  {
  }

  lemma ClearIsQuiet(c: Cache, n: nat)
    requires n < |c.clones|
    ensures Quiet(c, c.(clones := c.clones[n := c.clones[n].(job := Cloning)],
                        disk := c.disk[c.clones[n].key := Partial]))
  {
  }

  lemma WakeCurrent(c: Cache, id: nat, now: Time, clock: Time, l: Limits)
    requires AllCurrent(c, clock) && clock <= now && Enabled(c, Wake(id, now), l)
    ensures AllCurrent(Step(c, Wake(id, now), l), now)
  {
    var r := Step(c, Wake(id, now), l);
    forall i | i in r.callers ensures r.callers[i].clone < |r.clones| && CurrentFor(r, r.callers[i], now) {
      assert CurrentFor(c, c.callers[i], clock);
    }
  }

  lemma StepCurrent(c: Cache, e: Event, l: Limits, clock: Time)
    requires Inv(c) && AllCurrent(c, clock) && Enabled(c, e, l) && clock <= When(e, clock)
    ensures AllCurrent(Step(c, e, l), When(e, clock))
  {
    match e
    case Acquire(id, key, now) => AcquireCurrent(c, id, key, now, clock);
    case Finish(n, ok, now) => FinishCurrent(c, n, ok, now, clock);
    case Wake(id, now) => WakeCurrent(c, id, now, clock, l);
    case Release(id, at, now, kept) =>
      LeaveIsQuiet(c, id, at, kept);
      QuietCurrent(c, ArmSweep(Dropped(LeaveTo(c, id, at), kept)), clock, now);
    case Cancel(id) =>
      QuietCurrent(c, c.(callers := c.callers[id := Leaving(c.callers[id].clone)]), clock, clock);
    case Sweep(now, kept) =>
      QuietCurrent(c, ArmSweep(Dropped(c.(timers := c.timers - 1, sweeping := false), kept)), clock, now);
    case Clear(n) =>
      ClearIsQuiet(c, n);
      QuietCurrent(c, Step(c, Clear(n), l), clock, clock);
  }

  lemma {:induction false} RunCurrent(c: Cache, run: seq<Event>, l: Limits, clock: Time)
    returns (end: Time)
    requires Inv(c) && AllCurrent(c, clock) && Possible(c, run, l) && Timely(clock, run)
    ensures AllCurrent(After(c, run, l), end) && Inv(After(c, run, l))
    decreases |run|
  {
    if run == [] { return clock; }
    StepCurrent(c, run[0], l, clock);
    StepKeeps(c, run[0], l);
    end := RunCurrent(Step(c, run[0], l), run[1..], l, When(run[0], clock));
  }

  /** The step is not one of this caller's. */
  predicate ByOthers(e: Event, id: nat)
  {
    match e
    case Acquire(i, _, _) => i != id
    case Cancel(i) => i != id
    case Wake(i, _) => i != id
    case Release(i, _, _, _) => i != id
    case Sweep(_, _) => true
    case Clear(_) => true
    case Finish(_, _, _) => true
  }

  lemma StepWaits(c: Cache, e: Event, l: Limits, id: nat)
    requires Enabled(c, e, l) && id in c.callers && c.callers[id].clone < |c.clones| && ByOthers(e, id)
    ensures var r := Step(c, e, l); var n := c.callers[id].clone;
      id in r.callers && r.callers[id] == c.callers[id] && n < |r.clones| && r.clones[n].key == c.clones[n].key
  {
  }

  /** A caller waits on for what it asked for, whatever others do. */
  lemma {:induction false} WaitsOn(c: Cache, run: seq<Event>, l: Limits, id: nat)
    requires Possible(c, run, l) && id in c.callers && c.callers[id].clone < |c.clones|
    requires forall i :: 0 <= i < |run| ==> ByOthers(run[i], id)
    ensures var r := After(c, run, l); var n := c.callers[id].clone;
      id in r.callers && r.callers[id] == c.callers[id] && n < |r.clones| && r.clones[n].key == c.clones[n].key
    decreases |run|
  {
    if run != [] {
      assert ByOthers(run[0], id);
      StepWaits(c, run[0], l, id);
      WaitsOn(Step(c, run[0], l), run[1..], l, id);
    }
  }

  lemma {:induction false} RunConcat(c: Cache, x: seq<Event>, y: seq<Event>, l: Limits, clock: Time)
    requires Possible(c, x + y, l) && Timely(clock, x + y)
    ensures Possible(c, x, l) && Possible(After(c, x, l), y, l) && After(c, x + y, l) == After(After(c, x, l), y, l)
    ensures Timely(clock, x)
    decreases |x|
  {
    if x == [] {
      assert x + y == y;
    } else {
      assert (x + y)[0] == x[0] && (x + y)[1..] == x[1..] + y;
      RunConcat(Step(c, x[0], l), x[1..], y, l, When(x[0], clock));
    }
  }

  /** Just after it asked at time t, a caller waits for a clone of what it asked for. */
  lemma AskedFor(before: seq<Event>, id: nat, key: Key, t: Time, l: Limits)
    requires Possible(EMPTY, before, l) && Possible(After(EMPTY, before, l), [Acquire(id, key, t)], l)
    ensures var c := After(After(EMPTY, before, l), [Acquire(id, key, t)], l);
      && id in c.callers && c.callers[id].Waiting? && c.callers[id].since == t
      && c.callers[id].clone < |c.clones| && c.clones[c.callers[id].clone].key == key
  {
    RunKeeps(EMPTY, before, l);
    AskedNow(After(EMPTY, before, l), id, key, t);
    assert [Acquire(id, key, t)][1..] == [];
  }

  lemma AskedNow(c: Cache, id: nat, key: Key, t: Time)
    requires Indexed(c.clones, c.entries) && forall k :: k in c.entries ==> c.clones[c.entries[k]].key == k
    ensures var r := AcquireTo(c, id, key, t);
      && id in r.callers && r.callers[id].Waiting? && r.callers[id].since == t
      && r.callers[id].clone < |r.clones| && r.clones[r.callers[id].clone].key == key
  {
  }

  lemma WokenIsCurrent(c: Cache, id: nat, now: Time, l: Limits, clock: Time)
    requires AllCurrent(c, clock) && Possible(c, [Wake(id, now)], l)
    ensures
      && id in c.callers && c.callers[id].Waiting? && c.callers[id].clone < |c.clones|
      && var e := c.clones[c.callers[id].clone];
      var r := After(c, [Wake(id, now)], l);
      && id in r.callers && r.callers[id].clone == c.callers[id].clone && r.clones == c.clones
      && (r.callers[id].Holding? <==> !e.err || (e.cloned && now - e.fetchedAt <= 900))
      && (r.callers[id].Holding? ==> e.fetchedAt >= c.callers[id].since - 30 || (e.err && now - e.fetchedAt <= 900))
  {
    assert [Wake(id, now)][1..] == [];
    assert CurrentFor(c, c.callers[id], clock);
  }

  /** In any run from the empty cache whose clock does not go back: a caller that asked for a
      source at time t and then gets a clone, gets one of that source that was fetched at
      most 30 seconds before it asked; or the last command failed, and the clone was
      fetched at most 900 seconds before the caller got it.  It gets one unless the last
      command failed, and there is no clone or it is older than that. */
  lemma ServedIsCurrent(before: seq<Event>, id: nat, key: Key, t: Time, rest: seq<Event>, now: Time, l: Limits,
                        clock: Time)
    requires Possible(EMPTY, before + [Acquire(id, key, t)] + rest + [Wake(id, now)], l)
    requires Timely(clock, before + [Acquire(id, key, t)] + rest + [Wake(id, now)])
    requires forall i :: 0 <= i < |rest| ==> ByOthers(rest[i], id)
    ensures
      var c := After(EMPTY, before + [Acquire(id, key, t)] + rest + [Wake(id, now)], l);
      && id in c.callers && c.callers[id].clone < |c.clones|
      && var e := c.clones[c.callers[id].clone];
      && e.key == key
      && (c.callers[id].Holding? <==> !e.err || (e.cloned && now - e.fetchedAt <= 900))
      && (c.callers[id].Holding? ==> e.fetchedAt >= t - 30 || (e.err && now - e.fetchedAt <= 900))
  {
    var asked := before + [Acquire(id, key, t)];
    RunConcat(EMPTY, asked + rest, [Wake(id, now)], l, clock);
    RunConcat(EMPTY, asked, rest, l, clock);
    RunConcat(EMPTY, before, [Acquire(id, key, t)], l, clock);
    AskedFor(before, id, key, t, l);
    WaitsOn(After(EMPTY, asked, l), rest, l, id);
    var end := RunCurrent(EMPTY, asked + rest, l, clock);
    WokenIsCurrent(After(EMPTY, asked + rest, l), id, now, l, end);
  }

  /** And whoever holds a clone, at any time of such a run, got a current one. */
  lemma HeldIsCurrent(run: seq<Event>, l: Limits, clock: Time)
    requires Possible(EMPTY, run, l) && Timely(clock, run)
    ensures var c := After(EMPTY, run, l);
      forall id :: id in c.callers && c.callers[id].Holding? ==>
        var w := c.callers[id];
        w.clone < |c.clones|
        && (c.clones[w.clone].fetchedAt >= w.since - 30 || c.clones[w.clone].fetchedAt >= w.woke - 900)
  {
    var end := RunCurrent(EMPTY, run, l, clock);
    var c := After(EMPTY, run, l);
    forall id | id in c.callers && c.callers[id].Holding?
      ensures var w := c.callers[id];
        w.clone < |c.clones|
        && (c.clones[w.clone].fetchedAt >= w.since - 30 || c.clones[w.clone].fetchedAt >= w.woke - 900)
    {
      assert CurrentFor(c, c.callers[id], end);
    }
  }

  // ---------- Eviction ----------

  predicate ByLastUsed(clones: seq<Clone>, entries: map<Key, nat>, keys: seq<Key>)
    requires Indexed(clones, entries)
  {
    && (forall i :: 0 <= i < |keys| ==> keys[i] in entries)
    && (forall i, j :: 0 <= i < j < |keys| ==> LastUsed(clones, entries, keys[i]) <= LastUsed(clones, entries, keys[j]))
  }

  lemma InsertPermutes(sorted: seq<Key>, at: nat, k: Key)
    requires at <= |sorted|
    ensures multiset(sorted[..at] + [k] + sorted[at..]) == multiset(sorted) + multiset{k}
  {
    assert sorted == sorted[..at] + sorted[at..];
  }

  lemma InsertKeeps(clones: seq<Clone>, entries: map<Key, nat>, sorted: seq<Key>, at: nat, k: Key, r: seq<Key>)
    requires Indexed(clones, entries) && ByLastUsed(clones, entries, sorted) && k in entries && at <= |sorted|
    requires forall j :: 0 <= j < at ==> LastUsed(clones, entries, sorted[j]) <= LastUsed(clones, entries, k)
    requires at < |sorted| ==> LastUsed(clones, entries, k) <= LastUsed(clones, entries, sorted[at])
    requires |r| == |sorted| + 1
    requires r[at] == k && (forall i :: 0 <= i < at ==> r[i] == sorted[i])
    requires forall i :: at <= i < |sorted| ==> r[i + 1] == sorted[i]
    ensures ByLastUsed(clones, entries, r)
  {
    forall i | 0 <= i < |r|
      ensures r[i] in entries
    {
      if i < at {
        assert r[i] == sorted[i];
      } else if i > at {
        assert r[i] == sorted[i - 1];
      }
    }
    forall i, j | 0 <= i < j < |r|
      ensures LastUsed(clones, entries, r[i]) <= LastUsed(clones, entries, r[j])
    {
      if j < at {
        assert r[i] == sorted[i] && r[j] == sorted[j];
      } else if j == at {
        assert r[i] == sorted[i] && r[j] == k;
      } else {
        assert r[j] == sorted[j - 1];
        if at < i {
          assert r[i] == sorted[i - 1];
        } else if i < at {
          assert r[i] == sorted[i];
        } else if at < j - 1 {
          assert LastUsed(clones, entries, sorted[at]) <= LastUsed(clones, entries, sorted[j - 1]);
        }
      }
    }
  }

  method InsertByLastUsed(clones: seq<Clone>, entries: map<Key, nat>, sorted: seq<Key>, k: Key) returns (r: seq<Key>)
    requires Indexed(clones, entries) && ByLastUsed(clones, entries, sorted) && k in entries
    ensures multiset(r) == multiset(sorted) + multiset{k} && ByLastUsed(clones, entries, r)
  {
    var at := 0;
    while at < |sorted| && LastUsed(clones, entries, sorted[at]) <= LastUsed(clones, entries, k)
      invariant at <= |sorted|
      invariant forall j :: 0 <= j < at ==> LastUsed(clones, entries, sorted[j]) <= LastUsed(clones, entries, k)
    {
      at := at + 1;
    }
    r := sorted[..at] + [k] + sorted[at..];
    InsertPermutes(sorted, at, k);
    InsertKeeps(clones, entries, sorted, at, k, r);
  }

  /** The sort of line 197. */
  method SortByLastUsed(clones: seq<Clone>, entries: map<Key, nat>, keys: seq<Key>) returns (sorted: seq<Key>)
    requires Indexed(clones, entries) && forall i :: 0 <= i < |keys| ==> keys[i] in entries
    ensures multiset(sorted) == multiset(keys) && ByLastUsed(clones, entries, sorted)
  {
    sorted := [];
    for i := 0 to |keys|
      invariant multiset(sorted) == multiset(keys[..i]) && ByLastUsed(clones, entries, sorted)
    {
      assert keys[..i + 1] == keys[..i] + [keys[i]];
      sorted := InsertByLastUsed(clones, entries, sorted, keys[i]);
    }
    assert keys[..|keys|] == keys;
  }

  /** Lines 187 to 196: drops what expired and lists the other idle clones. */
  method DropExpired(clones: seq<Clone>, entries: map<Key, nat>, now: Time, l: Limits)
    returns (kept: map<Key, nat>, idle: seq<Key>)
    requires Indexed(clones, entries)
    ensures kept.Keys <= entries.Keys && forall k :: k in kept ==> kept[k] == entries[k]
    ensures forall k :: k in entries ==> (k in kept <==> !Expired(clones[entries[k]], now, l))
    ensures forall k :: k in idle <==> k in kept && Unused(clones[entries[k]])
  {
    kept, idle := entries, [];
    var todo := entries.Keys;
    while todo != {}
      invariant todo <= entries.Keys && kept.Keys <= entries.Keys && forall k :: k in kept ==> kept[k] == entries[k]
      invariant forall k :: k in entries ==> (k in kept <==> k in todo || !Expired(clones[entries[k]], now, l))
      invariant forall k :: k in idle <==> k in kept && k !in todo && Unused(clones[entries[k]])
      decreases |todo|
    {
      var k :| k in todo;
      todo := todo - {k};
      var e := clones[entries[k]];
      if e.users == 0 && !e.busy {
        if !e.cloned || now - e.lastUsed > l.idleTTL {
          kept := kept - {k};
        } else {
          idle := idle + [k];
        }
      }
    }
  }

  /** Of the clones that `rest` keeps, `kept` are left; the idle ones among them are
      listed in `idle`, from the oldest on. */
  ghost predicate Dropping(clones: seq<Clone>, entries: map<Key, nat>, l: Limits, rest: map<Key, nat>,
                           kept: map<Key, nat>, idle: seq<Key>)
    requires Indexed(clones, entries) && rest.Keys <= entries.Keys
  {
    && kept.Keys <= rest.Keys && (forall k :: k in kept ==> kept[k] == entries[k])
    && (forall k :: k in rest && !Unused(clones[entries[k]]) ==> k in kept)
    && (forall k :: k in kept && Unused(clones[entries[k]]) ==> k in idle)
    && (forall i :: 0 <= i < |idle| ==> idle[i] in rest && Unused(clones[entries[idle[i]]]))
    && ByLastUsed(clones, entries, idle)
    && (kept == rest || |kept| >= l.maxKept)
    && (forall k, i :: k in rest && k !in kept && 0 <= i < |idle| ==>
          LastUsed(clones, entries, k) <= LastUsed(clones, entries, idle[i]))
  }

  lemma LosesOne(kept: map<Key, nat>, k: Key)
    ensures |kept - {k}| >= |kept| - 1
  {
    assert (kept - {k}).Keys == kept.Keys - {k};
  }

  lemma DropFirst(clones: seq<Clone>, entries: map<Key, nat>, l: Limits, rest: map<Key, nat>, kept: map<Key, nat>,
                  idle: seq<Key>)
    requires Indexed(clones, entries) && rest.Keys <= entries.Keys && Dropping(clones, entries, l, rest, kept, idle)
    requires |kept| > l.maxKept && |idle| > 0
    ensures Dropping(clones, entries, l, rest, kept - {idle[0]}, idle[1..])
  {
    var less, left := kept - {idle[0]}, idle[1..];
    LosesOne(kept, idle[0]);
    assert forall i :: 0 <= i < |left| ==> left[i] == idle[i + 1];
    forall k | k in less && Unused(clones[entries[k]]) ensures k in left {
      StaysListed(idle, k);
    }
    assert ByLastUsed(clones, entries, left);
    DroppedIsOlder(clones, entries, rest, kept, idle);
  }

  lemma StaysListed(idle: seq<Key>, k: Key)
    requires |idle| > 0 && k in idle && k != idle[0]
    ensures k in idle[1..]
  {
    var i :| 0 <= i < |idle| && idle[i] == k;
    assert idle[1..][i - 1] == k;
  }

  lemma DroppedIsOlder(clones: seq<Clone>, entries: map<Key, nat>, rest: map<Key, nat>, kept: map<Key, nat>,
                       idle: seq<Key>)
    requires Indexed(clones, entries) && rest.Keys <= entries.Keys && |idle| > 0
    requires forall i :: 0 <= i < |idle| ==> idle[i] in rest
    requires ByLastUsed(clones, entries, idle)
    requires forall k, i :: k in rest && k !in kept && 0 <= i < |idle| ==>
      LastUsed(clones, entries, k) <= LastUsed(clones, entries, idle[i])
    ensures forall k, i :: k in rest && k !in kept - {idle[0]} && 0 <= i < |idle[1..]| ==>
      LastUsed(clones, entries, k) <= LastUsed(clones, entries, idle[1..][i])
  {
    forall k, i | k in rest && k !in kept - {idle[0]} && 0 <= i < |idle[1..]|
      ensures LastUsed(clones, entries, k) <= LastUsed(clones, entries, idle[1..][i])
    {
      assert idle[1..][i] == idle[i + 1];
      assert LastUsed(clones, entries, idle[0]) <= LastUsed(clones, entries, idle[i + 1]);
    }
  }

  /** Lines 198 to 201: drops the idle clones from the oldest on while too many are kept. */
  method DropOldest(clones: seq<Clone>, entries: map<Key, nat>, l: Limits, rest: map<Key, nat>, oldest: seq<Key>)
    returns (kept: map<Key, nat>, ghost idle: seq<Key>)
    requires Indexed(clones, entries) && rest.Keys <= entries.Keys && Dropping(clones, entries, l, rest, rest, oldest)
    ensures Dropping(clones, entries, l, rest, kept, idle) && (|kept| <= l.maxKept || idle == [])
  {
    kept := rest;
    var left := oldest;
    while |kept| > l.maxKept && |left| > 0
      invariant Dropping(clones, entries, l, rest, kept, left)
      decreases |left|
    {
      DropFirst(clones, entries, l, rest, kept, left);
      kept := kept - {left[0]};
      left := left[1..];
    }
    idle := left;
  }

  lemma DroppedEvicts(clones: seq<Clone>, entries: map<Key, nat>, now: Time, l: Limits, rest: map<Key, nat>,
                      kept: map<Key, nat>, idle: seq<Key>)
    requires Indexed(clones, entries) && rest.Keys <= entries.Keys && Dropping(clones, entries, l, rest, kept, idle)
    requires forall k :: k in entries ==> (k in rest <==> !Expired(clones[entries[k]], now, l))
    requires |kept| <= l.maxKept || idle == []
    ensures Evicts(clones, entries, now, l, kept)
  {
  }

  /** `evictLocked`, lines 184 to 202. */
  method Evict(clones: seq<Clone>, entries: map<Key, nat>, now: Time, l: Limits) returns (kept: map<Key, nat>)
    requires Indexed(clones, entries)
    ensures Evicts(clones, entries, now, l, kept)
    ensures forall k :: k in kept && clones[entries[k]].users == 0 && !clones[entries[k]].busy ==>
      clones[entries[k]].cloned && now - clones[entries[k]].lastUsed <= l.idleTTL
    ensures forall k :: k in entries && k !in kept ==>
      var e := clones[entries[k]];
      e.users == 0 && !e.busy && (!e.cloned || now - e.lastUsed > l.idleTTL || |kept| >= l.maxKept)
  {
    var rest, idle := DropExpired(clones, entries, now, l);
    var oldest := SortByLastUsed(clones, entries, idle);
    assert forall k :: k in oldest <==> k in multiset(oldest);
    assert forall k :: k in idle <==> k in multiset(idle);
    ghost var left;
    kept, left := DropOldest(clones, entries, l, rest, oldest);
    DroppedEvicts(clones, entries, now, l, rest, kept, left);
  }

  // ---------- The cache ----------

  /** The cache itself.  The ghost fields are the world around it: running timers, closed
      channels, directories on disk and callers.  Each method is one step, so whatever
      order they are called in, the cache is in a state `CacheIsSafe` speaks of. */
  class ImportCloneCache {
    const limits: Limits
    var clones: seq<Clone>
    var entries: map<Key, nat>
    var sweeping: bool
    var channels: nat
    ghost var timers: nat
    ghost var closed: set<nat>
    ghost var disk: map<Key, Dir>
    ghost var callers: map<nat, Caller>

    ghost function View(): Cache
      reads this
    {
      Cache(clones, entries, sweeping, timers, channels, closed, disk, callers)
    }

    constructor (limits: Limits)
      ensures this.limits == limits && View() == EMPTY
    {
      this.limits := limits;
      clones, entries, sweeping, channels := [], map[], false, 0;
      timers, closed, disk, callers := 0, {}, map[], map[];
    }

    /** The clone of the key is being fetched, failed, or was fetched more than 30 seconds ago. */
    predicate Wanted(key: Key, now: Time)
      requires Indexed(clones, entries) && key in entries
      reads this
    {
      var e := clones[entries[key]];
      e.busy || e.err || now - e.fetchedAt > 30
    }

    method StartLocked(n: nat, fetch: bool)
      requires n < |clones|
      modifies this`clones, this`channels
      ensures clones == old(clones)[n := Started(old(clones[n]), old(channels), fetch)] && channels == old(channels) + 1
    {
      var e := clones[n];
      e := e.(busy := true);
      e := e.(ready := channels);
      e := e.(job := if fetch then Fetching else Clearing);
      channels := channels + 1;
      clones := clones[n := e];
    }

    method Acquire(ghost id: nat, key: Key, now: Time) returns (n: nat, ready: nat)
      requires Indexed(clones, entries) && id !in callers
      modifies this
      ensures View() == Step(old(View()), Event.Acquire(id, key, now), limits)
      ensures callers[id] == Waiting(n, ready, now) && n < |clones|
      ensures clones[n].busy <==> key !in old(entries) || old(Wanted(key, now))
    {
      ghost var was := View();
      if key !in entries {
        n := |clones|;
        clones := clones + [Clone(key, 0, false, false, false, 0, 0, 0, Idle)];
        entries := entries[key := n];
        StartLocked(n, false);
      } else {
        n := entries[key];
        var e := clones[n];
        if !e.busy && (e.err || now - e.fetchedAt > FETCH_AFTER) {
          StartLocked(n, e.cloned);
        }
      }
      clones := clones[n := clones[n].(users := clones[n].users + 1)];
      ready := clones[n].ready;
      callers := callers[id := Waiting(n, ready, now)];
      assert clones == AcquireTo(was, id, key, now).clones;
    }

    /** The wait ends with the channel closed: the clone is handed out, or its error. */
    method Serve(ghost id: nat, n: nat, now: Time) returns (ok: bool)
      requires Indexed(clones, entries) && n < |clones|
      requires id in callers && callers[id].Waiting? && callers[id].clone == n && callers[id].channel in closed
      modifies this`callers
      ensures View() == Step(old(View()), Wake(id, now), limits)
      ensures ok <==> callers[id] == Holding(n, old(callers[id]).since, now)
    {
      ok := true;
      if clones[n].err {
        if !clones[n].cloned || now - clones[n].fetchedAt > STALE_OK {
          ok := false;
        }
      }
      callers := callers[id := if ok then Holding(n, callers[id].since, now) else Leaving(n)];
    }

    method EvictLocked(now: Time)
      requires Indexed(clones, entries)
      modifies this`entries, this`disk
      ensures Evicts(clones, old(entries), now, limits, entries)
      ensures forall k :: k in entries && clones[entries[k]].users == 0 && !clones[entries[k]].busy ==>
        clones[entries[k]].cloned && now - clones[entries[k]].lastUsed <= limits.idleTTL
      ensures View() == Dropped(old(View()), entries)
    {
      var kept := Evict(clones, entries, now, limits);
      disk := Dropped(View(), kept).disk;
      entries := kept;
    }

    /** Starts the timer of the next sweep, if none runs and a clone is left. */
    method Arm()
      modifies this`sweeping, this`timers
      ensures View() == ArmSweep(old(View()))
    {
      if !sweeping && |entries| > 0 {
        sweeping := true;
        timers := timers + 1;
      }
    }

    method Release(ghost id: nat, n: nat, at: Time, now: Time)
      requires Indexed(clones, entries) && n < |clones| && clones[n].users > 0
      requires id in callers && !callers[id].Waiting? && callers[id].clone == n
      modifies this
      ensures exists kept :: Enabled(old(View()), Event.Release(id, at, now, kept), limits)
                && View() == Step(old(View()), Event.Release(id, at, now, kept), limits)
    {
      ghost var was := View();
      clones := clones[n := clones[n].(users := clones[n].users - 1, lastUsed := at)];
      callers := callers - {id};
      assert View() == LeaveTo(was, id, at);
      EvictLocked(now);
      assert Enabled(was, Event.Release(id, at, now, entries), limits);
      Arm();
    }

    method Sweep(now: Time)
      requires Indexed(clones, entries) && timers > 0
      modifies this
      ensures exists kept :: Enabled(old(View()), Event.Sweep(now, kept), limits)
                && View() == Step(old(View()), Event.Sweep(now, kept), limits)
    {
      ghost var was := View();
      timers := timers - 1;
      sweeping := false;
      EvictLocked(now);
      ghost var kept := entries;
      assert View() == Dropped(was.(timers := was.timers - 1, sweeping := false), kept);
      assert Enabled(was, Event.Sweep(now, kept), limits);
      Arm();
      assert View() == Step(was, Event.Sweep(now, kept), limits);
    }

    /** The end of a background command: `err` is whether it failed. */
    method Finish(n: nat, err: bool, now: Time)
      requires Indexed(clones, entries) && n < |clones| && (clones[n].job == Fetching || clones[n].job == Cloning)
      modifies this
      ensures View() == Step(old(View()), Event.Finish(n, !err, now), limits)
    {
      ghost var was := View();
      var e := clones[n].(err := err);
      if !err {
        e := e.(cloned := true, fetchedAt := now);
      }
      clones := clones[n := e.(busy := false, job := Idle)];
      closed := closed + {e.ready};
      disk := FinishTo(was, n, !err, now).disk;
    }
  }
}
