/** Whole interleaved runs of the slab allocator. */
module SlabRuns {
  import Bits
  import opened Common
  import opened SlabModel
  import opened SlabProtocol

  /** The scheduler lets a thread take a step; the call matters if the thread is idle. */
  datatype Turn = Turn(thread: nat, call: Call)

  /** A blocked thread, or one that does not exist, does nothing in its turn. */
  ghost function Take(s: State, turn: Turn): (s': State)
    requires Inv(s)
    ensures Inv(s') && |s'.threads| == |s.threads| && s'.pool.total == s.pool.total
  {
    if turn.thread < |s.threads| && Enabled(s, turn.thread)
    then StepInv(s, turn.thread, turn.call); Step(s, turn.thread, turn.call)
    else s
  }

  ghost function Run(total: nat, threads: nat, turns: seq<Turn>): (s: State)
    ensures Inv(s) && |s.threads| == threads && s.pool.total == total
  {
    if turns == [] then StartInv(total, threads); Start(total, threads)
    else Take(Run(total, threads, turns[..|turns| - 1]), turns[|turns| - 1])
  }

  // ---------- safety ----------

  /**
   In every interleaving each set bit has exactly one owner: an id, or one thread on its way to or from the id map.
   */
  lemma OneOwner(total: nat, threads: nat, turns: seq<Turn>, k: nat, j: nat)
    ensures var s := Run(total, threads, turns);
      BitSet(s.pool, k, j) <==> exists o :: Owns(s, o, Slot(k, j))
    ensures var s := Run(total, threads, turns);
      forall o, o' :: Owns(s, o, Slot(k, j)) && Owns(s, o', Slot(k, j)) ==> o == o'
  {
    var s, x := Run(total, threads, turns), Slot(k, j);
    if BitSet(s.pool, k, j) {
      assert BitSet(s.pool, x.slab, x.slot);
    }
  }

  lemma BlockInPool(s: State, id: int)
    requires Inv(s) && id in s.pool.idMap
    ensures var r := s.pool.idMap[id];
      && r.cls < NUM_CACHES && r.addr % CACHE_SIZES[r.cls] == 0 && r.addr + CACHE_SIZES[r.cls] <= s.pool.total
      && r.slab * SLAB_SIZE <= r.addr && r.addr + CACHE_SIZES[r.cls] <= r.slab * SLAB_SIZE + SLAB_SIZE
      && r.addr == Address(r.slab, r.cls, r.slot) && r.slab in s.pool.slabs && s.pool.slabs[r.slab].cls == r.cls
  {
    var r := s.pool.idMap[id];
    assert RecordOk(s.pool, r) && r.slab < s.pool.created;
    hide OwnersOk, LocksOk, ThreadsOk, PrivateOk;
    Inside(r.slab, r.cls, r.slot);
    SlabsFit(r.slab, s.pool.created);
  }

  /** Live blocks are aligned to their class, lie in the pool, and never overlap, whatever their classes. */
  lemma LiveBlocks(total: nat, threads: nat, turns: seq<Turn>, a: int, b: int)
    requires var p := Run(total, threads, turns).pool; a in p.idMap && b in p.idMap
    ensures var m := Run(total, threads, turns).pool.idMap;
      && m[a].cls < NUM_CACHES && m[b].cls < NUM_CACHES
      && var (size, size') := (CACHE_SIZES[m[a].cls], CACHE_SIZES[m[b].cls]);
      && m[a].addr % size == 0 && m[a].addr + size <= total
      && (a != b ==> m[a].addr + size <= m[b].addr || m[b].addr + size' <= m[a].addr)
  {
    var s := Run(total, threads, turns);
    BlockInPool(s, a);
    BlockInPool(s, b);
    if a != b {
      BlocksApart(s, a, b);
    }
    hide Inv, Run;
  }

  lemma BlocksApart(s: State, a: int, b: int)
    requires Inv(s) && a in s.pool.idMap && b in s.pool.idMap && a != b
    ensures var (r, q) := (s.pool.idMap[a], s.pool.idMap[b]);
      && r.cls < NUM_CACHES && q.cls < NUM_CACHES
      && (r.addr + CACHE_SIZES[r.cls] <= q.addr || q.addr + CACHE_SIZES[q.cls] <= r.addr)
  {
    var r, q := s.pool.idMap[a], s.pool.idMap[b];
    BlockInPool(s, a);
    BlockInPool(s, b);
    assert Owns(s, ById(a), Slot(r.slab, r.slot)) && Owns(s, ById(b), Slot(q.slab, q.slot));
    assert r.slab != q.slab || r.slot != q.slot;
    hide Inv, Owns;
    if r.slab < q.slab {
      SlabsFit(r.slab, q.slab);
    } else if q.slab < r.slab {
      SlabsFit(q.slab, r.slab);
    } else {
      SlotsApart(r.slot, q.slot, CACHE_SIZES[r.cls]);
    }
  }

  lemma SlabsFit(k: nat, n: nat)
    requires k < n
    ensures k * SLAB_SIZE + SLAB_SIZE <= n * SLAB_SIZE
  {
  }

  lemma SlotsApart(i: nat, j: nat, size: nat)
    ensures i < j ==> i * size + size <= j * size
    ensures j < i ==> j * size + size <= i * size
  {
    Bits.MulMonotonic(i, i, size);
    Bits.MulMonotonic(j, j, size);
    if i < j {
      Bits.MulMonotonic(i + 1, j, size);
    } else if j < i {
      Bits.MulMonotonic(j + 1, i, size);
    }
  }

  lemma Inside(k: nat, c: nat, j: nat)
    requires c < NUM_CACHES && j < SlotsOf(c)
    ensures k * SLAB_SIZE <= Address(k, c, j) && Address(k, c, j) + CACHE_SIZES[c] <= k * SLAB_SIZE + SLAB_SIZE
    ensures Address(k, c, j) % CACHE_SIZES[c] == 0
  {
    var z, n := CACHE_SIZES[c], SlotsOf(c);
    SlotsApart(j, n, z);
    Multiple(k, n, j, z);
  }

  lemma Multiple(k: nat, n: nat, j: nat, z: nat)
    requires z > 0 && n * z == SLAB_SIZE
    ensures (k * SLAB_SIZE + j * z) % z == 0
  {
    assert k * (n * z) + j * z == (k * n + j) * z;
    ModZero(k * n + j, z);
  }

  lemma ModZero(q: nat, z: nat)
    requires z > 0
    ensures (q * z) % z == 0
  {
    Bits.QuotientUnique(q * z, z, q, 0);
  }

  // ---------- when an allocation fails ----------

  /**
   A thread gives up exactly when every slot of its class's slabs is taken and as many slabs were carved out as the pool
   holds.
   */
  lemma FailsOnlyWhenFull(s: State, t: nat, call: Call)
    requires Inv(s) && t < |s.threads| && Enabled(s, t) && !s.threads[t].Idle?
    ensures var next := Step(s, t, call).threads[t];
      next.Leaving? && next.result == -1 <==> s.threads[t].Creating? && s.pool.created == s.pool.total / 1024
    ensures s.threads[t].Creating? ==> !SlotFree(s.pool, s.threads[t].cls)
  {
    assert ThreadOk(s.pool, s.threads[t]);
    SpaceLeft(s.pool);
    if s.threads[t].Creating? {
      RoomIsFreeSlot(s.pool, s.threads[t].cls);
    }
    StepFollows(s, t, call);
    LocksKept(s, Step(s, t, call), t, Step(s, t, call).threads[t]);
    match s.threads[t] {
      case Searching(_) => SearchStep(s, t, call);
      case HasNewSlab(_, _) => NewSlabStep(s, t, call);
      case _ =>
    }
    assert s.pool.nextId >= 1;
    hide Inv, TakeListed, TakeNew, Return, Publish, CountAllocation, Erase, LocksFollow;
  }

  // ---------- no deadlock ----------

  datatype Lock = CacheLock(cls: nat) | PoolLock | IdLock

  /** The lock that the next step of a thread takes. */
  function Awaited(th: Thread): Option<Lock> {
    match th
    case WantCache(c) => Some(CacheLock(c))
    case WantPool(_) => Some(PoolLock)
    case HasSlot(_, _, _) => Some(IdLock)
    case WantIds(_) => Some(IdLock)
    case Erased(_, rec) => Some(CacheLock(rec.cls))
    case _ => None
  }

  predicate HoldsLock(th: Thread, lock: Lock) {
    match lock
    case CacheLock(c) => CacheHeld(th) == Some(c)
    case PoolLock => PoolHeld(th)
    case IdLock => IdsHeld(th)
  }

  /** Thread t waits for a lock that thread u holds. */
  predicate WaitsFor(s: State, t: nat, u: nat) {
    && t < |s.threads| && u < |s.threads| && Awaited(s.threads[t]).Some?
    && HoldsLock(s.threads[u], Awaited(s.threads[t]).value)
  }

  function Variable(s: State, lock: Lock): Option<nat>
    requires |s.cacheLocks| == NUM_CACHES && (lock.CacheLock? ==> lock.cls < NUM_CACHES)
  {
    match lock
    case CacheLock(c) => s.cacheLocks[c]
    case PoolLock => s.poolLock
    case IdLock => s.idLock
  }

  lemma HolderOf(s: State, lock: Lock, u: nat)
    requires LocksOk(s) && (lock.CacheLock? ==> lock.cls < NUM_CACHES)
    ensures Variable(s, lock) == Some(u) <==> u < |s.threads| && HoldsLock(s.threads[u], lock)
  {
    hide CacheHeld, PoolHeld, IdsHeld;
  }

  lemma Blocked(s: State, t: nat)
    requires Inv(s) && t < |s.threads| && !Enabled(s, t)
    ensures Awaited(s.threads[t]).Some?
    ensures var lock := Awaited(s.threads[t]).value;
      && LocksOk(s) && (lock.CacheLock? ==> lock.cls < NUM_CACHES)
      && Variable(s, lock).Some? && !HoldsLock(s.threads[t], lock)
  {
    assert ThreadOk(s.pool, s.threads[t]);
    hide OwnersOk, PrivateOk, PoolOk, IdsOk, HasRoom, RecordOk;
  }

  /** A blocked thread waits for exactly one thread, which is another one. */
  lemma Blocker(s: State, t: nat) returns (u: nat)
    requires Inv(s) && t < |s.threads| && !Enabled(s, t)
    ensures u != t && forall w: nat :: WaitsFor(s, t, w) <==> w == u
  {
    Blocked(s, t);
    var lock := Awaited(s.threads[t]).value;
    u := Variable(s, lock).value;
    hide Inv, Enabled, LocksOk, HoldsLock, Variable, Awaited;
    forall w: nat
      ensures WaitsFor(s, t, w) <==> w == u
    {
      HolderOf(s, lock, w);
    }
  }

  /** Who holds the pool or the id map waits for nothing; who holds a cache waits for one of these at most. */
  lemma LockOrder(s: State, t: nat)
    requires Inv(s) && t < |s.threads|
    ensures PoolHeld(s.threads[t]) || IdsHeld(s.threads[t]) ==> Enabled(s, t)
    ensures CacheHeld(s.threads[t]).Some? && Awaited(s.threads[t]).Some? ==> !Awaited(s.threads[t]).value.CacheLock?
  {
  }

  /** A thread that cannot go on waits for one thread, and that can go on or waits for one that can. */
  lemma WaitChain(s: State, t: nat) returns (u: nat)
    requires Inv(s) && t < |s.threads| && !Enabled(s, t)
    ensures u != t && forall w: nat :: WaitsFor(s, t, w) <==> w == u
    ensures u < |s.threads|
      && (Enabled(s, u) || exists v: nat :: v < |s.threads| && WaitsFor(s, u, v) && v != t && Enabled(s, v))
  {
    u := Blocker(s, t);
    assert WaitsFor(s, t, u);
    LockOrder(s, u);
    if !Enabled(s, u) {
      var v := Blocker(s, u);
      assert WaitsFor(s, u, v);
      LockOrder(s, v);
    }
    hide Inv;
  }

  lemma HolderBusy(s: State, t: nat, u: nat)
    requires WaitsFor(s, t, u)
    ensures u < |s.threads| && !s.threads[u].Idle?
  {
  }

  /** If any thread is inside a call, some thread inside a call can take a step. */
  lemma NoDeadlock(s: State, t: nat)
    requires Inv(s) && t < |s.threads| && !s.threads[t].Idle?
    ensures exists u: nat :: u < |s.threads| && !s.threads[u].Idle? && Enabled(s, u)
  {
    hide Enabled, WaitsFor;
    if !Enabled(s, t) {
      var u := WaitChain(s, t);
      HolderBusy(s, t, u);
      if !Enabled(s, u) {
        var v: nat :| v < |s.threads| && WaitsFor(s, u, v) && v != t && Enabled(s, v);
        HolderBusy(s, u, v);
      }
    }
  }

  /** How many steps a thread is from the end of its call. */
  function Rank(t: Thread): nat {
    match t
    case Idle => 0
    case Leaving(_, _) => 1
    case Publishing(_, _, _) => 2
    case HasSlot(_, _, _) => 3
    case HasNewSlab(_, _) => 4
    case Creating(_) => 5
    case WantPool(_) => 6
    case Searching(_) => 7
    case WantCache(_) => 8
    case Returning(_, _) => 1
    case Erased(_, _) => 2
    case LookingUp(_) => 3
    case WantIds(_) => 4
  }

  /** Every step inside a call brings the thread nearer to its end, so no call takes more than eight steps. */
  lemma Progress(s: State, t: nat, call: Call)
    requires Inv(s) && t < |s.threads| && Enabled(s, t) && !s.threads[t].Idle?
    ensures Rank(Step(s, t, call).threads[t]) < Rank(s.threads[t]) <= 8
  {
    hide Inv, TakeListed, TakeNew, Return, Publish, CountAllocation, Erase;
  }

  function TotalRank(threads: seq<Thread>): nat {
    if threads == [] then 0 else Rank(threads[0]) + TotalRank(threads[1..])
  }

  lemma {:induction false} TotalDrops(threads: seq<Thread>, t: nat, next: Thread)
    requires t < |threads| && Rank(next) < Rank(threads[t])
    ensures TotalRank(threads[t := next]) < TotalRank(threads)
  {
    hide Rank;
    if t == 0 {
      assert threads[t := next][1..] == threads[1..];
    } else {
      assert threads[t := next][1..] == threads[1..][t - 1 := next];
      TotalDrops(threads[1..], t - 1, next);
    }
  }

  lemma {:induction false} TotalBound(threads: seq<Thread>)
    ensures TotalRank(threads) <= 8 * |threads|
  {
    if threads != [] {
      TotalBound(threads[1..]);
    }
  }

  /** The turn is a step inside a call. */
  predicate Continues(s: State, turn: Turn)
    requires |s.cacheLocks| == NUM_CACHES
  {
    turn.thread < |s.threads| && !s.threads[turn.thread].Idle? && Enabled(s, turn.thread)
  }

  /** Every turn is a step inside a call; no call begins. */
  ghost predicate Draining(s: State, turns: seq<Turn>)
    requires Inv(s)
    decreases |turns|
  {
    turns == [] || (Continues(s, turns[0]) && Draining(Take(s, turns[0]), turns[1..]))
  }

  ghost function TakeAll(s: State, turns: seq<Turn>): (s': State)
    requires Inv(s)
    ensures Inv(s') && |s'.threads| == |s.threads|
    decreases |turns|
  {
    if turns == [] then s else TakeAll(Take(s, turns[0]), turns[1..])
  }

  lemma DrainStep(s: State, turn: Turn)
    requires Inv(s) && Continues(s, turn)
    ensures TotalRank(Take(s, turn).threads) < TotalRank(s.threads)
  {
    Progress(s, turn.thread, turn.call);
    StepFollows(s, turn.thread, turn.call);
    hide Inv, Step, Enabled, Rank;
    TotalDrops(s.threads, turn.thread, Step(s, turn.thread, turn.call).threads[turn.thread]);
  }

  lemma {:induction false} DrainRank(s: State, turns: seq<Turn>)
    requires Inv(s) && Draining(s, turns)
    ensures |turns| + TotalRank(TakeAll(s, turns).threads) <= TotalRank(s.threads)
    decreases |turns|
  {
    hide Inv, Take, Continues;
    if turns != [] {
      DrainStep(s, turns[0]);
      DrainRank(Take(s, turns[0]), turns[1..]);
    }
  }

  /**
   When no call begins, the threads take at most eight steps each, in whatever order; and when none of them can go on
   inside its call, all calls are over.
   */
  lemma CallsEnd(s: State, turns: seq<Turn>)
    requires Inv(s) && Draining(s, turns)
    ensures |turns| <= 8 * |s.threads|
    ensures var s' := TakeAll(s, turns);
      || (exists turn :: |s'.cacheLocks| == NUM_CACHES && Continues(s', turn))
      || (forall t: nat :: t < |s'.threads| ==> s'.threads[t].Idle?)
  {
    DrainRank(s, turns);
    TotalBound(s.threads);
    var s' := TakeAll(s, turns);
    if t: nat :| t < |s'.threads| && !s'.threads[t].Idle? {
      NoDeadlock(s', t);
      var u: nat :| u < |s'.threads| && !s'.threads[u].Idle? && Enabled(s', u);
      assert Continues(s', Turn(u, Deallocate(0)));
    }
  }

  // ---------- repeated frees ----------

  /** The turn clears the bit of a block that was freed by this id. */
  ghost predicate Releases(s: State, turn: Turn, id: int)
    requires Inv(s)
  {
    && turn.thread < |s.threads| && Enabled(s, turn.thread)
    && s.threads[turn.thread].Returning? && s.threads[turn.thread].id == id
  }

  ghost function Released(total: nat, threads: nat, turns: seq<Turn>, id: int): nat {
    if turns == [] then 0
    else
      var before := turns[..|turns| - 1];
      Released(total, threads, before, id)
      + if Releases(Run(total, threads, before), turns[|turns| - 1], id) then 1 else 0
  }

  ghost predicate Pending(s: State, id: int) {
    exists t: nat :: t < |s.threads| && PrivateOf(s.threads[t]) == ErasedId(id)
  }

  /** The id may still lead to a release: it is published, will be, or a thread is about to free its slot. */
  ghost predicate MayRelease(s: State, id: int) {
    id >= s.pool.nextId || id in s.pool.idMap || Pending(s, id)
  }

  lemma TakeReleases(s: State, turn: Turn, id: int)
    requires Inv(s)
    ensures MayRelease(Take(s, turn), id) ==> MayRelease(s, id)
    ensures Releases(s, turn, id) ==> MayRelease(s, id) && !MayRelease(Take(s, turn), id)
  {
    var t, s' := turn.thread, Take(s, turn);
    if t < |s.threads| && Enabled(s, t) {
      if MayRelease(s', id) {
        StepMay(s, t, turn.call, id);
      }
      if Releases(s, turn, id) {
        StepReleases(s, t, turn.call, id);
      }
    }
  }

  lemma StepMay(s: State, t: nat, call: Call, id: int)
    requires Inv(s) && t < |s.threads| && Enabled(s, t) && MayRelease(Step(s, t, call), id)
    ensures MayRelease(s, id)
  {
    var s' := Step(s, t, call);
    StepFollows(s, t, call);
    StepIds(s, t, call);
    hide Inv, Step, Enabled;
    if Pending(s', id) {
      var u: nat :| u < |s'.threads| && PrivateOf(s'.threads[u]) == ErasedId(id);
      if u != t || PrivateOf(s.threads[t]) == ErasedId(id) {
        assert PrivateOf(s.threads[u]) == ErasedId(id);
      }
    }
  }

  /** What a step does to the ids. */
  ghost predicate IdsMove(s: State, s': State, t: nat)
    requires t < |s.threads|
  {
    && t < |s'.threads| && s'.pool.nextId >= s.pool.nextId
    && (forall id :: id in s'.pool.idMap ==> id in s.pool.idMap || id >= s.pool.nextId)
    && (forall id :: PrivateOf(s'.threads[t]) == ErasedId(id) ==>
          PrivateOf(s.threads[t]) == ErasedId(id) || id in s.pool.idMap)
    && (s.threads[t].Returning? ==>
          s'.pool.idMap == s.pool.idMap && s'.pool.nextId == s.pool.nextId && s'.threads[t] == Idle)
  }

  lemma SearchIds(s: State, t: nat, call: Call)
    requires Inv(s) && t < |s.threads| && Enabled(s, t) && s.threads[t].Searching?
    ensures IdsMove(s, Step(s, t, call), t)
  {
    assert ThreadOk(s.pool, s.threads[t]);
    if HasRoom(s.pool, s.threads[t].cls) {
      TakeListedCorrect(s.pool, s.threads[t].cls);
    }
    hide Inv, HasRoom, TakeListed, Took;
  }

  /** In an allocation only publishing touches the ids. */
  lemma AllocatingIds(s: State, t: nat, call: Call)
    requires Inv(s) && t < |s.threads| && Enabled(s, t) && Allocating(s.threads[t])
    ensures IdsMove(s, Step(s, t, call), t)
  {
    hide Inv, HasRoom, AllocSlot, NewSlab, Shelve, Push, TakeListed, CanCreate;
  }

  predicate Allocating(th: Thread) {
    th.WantCache? || th.WantPool? || th.Creating? || th.HasNewSlab? || th.HasSlot? || th.Publishing? || th.Leaving?
  }

  lemma StepIds(s: State, t: nat, call: Call)
    requires Inv(s) && t < |s.threads| && Enabled(s, t)
    ensures IdsMove(s, Step(s, t, call), t)
  {
    hide Inv, Enabled, Step, IdsMove, Allocating;
    if s.threads[t].Searching? {
      SearchIds(s, t, call);
    } else if Allocating(s.threads[t]) {
      AllocatingIds(s, t, call);
    } else {
      FreeingIds(s, t, call);
    }
  }

  lemma FreeingIds(s: State, t: nat, call: Call)
    requires Inv(s) && t < |s.threads| && Enabled(s, t) && !Allocating(s.threads[t]) && !s.threads[t].Searching?
    ensures IdsMove(s, Step(s, t, call), t)
  {
    hide Inv, FreeSlot, Push, Remove;
  }

  lemma StepReleases(s: State, t: nat, call: Call, id: int)
    requires Inv(s) && t < |s.threads| && Enabled(s, t) && s.threads[t].Returning? && s.threads[t].id == id
    ensures MayRelease(s, id) && !MayRelease(Step(s, t, call), id)
  {
    var s' := Step(s, t, call);
    assert ThreadOk(s.pool, s.threads[t]);
    StepFollows(s, t, call);
    StepIds(s, t, call);
    assert PrivateOf(s.threads[t]) == ErasedId(id);
    forall u: nat | u < |s'.threads|
      ensures PrivateOf(s'.threads[u]) != ErasedId(id)
    {
      assert u < t ==> PrivateOf(s.threads[u]) == NoneOfThese || PrivateOf(s.threads[u]) != PrivateOf(s.threads[t]);
      assert t < u ==> PrivateOf(s.threads[t]) == NoneOfThese || PrivateOf(s.threads[t]) != PrivateOf(s.threads[u]);
    }
    hide Step, Inv, Enabled;
  }

  lemma {:induction false} ReleasesLeft(total: nat, threads: nat, turns: seq<Turn>, id: int)
    ensures Released(total, threads, turns, id) + (if MayRelease(Run(total, threads, turns), id) then 1 else 0) <= 1
  {
    if turns != [] {
      var before := turns[..|turns| - 1];
      ReleasesLeft(total, threads, before, id);
      TakeReleases(Run(total, threads, before), turns[|turns| - 1], id);
    }
  }

  /** However often and by however many threads an id is freed, at most one slot is released for it. */
  lemma RepeatedFree(total: nat, threads: nat, turns: seq<Turn>, id: int)
    ensures Released(total, threads, turns, id) <= 1
  {
    ReleasesLeft(total, threads, turns, id);
  }
}
