/** Whole calls of `allocate` and `deallocate` on the pool, and their agreement with the interleaved steps. */
module SlabCalls {
  import opened Common
  import opened SlabModel
  import opened SlabProtocol

  function Finish(p: Pool, c: nat, k: nat, j: int): (Pool, int)
    requires c < NUM_CACHES && c < |p.lists|
  {
    if j < 0 then (p, -1) else (CountAllocation(Publish(p, RecordFor(c, k, j)), c), p.nextId)
  }

  ghost function Allocate(p: Pool, size: nat): (Pool, int)
    requires PoolOk(p)
  {
    var c := ClassFor(size);
    if size == 0 || c == NUM_CACHES then (p, -1)
    else if HasRoom(p, c) then
      ListedSlabs(p, c);
      var (p', k, j) := TakeListed(p, c);
      Finish(p', c, k, j)
    else if CanCreate(p) then
      var (p', j) := TakeNew(p.(created := p.created + 1), c, p.created);
      Finish(p', c, p.created, j)
    else (p, -1)
  }

  ghost function Deallocate(p: Pool, id: int): Pool
    requires id in p.idMap ==> p.idMap[id].cls < |p.lists| && p.idMap[id].slab in p.slabs
  {
    if id in p.idMap then Return(Erase(p, id), p.idMap[id]) else p
  }

  // ---------- a call is an uninterrupted run of the thread that makes it ----------

  /** The system with one thread, which is at the given place and holds the locks of that place. */
  function Solo(p: Pool, th: Thread): State {
    State(p, seq(NUM_CACHES, c => if CacheHeld(th) == Some(c) then Some(0) else None),
          if PoolHeld(th) then Some(0) else None, if IdsHeld(th) then Some(0) else None, [th])
  }

  /** No call is going on. */
  ghost predicate Quiet(p: Pool) {
    Inv(Solo(p, Idle))
  }

  /** The one thread goes on from a place to its next one. */
  lemma SoloStep(p: Pool, th: Thread, call: Call, p': Pool, th': Thread)
    requires Inv(Solo(p, th)) && Enabled(Solo(p, th), 0)
    requires Step(Solo(p, th), 0, call).pool == p' && Step(Solo(p, th), 0, call).threads == [th']
    ensures Step(Solo(p, th), 0, call) == Solo(p', th') && Inv(Solo(p', th'))
  {
    var s' := Step(Solo(p, th), 0, call);
    StepInv(Solo(p, th), 0, call);
    SoloLocks(s', p', th');
  }

  /** With one thread its place says which locks are held. */
  lemma SoloLocks(s: State, p: Pool, th: Thread)
    requires LocksOk(s) && s.threads == [th] && s.pool == p
    ensures s == Solo(p, th)
  {
    hide CacheHeld, PoolHeld, IdsHeld;
    forall c: nat | c < NUM_CACHES
      ensures s.cacheLocks[c] == Solo(p, th).cacheLocks[c]
    {
      LockIsOurs(s, s.cacheLocks[c]);
      assert s.cacheLocks[c] == Some(0) <==> CacheHeld(th) == Some(c);
    }
    LockIsOurs(s, s.poolLock);
    LockIsOurs(s, s.idLock);
    assert s.poolLock == Some(0) <==> PoolHeld(th);
    assert s.idLock == Some(0) <==> IdsHeld(th);
    assert s.cacheLocks == Solo(p, th).cacheLocks;
  }

  lemma LockIsOurs(s: State, lock: Option<nat>)
    requires LocksOk(s) && |s.threads| == 1
    requires lock == s.poolLock || lock == s.idLock || exists c: nat :: c < NUM_CACHES && s.cacheLocks[c] == lock
    ensures lock.Some? ==> lock.value == 0
  {
  }

  /** n steps of the only thread, which makes one and the same call whenever it is idle. */
  ghost function Steps(s: State, n: nat, call: Call): State
    requires Inv(s) && |s.threads| == 1
    decreases n
  {
    if n == 0 || !Enabled(s, 0) then s
    else StepInv(s, 0, call); Steps(Step(s, 0, call), n - 1, call)
  }

  /** After n steps the call is over and the pool is q; one step earlier the thread leaves the cache with result r. */
  ghost predicate Ends(s: State, n: nat, call: Call, c: nat, q: Pool, r: int) {
    && Inv(s) && |s.threads| == 1 && n > 0
    && Steps(s, n - 1, call).threads == [Leaving(c, r)] && Steps(s, n, call) == Solo(q, Idle)
  }

  lemma Onward(p: Pool, th: Thread, call: Call, p': Pool, th': Thread, n: nat)
    requires Inv(Solo(p, th)) && Enabled(Solo(p, th), 0) && n > 0
    requires Step(Solo(p, th), 0, call).pool == p' && Step(Solo(p, th), 0, call).threads == [th']
    ensures Inv(Solo(p', th')) && Steps(Solo(p, th), n, call) == Steps(Solo(p', th'), n - 1, call)
    ensures forall c, q, r :: Ends(Solo(p', th'), n - 1, call, c, q, r) ==> Ends(Solo(p, th), n, call, c, q, r)
  {
    SoloStep(p, th, call, p', th');
  }

  /** The last step of an allocation: the result is handed over and the lock of the cache released. */
  lemma LeavingEnds(p: Pool, c: nat, r: int, call: Call)
    requires Inv(Solo(p, Leaving(c, r)))
    ensures c < |p.lists|
    ensures Ends(Solo(p, Leaving(c, r)), 1, call, c, if r == -1 then p else CountAllocation(p, c), r)
  {
    assert ThreadOk(p, Solo(p, Leaving(c, r)).threads[0]);
    hide Inv, CountAllocation;
    Onward(p, Leaving(c, r), call, if r == -1 then p else CountAllocation(p, c), Idle, 1);
  }

  /** From a slot taken to the end of the call. */
  lemma FinishRuns(p: Pool, c: nat, k: nat, j: nat, call: Call)
    requires Inv(Solo(p, HasSlot(c, k, j))) && c < NUM_CACHES
    ensures |p.lists| == NUM_CACHES
    ensures Ends(Solo(p, HasSlot(c, k, j)), 3, call, c, Finish(p, c, k, j).0, Finish(p, c, k, j).1)
    ensures Finish(p, c, k, j).1 == p.nextId >= 1
  {
    assert |p.lists| == NUM_CACHES && p.nextId >= 1;
    hide Inv, Ends, Steps, CountAllocation;
    var p1 := Publish(p, RecordFor(c, k, j));
    Onward(p, HasSlot(c, k, j), call, p, Publishing(c, k, j), 3);
    Onward(p, Publishing(c, k, j), call, p1, Leaving(c, p.nextId), 2);
    LeavingEnds(p1, c, p.nextId, call);
  }

  /** How many steps the call takes. */
  ghost function Length(p: Pool, size: nat): nat
    requires PoolOk(p)
  {
    var c := ClassFor(size);
    if size == 0 || c == NUM_CACHES then 1 else if HasRoom(p, c) || !CanCreate(p) then 6 else 9
  }

  lemma NewSlabRuns(p: Pool, c: nat, k: nat, call: Call)
    requires Inv(Solo(p, HasNewSlab(c, k)))
    ensures c < NUM_CACHES && |p.lists| == NUM_CACHES
    ensures var (p', j) := TakeNew(p, c, k);
      Ends(Solo(p, HasNewSlab(c, k)), 4, call, c, Finish(p', c, k, j).0, Finish(p', c, k, j).1)
  {
    assert ThreadOk(p, Solo(p, HasNewSlab(c, k)).threads[0]);
    TakeNewCorrect(p, c, k);
    hide Inv, PoolOk, TakeNew, Finish, Ends, Steps;
    var (p', j) := TakeNew(p, c, k);
    Onward(p, HasNewSlab(c, k), call, p', HasSlot(c, k, j), 4);
    FinishRuns(p', c, k, j, call);
  }

  lemma CreatingRuns(p: Pool, c: nat, call: Call)
    requires Inv(Solo(p, Creating(c)))
    ensures c < NUM_CACHES && |p.lists| == NUM_CACHES
    ensures !CanCreate(p) ==> Ends(Solo(p, Creating(c)), 2, call, c, p, -1)
    ensures CanCreate(p) ==>
      var (p', j) := TakeNew(p.(created := p.created + 1), c, p.created);
      Ends(Solo(p, Creating(c)), 5, call, c, Finish(p', c, p.created, j).0, Finish(p', c, p.created, j).1)
  {
    assert ThreadOk(p, Solo(p, Creating(c)).threads[0]);
    assert |p.lists| == NUM_CACHES;
    hide Inv, TakeNew, Finish, Ends, Steps;
    if CanCreate(p) {
      var p0 := p.(created := p.created + 1);
      Onward(p, Creating(c), call, p0, HasNewSlab(c, p.created), 5);
      NewSlabRuns(p0, c, p.created, call);
    } else {
      Onward(p, Creating(c), call, p, Leaving(c, -1), 2);
      LeavingEnds(p, c, -1, call);
    }
  }

  lemma ListedRuns(p: Pool, c: nat, call: Call)
    requires Inv(Solo(p, Searching(c))) && PoolOk(p) && c < NUM_CACHES && HasRoom(p, c)
    ensures forall k :: k in p.lists[c].partial + p.lists[c].empty ==> k in p.slabs
    ensures var (p', k, j) := TakeListed(p, c);
      Ends(Solo(p, Searching(c)), 4, call, c, Finish(p', c, k, j).0, Finish(p', c, k, j).1)
  {
    assert |p.lists| == NUM_CACHES;
    hide Inv, PoolOk, TakeListed, Finish, Ends, Steps;
    ListedSlabs(p, c);
    TakeListedCorrect(p, c);
    var (p', k, j) := TakeListed(p, c);
    Onward(p, Searching(c), call, p', HasSlot(c, k, j), 4);
    FinishRuns(p', c, k, j, call);
  }

  lemma UnlistedRuns(p: Pool, c: nat, call: Call)
    requires Inv(Solo(p, Searching(c))) && |p.lists| == NUM_CACHES && c < NUM_CACHES && !HasRoom(p, c)
    ensures !CanCreate(p) ==> Ends(Solo(p, Searching(c)), 4, call, c, p, -1)
    ensures CanCreate(p) ==>
      var (p', j) := TakeNew(p.(created := p.created + 1), c, p.created);
      Ends(Solo(p, Searching(c)), 7, call, c, Finish(p', c, p.created, j).0, Finish(p', c, p.created, j).1)
  {
    hide Inv, TakeNew, Finish, Ends, Steps, HasRoom, CanCreate;
    var n := if CanCreate(p) then 7 else 4;
    Onward(p, Searching(c), call, p, WantPool(c), n);
    Onward(p, WantPool(c), call, p, Creating(c), n - 1);
    CreatingRuns(p, c, call);
  }

  lemma SearchingRuns(p: Pool, c: nat, call: Call)
    requires Inv(Solo(p, Searching(c)))
    ensures c < NUM_CACHES && |p.lists| == NUM_CACHES && PoolOk(p)
    ensures forall k :: k in p.lists[c].partial + p.lists[c].empty ==> k in p.slabs
    ensures HasRoom(p, c) ==>
      var (p', k, j) := TakeListed(p, c);
      Ends(Solo(p, Searching(c)), 4, call, c, Finish(p', c, k, j).0, Finish(p', c, k, j).1)
    ensures !HasRoom(p, c) && !CanCreate(p) ==> Ends(Solo(p, Searching(c)), 4, call, c, p, -1)
    ensures !HasRoom(p, c) && CanCreate(p) ==>
      var (p', j) := TakeNew(p.(created := p.created + 1), c, p.created);
      Ends(Solo(p, Searching(c)), 7, call, c, Finish(p', c, p.created, j).0, Finish(p', c, p.created, j).1)
  {
    assert ThreadOk(p, Solo(p, Searching(c)).threads[0]);
    assert PoolOk(p) && |p.lists| == NUM_CACHES;
    ListedSlabs(p, c);
    hide Inv, PoolOk, TakeListed, TakeNew, Finish, Ends, HasRoom, CanCreate;
    if HasRoom(p, c) {
      ListedRuns(p, c, call);
    } else {
      UnlistedRuns(p, c, call);
    }
  }

  /** A call for a served size begins with two steps: the class is found, and its lock taken. */
  lemma BeginRuns(p: Pool, size: nat, n: nat)
    requires Quiet(p) && size > 0 && ClassFor(size) < NUM_CACHES && n >= 2
    ensures var c, call := ClassFor(size), SlabProtocol.Allocate(size);
      && Inv(Solo(p, Searching(c)))
      && forall q, r :: Ends(Solo(p, Searching(c)), n - 2, call, c, q, r) ==> Ends(Solo(p, Idle), n, call, c, q, r)
  {
    hide OwnersOk, PrivateOk, IdsOk, LocksOk, PoolOk, Ends, Steps;
    var c, call := ClassFor(size), SlabProtocol.Allocate(size);
    Onward(p, Idle, call, p, WantCache(c), n);
    Onward(p, WantCache(c), call, p, Searching(c), n - 1);
  }

  /** A request that no class serves takes one step and changes nothing. */
  lemma RefusedRuns(p: Pool, size: nat)
    requires Quiet(p) && (size == 0 || ClassFor(size) == NUM_CACHES)
    ensures Steps(Solo(p, Idle), 1, SlabProtocol.Allocate(size)) == Solo(p, Idle)
  {
    hide OwnersOk, PrivateOk, IdsOk, LocksOk, PoolOk;
    Onward(p, Idle, SlabProtocol.Allocate(size), p, Idle, 1);
  }

  /**
   `Allocate` is what the steps of one thread do from begin to end when nobody interferes: the pool afterwards, and the
   result that the thread holds when it leaves the cache. A size that no class serves is refused before any lock.
   */
  lemma AllocateRuns(p: Pool, size: nat)
    requires Quiet(p)
    ensures PoolOk(p) && Quiet(Allocate(p, size).0)
    ensures var n, call, c := Length(p, size), SlabProtocol.Allocate(size), ClassFor(size);
      && n > 0 && Steps(Solo(p, Idle), n, call) == Solo(Allocate(p, size).0, Idle)
      && if size == 0 || c == NUM_CACHES then Allocate(p, size).1 == -1
         else Steps(Solo(p, Idle), n - 1, call).threads == [Leaving(c, Allocate(p, size).1)]
  {
    hide OwnersOk, PrivateOk, IdsOk, LocksOk, Sorted, SlabOk, ThreadsOk, Step, Steps, Finish;
    var call, c, n := SlabProtocol.Allocate(size), ClassFor(size), Length(p, size);
    if size == 0 || c == NUM_CACHES {
      RefusedRuns(p, size);
    } else {
      BeginRuns(p, size, n);
      SearchingRuns(p, c, call);
      assert Ends(Solo(p, Idle), n, call, c, Allocate(p, size).0, Allocate(p, size).1);
    }
    StepsInv(Solo(p, Idle), n, call);
  }

  lemma {:induction false} StepsInv(s: State, n: nat, call: Call)
    requires Inv(s) && |s.threads| == 1
    ensures Inv(Steps(s, n, call))
    decreases n
  {
    if n > 0 && Enabled(s, 0) {
      StepInv(s, 0, call);
      StepsInv(Step(s, 0, call), n - 1, call);
    }
  }

  /** A deallocation begins with two steps: the lock of the id map is awaited and taken. */
  lemma AskIds(p: Pool, id: int, call: Call, n: nat)
    requires Quiet(p) && call == SlabProtocol.Deallocate(id) && n >= 2
    ensures Inv(Solo(p, LookingUp(id)))
    ensures Steps(Solo(p, Idle), n, call) == Steps(Solo(p, LookingUp(id)), n - 2, call)
  {
    hide Inv, Steps;
    Onward(p, Idle, call, p, WantIds(id), n);
    Onward(p, WantIds(id), call, p, LookingUp(id), n - 1);
  }

  lemma UnknownRuns(p: Pool, id: int, call: Call)
    requires Inv(Solo(p, LookingUp(id))) && id !in p.idMap
    ensures Steps(Solo(p, LookingUp(id)), 1, call) == Solo(p, Idle)
  {
    hide Inv;
    Onward(p, LookingUp(id), call, p, Idle, 1);
  }

  lemma FoundRuns(p: Pool, id: int, call: Call)
    requires Inv(Solo(p, LookingUp(id))) && id in p.idMap
    requires |p.lists| == NUM_CACHES && RecordOk(p, p.idMap[id])
    ensures Steps(Solo(p, LookingUp(id)), 3, call) == Solo(Return(Erase(p, id), p.idMap[id]), Idle)
  {
    hide Inv, Return, Steps;
    var rec, e := p.idMap[id], Erase(p, id);
    Onward(p, LookingUp(id), call, e, Erased(id, rec), 3);
    Onward(e, Erased(id, rec), call, e, Returning(id, rec), 2);
    ReturnEnds(e, id, rec, call);
  }

  lemma ReturnEnds(p: Pool, id: int, rec: Record, call: Call)
    requires Inv(Solo(p, Returning(id, rec))) && |p.lists| == NUM_CACHES && RecordOk(p, rec)
    ensures Steps(Solo(p, Returning(id, rec)), 1, call) == Solo(Return(p, rec), Idle)
  {
    hide Inv, Return;
    Onward(p, Returning(id, rec), call, Return(p, rec), Idle, 1);
  }

  /** `Deallocate` is what the steps of one thread do from begin to end when nobody interferes. */
  lemma DeallocateRuns(p: Pool, id: int)
    requires Quiet(p)
    ensures id in p.idMap ==> p.idMap[id].cls < |p.lists| && p.idMap[id].slab in p.slabs
    ensures Steps(Solo(p, Idle), if id in p.idMap then 5 else 3, SlabProtocol.Deallocate(id)) ==
      Solo(Deallocate(p, id), Idle)
    ensures Quiet(Deallocate(p, id))
  {
    hide OwnersOk, PrivateOk, LocksOk, Sorted, SlabOk, Erase, Return, Step, Steps, Enabled;
    var call := SlabProtocol.Deallocate(id);
    var n := if id in p.idMap then 5 else 3;
    assert |p.lists| == NUM_CACHES && (id in p.idMap ==> RecordOk(p, p.idMap[id]));
    AskIds(p, id, call, n);
    if id in p.idMap {
      FoundRuns(p, id, call);
    } else {
      UnknownRuns(p, id, call);
    }
    StepsInv(Solo(p, Idle), n, call);
  }

  lemma QuietInitial(total: nat)
    ensures Quiet(Initial(total))
  {
    StartInv(total, 1);
    assert Start(total, 1) == Solo(Initial(total), Idle);
  }

  // ---------- what a call does ----------

  /** No thread is in between, so the set bits are exactly the slots of the ids. */
  lemma QuietBits(p: Pool, k: nat, j: nat)
    requires Quiet(p)
    ensures PoolOk(p) && IdsOk(p)
    ensures BitSet(p, k, j) <==> exists id :: id in p.idMap && p.idMap[id].slab == k && p.idMap[id].slot == j
  {
    var s, x := Solo(p, Idle), Slot(k, j);
    if BitSet(p, x.slab, x.slot) {
      var o :| Owns(s, o, x);
      assert o.ById?;
    }
    if id :| id in p.idMap && p.idMap[id].slab == k && p.idMap[id].slot == j {
      assert Owns(s, ById(id), x);
    }
  }

  /** Id leads to the slot of rec, which was clear before and is the only bit that was set. */
  ghost predicate Granted(p: Pool, p': Pool, id: int, rec: Record) {
    && p'.idMap == p.idMap[id := rec] && id !in p.idMap && !BitSet(p, rec.slab, rec.slot)
    && forall k: nat, j: nat :: BitSet(p', k, j) <==> BitSet(p, k, j) || (k == rec.slab && j == rec.slot)
  }

  lemma FinishGrants(p: Pool, q: Pool, c: nat, k: nat, j: nat)
    requires PoolOk(p) && IdsOk(p) && |q.lists| == NUM_CACHES
    requires Took(p, q, c, k, j) && q.idMap == p.idMap && q.nextId == p.nextId
    ensures Finish(q, c, k, j).1 == p.nextId && Granted(p, Finish(q, c, k, j).0, p.nextId, RecordFor(c, k, j))
    ensures Finish(q, c, k, j).0.slabs == q.slabs
  {
  }

  /**
   An allocation of a size in range fails exactly when every slot of its class's slabs is taken and as many slabs were
   carved out as the pool holds; otherwise a new id gets a slot of the smallest fitting class that no other id has.
   */
  lemma AllocateCorrect(p: Pool, size: nat)
    requires Quiet(p)
    ensures PoolOk(p) && Quiet(Allocate(p, size).0)
    ensures var ((p', id), c) := (Allocate(p, size), ClassFor(size));
      && (id == -1 <==> size == 0 || size > 512 || (!SlotFree(p, c) && p.created == p.total / 1024))
      && (id == -1 ==> p' == p)
      && (id != -1 ==> id == p.nextId && id in p'.idMap && p'.idMap[id].cls == c && Granted(p, p', id, p'.idMap[id]))
  {
    AllocateRuns(p, size);
    var c := ClassFor(size);
    assert PoolOk(p) && IdsOk(p);
    assert size > 512 <==> c == NUM_CACHES;
    SpaceLeft(p);
    hide Inv, Quiet, PoolOk, IdsOk, Granted, Finish, HasRoom, CanCreate, SlotFree;
    if size > 0 && c < NUM_CACHES {
      RoomIsFreeSlot(p, c);
      if HasRoom(p, c) {
        ListedGrants(p, size);
      } else if CanCreate(p) {
        NewGrants(p, size);
      }
    }
  }

  lemma ListedGrants(p: Pool, size: nat)
    requires PoolOk(p) && IdsOk(p) && size > 0 && ClassFor(size) < NUM_CACHES && HasRoom(p, ClassFor(size))
    ensures var (p', id) := Allocate(p, size);
      && id == p.nextId >= 1 && id in p'.idMap && p'.idMap[id].cls == ClassFor(size) && Granted(p, p', id, p'.idMap[id])
  {
    var c := ClassFor(size);
    TakeListedCorrect(p, c);
    var (p', k, j) := TakeListed(p, c);
    FinishGrants(p, p', c, k, j);
    hide PoolOk, TakeListed, Took, BitSet;
  }

  lemma TookSame(p: Pool, p0: Pool, q: Pool, c: nat, k: nat, j: int)
    requires p.slabs == p0.slabs && Took(p0, q, c, k, j)
    ensures Took(p, q, c, k, j)
  {
    assert forall x: nat, y: nat :: BitSet(p, x, y) <==> BitSet(p0, x, y);
    hide BitSet;
  }

  lemma NewGrants(p: Pool, size: nat)
    requires PoolOk(p) && IdsOk(p) && size > 0 && ClassFor(size) < NUM_CACHES
    requires !HasRoom(p, ClassFor(size)) && CanCreate(p)
    ensures var (p', id) := Allocate(p, size);
      && id == p.nextId >= 1 && id in p'.idMap && p'.idMap[id].cls == ClassFor(size) && Granted(p, p', id, p'.idMap[id])
  {
    var c, p0 := ClassFor(size), p.(created := p.created + 1);
    hide PoolOk, IdsOk, TakeNew, Finish, Granted, Took, BitSet;
    CreatedOk(p);
    TakeNewCorrect(p0, c, p.created);
    var (p', j) := TakeNew(p0, c, p.created);
    TookSame(p, p0, p', c, p.created, j);
    FinishGrants(p, p', c, p.created, j);
  }

  /** A deallocation takes away the id and clears its bit, and only that; an unknown id changes nothing. */
  lemma DeallocateCorrect(p: Pool, id: int)
    requires Quiet(p)
    ensures id in p.idMap ==> p.idMap[id].cls < |p.lists| && p.idMap[id].slab in p.slabs
    ensures var p' := Deallocate(p, id);
      && Quiet(p') && p'.idMap == p.idMap - {id} && (id !in p.idMap ==> p' == p)
      && (id in p.idMap ==> forall k: nat, j: nat ::
            BitSet(p', k, j) <==> BitSet(p, k, j) && !(k == p.idMap[id].slab && j == p.idMap[id].slot))
  {
    DeallocateRuns(p, id);
    if id in p.idMap {
      var rec := p.idMap[id];
      assert RecordOk(p, rec);
      QuietBits(p, rec.slab, rec.slot);
      EraseIds(p, id);
      assert BitSet(Erase(p, id), rec.slab, rec.slot);
      ReturnCorrect(Erase(p, id), rec);
    } else {
      assert p.idMap - {id} == p.idMap;
    }
    hide Inv, Return;
  }

  /** Freeing what was just allocated restores the ids and all bits. */
  lemma RoundTrip(p: Pool, size: nat, k: nat, j: nat)
    requires Quiet(p)
    ensures PoolOk(p)
    ensures var (q, id) := Allocate(p, size);
      id != -1 ==>
        && Quiet(q) && (id in q.idMap ==> q.idMap[id].cls < |q.lists| && q.idMap[id].slab in q.slabs)
        && Deallocate(q, id).idMap == p.idMap
        && (BitSet(Deallocate(q, id), k, j) <==> BitSet(p, k, j))
  {
    hide Quiet, PoolOk, Allocate, Deallocate, BitSet, HasRoom, CanCreate;
    AllocateCorrect(p, size);
    var (q, id) := Allocate(p, size);
    if id != -1 {
      DeallocateCorrect(q, id);
      assert q.idMap - {id} == p.idMap;
    }
  }
}
