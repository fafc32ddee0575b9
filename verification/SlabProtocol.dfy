/**
 Any number of threads inside `allocate` and `deallocate` of the slab allocator, interleaved at every lock
 operation. Each class has a lock, the pool has one and the id map has one.
 */
module SlabProtocol {
  import opened Common
  import opened SlabModel

  /** Where a thread is. In brackets: the locks it holds. */
  datatype Thread =
    | Idle
    | WantCache(cls: nat)                            // allocate
    | Searching(cls: nat)                            // [cache]
    | WantPool(cls: nat)                             // [cache] no listed slab has room
    | Creating(cls: nat)                             // [cache, pool]
    | HasNewSlab(cls: nat, slab: nat)                // [cache] a new slab that no list holds yet
    | HasSlot(cls: nat, slab: nat, slot: nat)        // [cache] its bit is set
    | Publishing(cls: nat, slab: nat, slot: nat)     // [cache, id map]
    | Leaving(cls: nat, result: int)                 // [cache] -1 after a failure
    | WantIds(id: int)                               // deallocate
    | LookingUp(id: int)                             // [id map]
    | Erased(id: int, rec: Record)                   // waits for the cache
    | Returning(id: int, rec: Record)                // [cache]

  datatype State = State(pool: Pool, cacheLocks: seq<Option<nat>>, poolLock: Option<nat>, idLock: Option<nat>,
                         threads: seq<Thread>)

  /** What an idle thread does next. */
  datatype Call = Allocate(size: nat) | Deallocate(id: int)

  function Start(total: nat, threads: nat): State {
    State(Initial(total), seq(NUM_CACHES, _ => None), None, None, seq(threads, _ => Idle))
  }

  // ---------- locks ----------

  function CacheHeld(t: Thread): Option<nat> {
    match t
    case Searching(c) => Some(c)
    case WantPool(c) => Some(c)
    case Creating(c) => Some(c)
    case HasNewSlab(c, _) => Some(c)
    case HasSlot(c, _, _) => Some(c)
    case Publishing(c, _, _) => Some(c)
    case Leaving(c, _) => Some(c)
    case Returning(_, rec) => Some(rec.cls)
    case _ => None
  }

  predicate PoolHeld(t: Thread) {
    t.Creating?
  }

  predicate IdsHeld(t: Thread) {
    t.Publishing? || t.LookingUp?
  }

  ghost predicate LocksOk(s: State) {
    && |s.cacheLocks| == NUM_CACHES
    && (forall c: nat, t: nat :: c < NUM_CACHES ==>
          (s.cacheLocks[c] == Some(t) <==> t < |s.threads| && CacheHeld(s.threads[t]) == Some(c)))
    && (forall t: nat :: s.poolLock == Some(t) <==> t < |s.threads| && PoolHeld(s.threads[t]))
    && (forall t: nat :: s.idLock == Some(t) <==> t < |s.threads| && IdsHeld(s.threads[t]))
  }

  // ---------- who owns a set bit ----------

  datatype Slot = Slot(slab: nat, slot: nat)

  /** A set bit belongs to a published id, or to a thread between bitmap and id map. */
  datatype Owner = ById(id: int) | ByThread(thread: nat)

  function SlotHeld(t: Thread): Option<Slot> {
    match t
    case HasSlot(_, k, j) => Some(Slot(k, j))
    case Publishing(_, k, j) => Some(Slot(k, j))
    case Erased(_, rec) => Some(Slot(rec.slab, rec.slot))
    case Returning(_, rec) => Some(Slot(rec.slab, rec.slot))
    case _ => None
  }

  ghost predicate Owns(s: State, o: Owner, x: Slot) {
    match o
    case ById(id) => id in s.pool.idMap && x == Slot(s.pool.idMap[id].slab, s.pool.idMap[id].slot)
    case ByThread(t) => t < |s.threads| && SlotHeld(s.threads[t]) == Some(x)
  }

  /** Every set bit has exactly one owner, and owners own set bits only. */
  ghost predicate OwnersOk(s: State) {
    && (forall o, x :: Owns(s, o, x) ==> BitSet(s.pool, x.slab, x.slot))
    && (forall o, o', x :: Owns(s, o, x) && Owns(s, o', x) ==> o == o')
    && (forall x: Slot :: BitSet(s.pool, x.slab, x.slot) ==> exists o :: Owns(s, o, x))
  }

  // ---------- the invariant ----------

  ghost predicate RecordOk(p: Pool, rec: Record) {
    && rec.cls < NUM_CACHES && rec.slab in p.slabs && p.slabs[rec.slab].cls == rec.cls
    && rec.slot < SlotsOf(rec.cls) && rec.addr == Address(rec.slab, rec.cls, rec.slot)
  }

  /** What a thread knows about the pool at its place. */
  ghost predicate ThreadOk(p: Pool, t: Thread)
    requires |p.lists| == NUM_CACHES
  {
    match t
    case WantCache(c) => c < NUM_CACHES
    case Searching(c) => c < NUM_CACHES
    case WantPool(c) => c < NUM_CACHES && !HasRoom(p, c)
    case Creating(c) => c < NUM_CACHES && !HasRoom(p, c)
    case HasNewSlab(c, k) => c < NUM_CACHES && k < p.created && k !in p.slabs
    case HasSlot(c, k, j) => RecordOk(p, Record(c, k, j, if c < NUM_CACHES then Address(k, c, j) else 0))
    case Publishing(c, k, j) => RecordOk(p, Record(c, k, j, if c < NUM_CACHES then Address(k, c, j) else 0))
    case Leaving(c, _) => c < NUM_CACHES
    case Erased(id, rec) => RecordOk(p, rec) && id < p.nextId && id !in p.idMap
    case Returning(id, rec) => RecordOk(p, rec) && id < p.nextId && id !in p.idMap
    case _ => true
  }

  ghost predicate IdsOk(p: Pool) {
    p.nextId >= 1 && forall id :: id in p.idMap ==> 1 <= id < p.nextId && RecordOk(p, p.idMap[id])
  }

  /** The new slab or the erased id that a thread has to itself. */
  datatype Private = NoneOfThese | NewSlabOf(slab: nat) | ErasedId(id: int)

  function PrivateOf(t: Thread): Private {
    match t
    case HasNewSlab(_, k) => NewSlabOf(k)
    case Erased(id, _) => ErasedId(id)
    case Returning(id, _) => ErasedId(id)
    case _ => NoneOfThese
  }

  ghost predicate PrivateOk(s: State) {
    forall t, u :: 0 <= t < u < |s.threads| && PrivateOf(s.threads[t]) != NoneOfThese ==>
      PrivateOf(s.threads[t]) != PrivateOf(s.threads[u])
  }

  ghost predicate ThreadsOk(s: State)
    requires |s.pool.lists| == NUM_CACHES
  {
    forall t: nat :: t < |s.threads| ==> ThreadOk(s.pool, s.threads[t])
  }

  ghost predicate Inv(s: State) {
    PoolOk(s.pool) && IdsOk(s.pool) && LocksOk(s) && ThreadsOk(s) && PrivateOk(s) && OwnersOk(s)
  }

  // ---------- steps ----------

  /** The lock a thread waits for is free, or it waits for none. */
  predicate Enabled(s: State, t: nat)
    requires t < |s.threads| && |s.cacheLocks| == NUM_CACHES
  {
    match s.threads[t]
    case WantCache(c) => c < NUM_CACHES && s.cacheLocks[c].None?
    case WantPool(_) => s.poolLock.None?
    case HasSlot(_, _, _) => s.idLock.None?
    case WantIds(_) => s.idLock.None?
    case Erased(_, rec) => rec.cls < NUM_CACHES && s.cacheLocks[rec.cls].None?
    case _ => true
  }

  function Goto(s: State, t: nat, next: Thread): State
    requires t < |s.threads|
  {
    s.(threads := s.threads[t := next])
  }

  function Begin(call: Call): Thread {
    match call
    case Allocate(size) => if size == 0 || ClassFor(size) == NUM_CACHES then Idle else WantCache(ClassFor(size))
    case Deallocate(id) => WantIds(id)
  }

  function RecordFor(cls: nat, k: nat, j: nat): Record
    requires cls < NUM_CACHES
  {
    Record(cls, k, j, Address(k, cls, j))
  }

  /** One step of thread t, which must be enabled; an idle thread begins a call. */
  ghost function Step(s: State, t: nat, call: Call): State
    requires Inv(s) && t < |s.threads| && Enabled(s, t)
  {
    assert ThreadOk(s.pool, s.threads[t]);
    match s.threads[t]
    case Idle => Goto(s, t, Begin(call))
    case WantCache(c) => Goto(s, t, Searching(c)).(cacheLocks := s.cacheLocks[c := Some(t)])
    case Searching(c) =>
      if HasRoom(s.pool, c) then
        ListedSlabs(s.pool, c);
        var (p, k, j) := TakeListed(s.pool, c);
        Goto(s, t, if j < 0 then Leaving(c, -1) else HasSlot(c, k, j)).(pool := p)
      else Goto(s, t, WantPool(c))
    case WantPool(c) => Goto(s, t, Creating(c)).(poolLock := Some(t))
    case Creating(c) =>
      if CanCreate(s.pool)
      then Goto(s, t, HasNewSlab(c, s.pool.created)).(pool := s.pool.(created := s.pool.created + 1), poolLock := None)
      else Goto(s, t, Leaving(c, -1)).(poolLock := None)
    case HasNewSlab(c, k) =>
      var (p, j) := TakeNew(s.pool, c, k);
      Goto(s, t, if j < 0 then Leaving(c, -1) else HasSlot(c, k, j)).(pool := p)
    case HasSlot(c, k, j) => Goto(s, t, Publishing(c, k, j)).(idLock := Some(t))
    case Publishing(c, k, j) =>
      Goto(s, t, Leaving(c, s.pool.nextId)).(pool := Publish(s.pool, RecordFor(c, k, j)), idLock := None)
    case Leaving(c, r) =>
      Goto(s, t, Idle).(pool := if r == -1 then s.pool else CountAllocation(s.pool, c),
                        cacheLocks := s.cacheLocks[c := None])
    case WantIds(id) => Goto(s, t, LookingUp(id)).(idLock := Some(t))
    case LookingUp(id) =>
      if id in s.pool.idMap
      then Goto(s, t, Erased(id, s.pool.idMap[id])).(pool := Erase(s.pool, id), idLock := None)
      else Goto(s, t, Idle).(idLock := None)
    case Erased(id, rec) => Goto(s, t, Returning(id, rec)).(cacheLocks := s.cacheLocks[rec.cls := Some(t)])
    case Returning(id, rec) =>
      Goto(s, t, Idle).(pool := Return(s.pool, rec), cacheLocks := s.cacheLocks[rec.cls := None])
  }

  // ---------- every step keeps the invariant: locks ----------

  /** A lock variable after its thread went from one place to another. */
  function Relocked(lock: Option<nat>, t: nat, held: bool, holds: bool): Option<nat> {
    if held == holds then lock else if holds then Some(t) else None
  }

  ghost predicate CachesFollow(s: State, s': State, t: nat, next: Thread)
    requires t < |s.threads|
  {
    var last := s.threads[t];
    && |s.cacheLocks| == |s'.cacheLocks| == NUM_CACHES
    && forall c: nat :: c < NUM_CACHES ==>
         && s'.cacheLocks[c] == Relocked(s.cacheLocks[c], t, CacheHeld(last) == Some(c), CacheHeld(next) == Some(c))
         && (CacheHeld(last) != Some(c) && CacheHeld(next) == Some(c) ==> s.cacheLocks[c].None?)
  }

  /** One lock variable, for those locks of which there is only one. */
  ghost predicate Follows(lock: Option<nat>, lock': Option<nat>, t: nat, held: bool, holds: bool) {
    lock' == Relocked(lock, t, held, holds) && (!held && holds ==> lock.None?)
  }

  ghost predicate LocksFollow(s: State, s': State, t: nat, next: Thread)
    requires t < |s.threads|
  {
    && s'.threads == s.threads[t := next]
    && CachesFollow(s, s', t, next)
    && Follows(s.poolLock, s'.poolLock, t, PoolHeld(s.threads[t]), PoolHeld(next))
    && Follows(s.idLock, s'.idLock, t, IdsHeld(s.threads[t]), IdsHeld(next))
  }

  lemma LocksKept(s: State, s': State, t: nat, next: Thread)
    requires LocksOk(s) && t < |s.threads| && LocksFollow(s, s', t, next)
    ensures LocksOk(s')
  {
    hide CacheHeld, PoolHeld, IdsHeld;
    forall c: nat, u: nat | c < NUM_CACHES
      ensures s'.cacheLocks[c] == Some(u) <==> u < |s'.threads| && CacheHeld(s'.threads[u]) == Some(c)
    {
      assert s.cacheLocks[c] == Some(u) <==> u < |s.threads| && CacheHeld(s.threads[u]) == Some(c);
    }
    forall u: nat
      ensures s'.poolLock == Some(u) <==> u < |s'.threads| && PoolHeld(s'.threads[u])
    {
      assert s.poolLock == Some(u) <==> u < |s.threads| && PoolHeld(s.threads[u]);
    }
    forall u: nat
      ensures s'.idLock == Some(u) <==> u < |s'.threads| && IdsHeld(s'.threads[u])
    {
      assert s.idLock == Some(u) <==> u < |s.threads| && IdsHeld(s.threads[u]);
    }
  }

  /** What the next step of a thread does to the locks of the caches. */
  datatype Move = Stay | Take(cls: nat) | Give(cls: nat)

  function CacheMove(th: Thread): Move {
    match th
    case WantCache(c) => Take(c)
    case Erased(_, rec) => Take(rec.cls)
    case Leaving(c, _) => Give(c)
    case Returning(_, rec) => Give(rec.cls)
    case _ => Stay
  }

  function Moved(locks: seq<Option<nat>>, t: nat, m: Move): seq<Option<nat>>
    requires !m.Stay? ==> m.cls < |locks|
  {
    match m
    case Stay => locks
    case Take(c) => locks[c := Some(t)]
    case Give(c) => locks[c := None]
  }

  ghost predicate Holding(th: Thread, next: Thread, m: Move) {
    match m
    case Stay => CacheHeld(next) == CacheHeld(th)
    case Take(c) => CacheHeld(th).None? && CacheHeld(next) == Some(c)
    case Give(c) => CacheHeld(th) == Some(c) && CacheHeld(next).None?
  }

  /** An enabled thread takes a free lock of an existing cache. */
  lemma PlaceInRange(s: State, t: nat)
    requires Inv(s) && t < |s.threads| && Enabled(s, t)
    ensures var m := CacheMove(s.threads[t]);
      && |s.cacheLocks| == NUM_CACHES && (!m.Stay? ==> m.cls < NUM_CACHES) && (m.Take? ==> s.cacheLocks[m.cls].None?)
  {
    assert ThreadOk(s.pool, s.threads[t]);
  }

  lemma StepCaches(s: State, t: nat, call: Call)
    requires Inv(s) && t < |s.threads| && Enabled(s, t)
    requires |s.cacheLocks| == NUM_CACHES
      && (!CacheMove(s.threads[t]).Stay? ==> CacheMove(s.threads[t]).cls < NUM_CACHES)
    ensures var s' := Step(s, t, call);
      && s'.threads == s.threads[t := s'.threads[t]]
      && s'.cacheLocks == Moved(s.cacheLocks, t, CacheMove(s.threads[t]))
      && Holding(s.threads[t], s'.threads[t], CacheMove(s.threads[t]))
  {
    hide Inv, Enabled, TakeListed, TakeNew, Return;
    hide Publish, CountAllocation, Erase, HasRoom, CanCreate, RecordOk;
  }

  lemma StepPoolAndIds(s: State, t: nat, call: Call)
    requires Inv(s) && t < |s.threads| && Enabled(s, t) && |s.cacheLocks| == NUM_CACHES
    ensures var s' := Step(s, t, call);
      && t < |s'.threads|
      && Follows(s.poolLock, s'.poolLock, t, PoolHeld(s.threads[t]), PoolHeld(s'.threads[t]))
      && Follows(s.idLock, s'.idLock, t, IdsHeld(s.threads[t]), IdsHeld(s'.threads[t]))
  {
    hide Inv, TakeListed, TakeNew, Return;
    hide Publish, CountAllocation, Erase, HasRoom, CanCreate, RecordOk;
  }

  lemma StepFollows(s: State, t: nat, call: Call)
    requires Inv(s) && t < |s.threads| && Enabled(s, t)
    ensures t < |Step(s, t, call).threads| && LocksFollow(s, Step(s, t, call), t, Step(s, t, call).threads[t])
  {
    PlaceInRange(s, t);
    hide Inv, Step, Enabled, Follows, CacheMove, CacheHeld;
    StepCaches(s, t, call);
    StepPoolAndIds(s, t, call);
  }

  // ---------- every step keeps the invariant: the other threads ----------

  /** What happened to the pool does not concern a thread that is inside or before class d. */
  ghost predicate Harmless(p: Pool, p': Pool, th: Thread)
    requires |p.lists| == |p'.lists| == NUM_CACHES
  {
    && (forall k :: k in p.slabs ==> k in p'.slabs && p'.slabs[k].cls == p.slabs[k].cls)
    && p.created <= p'.created && p.nextId <= p'.nextId
    && (forall id :: id in p'.idMap ==> id in p.idMap || id >= p.nextId)
    && (th.HasNewSlab? && th.slab !in p.slabs ==> th.slab !in p'.slabs)
    && ((th.WantPool? || th.Creating?) && th.cls < NUM_CACHES ==> p'.lists[th.cls] == p.lists[th.cls])
  }

  lemma ThreadKept(p: Pool, p': Pool, th: Thread)
    requires |p.lists| == |p'.lists| == NUM_CACHES && ThreadOk(p, th) && Harmless(p, p', th)
    ensures ThreadOk(p', th)
  {
  }

  lemma ThreadsMove(s: State, s': State, t: nat, next: Thread)
    requires |s.pool.lists| == |s'.pool.lists| == NUM_CACHES && t < |s.threads| && s'.threads == s.threads[t := next]
    requires ThreadsOk(s) && ThreadOk(s'.pool, next)
    requires forall u: nat :: u < |s.threads| && u != t ==> Harmless(s.pool, s'.pool, s.threads[u])
    ensures ThreadsOk(s')
  {
    hide ThreadOk, Harmless;
    forall u: nat | u < |s'.threads|
      ensures ThreadOk(s'.pool, s'.threads[u])
    {
      if u != t {
        ThreadKept(s.pool, s'.pool, s.threads[u]);
      }
    }
  }

  lemma PrivateMove(s: State, s': State, t: nat, next: Thread)
    requires PrivateOk(s) && t < |s.threads| && s'.threads == s.threads[t := next]
    requires
      || PrivateOf(next) == NoneOfThese || PrivateOf(next) == PrivateOf(s.threads[t])
      || forall u :: 0 <= u < |s.threads| && u != t ==> PrivateOf(s.threads[u]) != PrivateOf(next)
    ensures PrivateOk(s')
  {
    hide PrivateOf;
  }

  // ---------- every step keeps the invariant: owners ----------

  /** Slot x passes from one owner to another; None stands for a clear bit. */
  ghost predicate Passes(s: State, s': State, x: Slot, from: Option<Owner>, to: Option<Owner>) {
    && (from.Some? ==> Owns(s, from.value, x)) && (from.None? ==> !BitSet(s.pool, x.slab, x.slot))
    && (forall o, y :: Owns(s', o, y) <==> (Owns(s, o, y) && Some(o) != from) || (Some(o) == to && y == x))
    && (forall k: nat, j: nat :: BitSet(s'.pool, k, j) <==> if x == Slot(k, j) then to.Some? else BitSet(s.pool, k, j))
  }

  lemma OwnersPass(s: State, s': State, x: Slot, from: Option<Owner>, to: Option<Owner>)
    requires OwnersOk(s) && Passes(s, s', x, from, to)
    ensures OwnersOk(s')
  {
    hide Owns, BitSet;
    forall o, y | Owns(s', o, y)
      ensures BitSet(s'.pool, y.slab, y.slot)
    {
      assert Owns(s, o, y) ==> BitSet(s.pool, y.slab, y.slot);
      assert from.Some? && y == x && Owns(s, o, y) ==> o == from.value;
    }
    forall o, o', y | Owns(s', o, y) && Owns(s', o', y)
      ensures o == o'
    {
      assert Owns(s, o, y) ==> BitSet(s.pool, y.slab, y.slot);
      assert Owns(s, o', y) ==> BitSet(s.pool, y.slab, y.slot);
    }
    forall y: Slot | BitSet(s'.pool, y.slab, y.slot)
      ensures exists o :: Owns(s', o, y)
    {
      if y == x {
        assert Owns(s', to.value, y);
      } else {
        assert BitSet(s.pool, y.slab, y.slot);
        var o :| Owns(s, o, y);
        if Some(o) == from {
          SlotsDiffer(s, o, x, y);
        }
        assert Owns(s', o, y);
      }
    }
  }

  /** An owner owns one slot. */
  lemma SlotsDiffer(s: State, o: Owner, x: Slot, y: Slot)
    requires Owns(s, o, x) && Owns(s, o, y)
    ensures x == y
  {
  }

  /** Nothing changes hands when no thread gains or loses a slot and the pool keeps its bits and ids. */
  lemma OwnersSame(s: State, s': State, t: nat, next: Thread)
    requires OwnersOk(s) && t < |s.threads| && s'.threads == s.threads[t := next]
    requires SlotHeld(next) == SlotHeld(s.threads[t]) && s'.pool.idMap == s.pool.idMap && s'.pool.slabs == s.pool.slabs
    ensures OwnersOk(s')
  {
    hide SlotHeld;
    assert forall o, x :: Owns(s', o, x) <==> Owns(s, o, x);
    assert forall x: Slot :: BitSet(s'.pool, x.slab, x.slot) <==> BitSet(s.pool, x.slab, x.slot);
    hide Owns, BitSet;
  }

  // ---------- every step keeps the invariant: the steps ----------

  /** A step that changes locks and places only. */
  lemma QuietStep(s: State, s': State, t: nat, next: Thread)
    requires Inv(s) && t < |s.threads| && s'.threads == s.threads[t := next] && s'.pool == s.pool && LocksOk(s')
    requires ThreadOk(s.pool, next) && SlotHeld(next) == SlotHeld(s.threads[t])
    requires PrivateOf(next) == NoneOfThese || PrivateOf(next) == PrivateOf(s.threads[t])
    ensures Inv(s')
  {
    hide SlotHeld, PrivateOf, OwnersOk, PrivateOk, ThreadOk;
    PrivateMove(s, s', t, next);
    OwnersSame(s, s', t, next);
  }

  lemma SearchStep(s: State, t: nat, call: Call)
    requires Inv(s) && t < |s.threads| && Enabled(s, t) && s.threads[t].Searching? && LocksOk(Step(s, t, call))
    ensures Inv(Step(s, t, call))
    ensures Step(s, t, call).threads[t] == WantPool(s.threads[t].cls) || Step(s, t, call).threads[t].HasSlot?
  {
    var c, s' := s.threads[t].cls, Step(s, t, call);
    assert ThreadOk(s.pool, s.threads[t]);
    if HasRoom(s.pool, c) {
      TakeListedCorrect(s.pool, c);
      var (p, k, j) := TakeListed(s.pool, c);
      assert s' == Goto(s, t, HasSlot(c, k, j)).(pool := p);
      TookSlot(s, s', t, c, k, j);
    } else {
      QuietStep(s, s', t, WantPool(c));
    }
  }

  /** The holder of a class may change the pool there and add its own new slab; the others do not notice. */
  lemma OthersUnharmed(s: State, t: nat, c: nat, p': Pool)
    requires Inv(s) && t < |s.threads| && CacheHeld(s.threads[t]) == Some(c) && c < NUM_CACHES && Touches(s.pool, p', c)
    requires p'.slabs.Keys == s.pool.slabs.Keys
      || (s.threads[t].HasNewSlab? && p'.slabs.Keys == s.pool.slabs.Keys + {s.threads[t].slab})
    ensures |p'.lists| == NUM_CACHES
    ensures forall u: nat :: u < |s.threads| && u != t ==> Harmless(s.pool, p', s.threads[u])
  {
    hide IdsOk, OwnersOk;
    forall u: nat | u < |s.threads| && u != t
      ensures Harmless(s.pool, p', s.threads[u])
    {
      OneHolder(s, t, u, c);
      assert t < u ==> PrivateOf(s.threads[t]) == NoneOfThese || PrivateOf(s.threads[t]) != PrivateOf(s.threads[u]);
      assert u < t ==> PrivateOf(s.threads[u]) == NoneOfThese || PrivateOf(s.threads[u]) != PrivateOf(s.threads[t]);
    }
  }

  /** A thread that holds a class has set a bit there. */
  lemma TookSlot(s: State, s': State, t: nat, c: nat, k: nat, j: nat)
    requires Inv(s) && t < |s.threads| && CacheHeld(s.threads[t]) == Some(c) && LocksOk(s') && PoolOk(s'.pool)
    requires Touches(s.pool, s'.pool, c) && Took(s.pool, s'.pool, c, k, j)
    requires s'.threads == s.threads[t := HasSlot(c, k, j)] && SlotHeld(s.threads[t]).None?
    requires s'.pool.slabs.Keys == s.pool.slabs.Keys
      || (s.threads[t] == HasNewSlab(c, k) && s'.pool.slabs.Keys == s.pool.slabs.Keys + {k})
    ensures Inv(s')
  {
    var next, p, p' := HasSlot(c, k, j), s.pool, s'.pool;
    OthersUnharmed(s, t, c, p');
    assert ThreadOk(p', next);
    hide PoolOk, IdsOk, LocksOk, ThreadsOk, OwnersOk, PrivateOk, Harmless;
    ThreadsMove(s, s', t, next);
    PrivateMove(s, s', t, next);
    IdsKept(p, p');
    TookPasses(s, s', t, c, k, j);
    OwnersPass(s, s', Slot(k, j), None, Some(ByThread(t)));
  }

  lemma TookPasses(s: State, s': State, t: nat, c: nat, k: nat, j: nat)
    requires t < |s.threads| && s'.threads == s.threads[t := HasSlot(c, k, j)] && SlotHeld(s.threads[t]).None?
    requires s'.pool.idMap == s.pool.idMap && Took(s.pool, s'.pool, c, k, j)
    ensures Passes(s, s', Slot(k, j), None, Some(ByThread(t)))
  {
    hide BitSet;
    forall o, y
      ensures Owns(s', o, y) <==> Owns(s, o, y) || (o == ByThread(t) && y == Slot(k, j))
    {
    }
  }

  /** Only one thread holds the lock of a class. */
  lemma OneHolder(s: State, t: nat, u: nat, c: nat)
    requires LocksOk(s) && t < |s.threads| && u < |s.threads|
    requires u != t && CacheHeld(s.threads[t]) == Some(c) && c < NUM_CACHES
    ensures CacheHeld(s.threads[u]) != Some(c)
  {
    assert s.cacheLocks[c] == Some(t);
  }

  lemma IdsKept(p: Pool, p': Pool)
    requires IdsOk(p) && p'.idMap == p.idMap && p'.nextId == p.nextId
    requires forall k :: k in p.slabs ==> k in p'.slabs && p'.slabs[k].cls == p.slabs[k].cls
    ensures IdsOk(p')
  {
  }

  lemma CreatedOk(p: Pool)
    requires PoolOk(p) && IdsOk(p) && CanCreate(p)
    ensures var p' := p.(created := p.created + 1); PoolOk(p') && IdsOk(p')
  {
  }

  lemma CreateStep(s: State, t: nat, call: Call)
    requires Inv(s) && t < |s.threads| && Enabled(s, t) && s.threads[t].Creating? && LocksOk(Step(s, t, call))
    ensures Inv(Step(s, t, call))
  {
    var c, s', p := s.threads[t].cls, Step(s, t, call), s.pool;
    assert ThreadOk(p, s.threads[t]);
    if CanCreate(p) {
      var next := HasNewSlab(c, p.created);
      assert s'.pool == p.(created := p.created + 1) && s'.threads == s.threads[t := next];
      CreatedOk(p);
      hide Step, Enabled, PoolOk, IdsOk, LocksOk, OwnersOk, PrivateOk;
      forall u: nat | u < |s.threads| && u != t
        ensures Harmless(p, s'.pool, s.threads[u]) && PrivateOf(s.threads[u]) != PrivateOf(next)
      {
        assert ThreadOk(p, s.threads[u]);
      }
      ThreadsMove(s, s', t, next);
      PrivateMove(s, s', t, next);
      OwnersSame(s, s', t, next);
    } else {
      QuietStep(s, s', t, Leaving(c, -1));
    }
  }

  lemma NewSlabStep(s: State, t: nat, call: Call)
    requires Inv(s) && t < |s.threads| && Enabled(s, t) && s.threads[t].HasNewSlab? && LocksOk(Step(s, t, call))
    ensures Inv(Step(s, t, call)) && Step(s, t, call).threads[t].HasSlot?
  {
    var c, k, s' := s.threads[t].cls, s.threads[t].slab, Step(s, t, call);
    assert ThreadOk(s.pool, s.threads[t]);
    TakeNewCorrect(s.pool, c, k);
    var (p, j) := TakeNew(s.pool, c, k);
    assert s' == Goto(s, t, HasSlot(c, k, j)).(pool := p);
    TookSlot(s, s', t, c, k, j);
  }

  lemma PublishStep(s: State, t: nat, call: Call)
    requires Inv(s) && t < |s.threads| && Enabled(s, t) && s.threads[t].Publishing? && LocksOk(Step(s, t, call))
    ensures Inv(Step(s, t, call))
  {
    var c, k, j := s.threads[t].cls, s.threads[t].slab, s.threads[t].slot;
    var s', p := Step(s, t, call), s.pool;
    assert ThreadOk(p, s.threads[t]);
    var next, rec := Leaving(c, p.nextId), RecordFor(c, k, j);
    PublishIds(p, rec);
    forall u: nat | u < |s.threads| && u != t
      ensures Harmless(p, s'.pool, s.threads[u])
    {
    }
    ThreadsMove(s, s', t, next);
    PrivateMove(s, s', t, next);
    assert p.nextId !in p.idMap;
    assert BitSet(p, k, j) by { assert Owns(s, ByThread(t), Slot(k, j)); }
    PublishPasses(s, s', t, rec);
    OwnersPass(s, s', Slot(k, j), Some(ByThread(t)), Some(ById(p.nextId)));
    hide IdsOk, LocksOk, ThreadsOk, PrivateOk, OwnersOk;
  }

  lemma PublishPasses(s: State, s': State, t: nat, rec: Record)
    requires t < |s.threads| && s'.pool == Publish(s.pool, rec) && s.pool.nextId !in s.pool.idMap
    requires s'.threads == s.threads[t := Leaving(rec.cls, s.pool.nextId)]
      && SlotHeld(s.threads[t]) == Some(Slot(rec.slab, rec.slot))
    requires BitSet(s.pool, rec.slab, rec.slot)
    ensures Passes(s, s', Slot(rec.slab, rec.slot), Some(ByThread(t)), Some(ById(s.pool.nextId)))
  {
    forall o, y
      ensures Owns(s', o, y) <==>
        (Owns(s, o, y) && o != ByThread(t)) || (o == ById(s.pool.nextId) && y == Slot(rec.slab, rec.slot))
    {
    }
    assert forall k: nat, j: nat :: BitSet(s'.pool, k, j) <==> BitSet(s.pool, k, j);
  }

  lemma PublishIds(p: Pool, rec: Record)
    requires PoolOk(p) && IdsOk(p) && RecordOk(p, rec)
    ensures PoolOk(Publish(p, rec)) && IdsOk(Publish(p, rec))
  {
    var p' := Publish(p, rec);
    assert forall r :: RecordOk(p, r) ==> RecordOk(p', r);
  }

  lemma LeaveStep(s: State, t: nat, call: Call)
    requires Inv(s) && t < |s.threads| && Enabled(s, t) && s.threads[t].Leaving? && LocksOk(Step(s, t, call))
    ensures Inv(Step(s, t, call))
  {
    var c, r, s', p := s.threads[t].cls, s.threads[t].result, Step(s, t, call), s.pool;
    assert ThreadOk(p, s.threads[t]);
    if r == -1 {
      QuietStep(s, s', t, Idle);
    } else {
      CountAllocationOk(p, c);
      IdsKept(p, s'.pool);
      forall u: nat | u < |s.threads| && u != t
        ensures Harmless(p, s'.pool, s.threads[u])
      {
        OneHolder(s, t, u, c);
      }
      ThreadsMove(s, s', t, Idle);
      PrivateMove(s, s', t, Idle);
      OwnersSame(s, s', t, Idle);
    }
  }

  lemma ErasePasses(s: State, s': State, t: nat, id: int)
    requires t < |s.threads| && s.threads[t].LookingUp? && id in s.pool.idMap && s'.pool == Erase(s.pool, id)
    requires BitSet(s.pool, s.pool.idMap[id].slab, s.pool.idMap[id].slot)
    requires s'.threads == s.threads[t := Erased(id, s.pool.idMap[id])]
    ensures var rec := s.pool.idMap[id]; Passes(s, s', Slot(rec.slab, rec.slot), Some(ById(id)), Some(ByThread(t)))
  {
    var rec := s.pool.idMap[id];
    forall o, y
      ensures Owns(s', o, y) <==>
        (Owns(s, o, y) && o != ById(id)) || (o == ByThread(t) && y == Slot(rec.slab, rec.slot))
    {
    }
    assert forall k: nat, j: nat :: BitSet(s'.pool, k, j) <==> BitSet(s.pool, k, j);
  }

  lemma LookUpStep(s: State, t: nat, call: Call)
    requires Inv(s) && t < |s.threads| && Enabled(s, t) && s.threads[t].LookingUp? && LocksOk(Step(s, t, call))
    ensures Inv(Step(s, t, call))
  {
    var id, s', p := s.threads[t].id, Step(s, t, call), s.pool;
    if id in p.idMap {
      var rec := p.idMap[id];
      var next, x := Erased(id, rec), Slot(rec.slab, rec.slot);
      assert s'.pool == Erase(p, id) && s'.threads == s.threads[t := next];
      EraseIds(p, id);
      assert BitSet(p, x.slab, x.slot) by { assert Owns(s, ById(id), x); }
      ErasePasses(s, s', t, id);
      hide Step, Enabled, PoolOk, LocksOk, OwnersOk, PrivateOk, Passes;
      forall u: nat | u < |s.threads| && u != t
        ensures Harmless(p, s'.pool, s.threads[u]) && PrivateOf(s.threads[u]) != PrivateOf(next)
      {
        assert ThreadOk(p, s.threads[u]);
      }
      ThreadsMove(s, s', t, next);
      PrivateMove(s, s', t, next);
      OwnersPass(s, s', x, Some(ById(id)), Some(ByThread(t)));
      hide IdsOk, ThreadsOk;
    } else {
      QuietStep(s, s', t, Idle);
    }
  }

  lemma EraseIds(p: Pool, id: int)
    requires PoolOk(p) && IdsOk(p)
    ensures PoolOk(Erase(p, id)) && IdsOk(Erase(p, id))
    ensures id in p.idMap ==> RecordOk(Erase(p, id), p.idMap[id]) && id < p.nextId
  {
    var p' := Erase(p, id);
    assert forall r :: RecordOk(p, r) ==> RecordOk(p', r);
  }

  lemma ReturnPasses(s: State, s': State, t: nat)
    requires t < |s.threads| && s.threads[t].Returning?
    requires s'.threads == s.threads[t := Idle] && s'.pool.idMap == s.pool.idMap
    requires var rec := s.threads[t].rec; forall k: nat, j: nat ::
      BitSet(s'.pool, k, j) <==> BitSet(s.pool, k, j) && !(k == rec.slab && j == rec.slot)
    ensures var rec := s.threads[t].rec; Passes(s, s', Slot(rec.slab, rec.slot), Some(ByThread(t)), None)
  {
    hide BitSet;
    forall o, y
      ensures Owns(s', o, y) <==> Owns(s, o, y) && o != ByThread(t)
    {
    }
  }

  lemma ReturnStep(s: State, t: nat, call: Call)
    requires Inv(s) && t < |s.threads| && Enabled(s, t) && s.threads[t].Returning? && LocksOk(Step(s, t, call))
    ensures Inv(Step(s, t, call))
  {
    var rec, s', p := s.threads[t].rec, Step(s, t, call), s.pool;
    var x := Slot(rec.slab, rec.slot);
    assert ThreadOk(p, s.threads[t]);
    assert Owns(s, ByThread(t), x);
    ReturnCorrect(p, rec);
    IdsKept(p, s'.pool);
    assert s'.pool == Return(p, rec) && s'.threads == s.threads[t := Idle];
    OthersUnharmed(s, t, rec.cls, s'.pool);
    hide Return, Step, Enabled, PoolOk, IdsOk, LocksOk, ThreadsOk, PrivateOk, OwnersOk, Harmless, Passes;
    ThreadsMove(s, s', t, Idle);
    PrivateMove(s, s', t, Idle);
    ReturnPasses(s, s', t);
    OwnersPass(s, s', x, Some(ByThread(t)), None);
    hide Owns, BitSet;
  }

  /** A step that changes places and locks only. */
  lemma OtherStep(s: State, t: nat, call: Call)
    requires Inv(s) && t < |s.threads| && Enabled(s, t) && LocksOk(Step(s, t, call))
    requires match s.threads[t]
      case Idle => true case WantCache(_) => true case WantPool(_) => true case HasSlot(_, _, _) => true
      case WantIds(_) => true case Erased(_, _) => true case _ => false
    ensures Inv(Step(s, t, call))
  {
    assert ThreadOk(s.pool, s.threads[t]);
    hide OwnersOk, PrivateOk, IdsOk, LocksOk, ThreadsOk, TakeListed, TakeNew, Return;
    QuietStep(s, Step(s, t, call), t, Step(s, t, call).threads[t]);
  }

  /** Whatever thread steps, the invariant stays. */
  lemma StepInv(s: State, t: nat, call: Call)
    requires Inv(s) && t < |s.threads| && Enabled(s, t)
    ensures Inv(Step(s, t, call)) && |Step(s, t, call).threads| == |s.threads|
    ensures Step(s, t, call).pool.total == s.pool.total
  {
    StepFollows(s, t, call);
    LocksKept(s, Step(s, t, call), t, Step(s, t, call).threads[t]);
    StepTotal(s, t, call);
    hide Inv, Step, LocksFollow, Enabled;
    match s.threads[t] {
      case Searching(_) => SearchStep(s, t, call);
      case Creating(_) => CreateStep(s, t, call);
      case HasNewSlab(_, _) => NewSlabStep(s, t, call);
      case Publishing(_, _, _) => PublishStep(s, t, call);
      case Leaving(_, _) => LeaveStep(s, t, call);
      case LookingUp(_) => LookUpStep(s, t, call);
      case Returning(_, _) => ReturnStep(s, t, call);
      case _ => OtherStep(s, t, call);
    }
  }

  lemma StepTotal(s: State, t: nat, call: Call)
    requires Inv(s) && t < |s.threads| && Enabled(s, t)
    ensures |Step(s, t, call).threads| == |s.threads| && Step(s, t, call).pool.total == s.pool.total
  {
  }

  lemma StartInv(total: nat, threads: nat)
    ensures Inv(Start(total, threads))
  {
    var s := Start(total, threads);
    assert forall w :: ListOf(NO_LISTS, w) == [];
    assert forall x: Slot :: !BitSet(s.pool, x.slab, x.slot);
    assert forall o, x :: !Owns(s, o, x);
  }
}
