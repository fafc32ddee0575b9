/** The slab allocator as objects on the heap; its sequential calls refine the calls on the pool. */
module SlabAllocation {
  import opened Common
  import opened SlabModel
  import SlabCalls
  import SlabProtocol

  class SlabObject {
    const baseAddress: nat
    const objectSize: nat
    const numSlots: nat
    var numUsed: int
    var bitmap: seq<bool>
    ghost const index: nat             // its place in the pool
    ghost const cls: nat
    ghost const owner: SlabAllocator

    constructor (base: nat, c: nat, ghost k: nat, ghost allocator: SlabAllocator)
      requires c < NUM_CACHES
      ensures baseAddress == base && objectSize == CACHE_SIZES[c] && numSlots == SlotsOf(c)
      ensures index == k && cls == c && owner == allocator && Data() == NewSlab(c)
    {
      baseAddress, objectSize, numSlots := base, CACHE_SIZES[c], SLAB_SIZE / CACHE_SIZES[c];
      numUsed, bitmap := 0, seq(SLAB_SIZE / CACHE_SIZES[c], _ => false);
      index, cls, owner := k, c, allocator;
    }

    ghost function Data(): Slab
      reads this
    {
      Slab(cls, bitmap, numUsed)
    }

    /** Takes the first clear bit; -1 if all are set. */
    method AllocSlot() returns (slot: int)
      requires numSlots == |bitmap|
      modifies this
      ensures (Data(), slot) == SlabModel.AllocSlot(old(Data())) && numSlots == |bitmap|
    {
      for i := 0 to numSlots
        invariant bitmap == old(bitmap) && numUsed == old(numUsed)
        invariant forall j :: 0 <= j < i ==> bitmap[j]
      {
        if !bitmap[i] {
          bitmap := bitmap[i := true];
          numUsed := numUsed + 1;
          return i;
        }
      }
      return -1;
    }

    method FreeSlot(slot: nat)
      requires numSlots == |bitmap|
      modifies this
      ensures Data() == SlabModel.FreeSlot(old(Data()), slot) && numSlots == |bitmap|
    {
      if slot < numSlots && bitmap[slot] {
        bitmap := bitmap[slot := false];
        numUsed := numUsed - 1;
      }
    }

    predicate Full()
      reads this
    {
      numUsed == numSlots
    }

    predicate Empty()
      reads this
    {
      numUsed == 0
    }

    function SlotAddress(slot: nat): nat {
      baseAddress + slot * objectSize
    }
  }

  class SlabCache {
    var objectSize: nat
    var partial: seq<SlabObject>
    var full: seq<SlabObject>
    var empty: seq<SlabObject>
    var totalAllocations: nat
    var totalFrees: nat

    constructor ()
      ensures Data() == NO_LISTS && partial == full == empty == []
    {
      objectSize, totalAllocations, totalFrees := 0, 0, 0;
      partial, full, empty := [], [], [];
    }

    ghost function Data(): Lists
      reads this
    {
      Lists(Indices(partial), Indices(full), Indices(empty), totalAllocations, totalFrees)
    }
  }

  ghost function Indices(slabs: seq<SlabObject>): seq<nat> {
    seq(|slabs|, i requires 0 <= i < |slabs| => slabs[i].index)
  }

  /** `std::list::remove`: drops every occurrence. */
  function Without(slabs: seq<SlabObject>, s: SlabObject): seq<SlabObject> {
    if slabs == [] then [] else (if slabs[0] == s then [] else [slabs[0]]) + Without(slabs[1..], s)
  }

  datatype SlabAllocRecord = SlabAllocRecord(cacheIndex: nat, slab: SlabObject, slotIndex: nat, address: nat)

  ghost function RecordOf(r: SlabAllocRecord): Record {
    Record(r.cacheIndex, r.slab.index, r.slotIndex, r.address)
  }

  method MakeCaches() returns (all: seq<SlabCache>)
    ensures |all| == NUM_CACHES && forall c, d :: 0 <= c < d < NUM_CACHES ==> all[c] != all[d]
    ensures forall c :: 0 <= c < NUM_CACHES ==>
      fresh(all[c]) && all[c].Data() == NO_LISTS && all[c].partial == all[c].full == all[c].empty == []
  {
    all := [];
    for i := 0 to NUM_CACHES
      invariant |all| == i && forall c, d :: 0 <= c < d < i ==> all[c] != all[d]
      invariant forall c :: 0 <= c < i ==>
        fresh(all[c]) && all[c].Data() == NO_LISTS && all[c].partial == all[c].full == all[c].empty == []
    {
      var cache := new SlabCache();
      all := all + [cache];
    }
  }

  method ClearCache(cache: SlabCache)
    modifies cache
    ensures cache.Data() == NO_LISTS && cache.partial == cache.full == cache.empty == []
  {
    cache.partial, cache.full, cache.empty := [], [], [];
    cache.totalAllocations, cache.totalFrees := 0, 0;
  }

  class SlabAllocator {
    var totalSize: nat
    var totalPages: nat
    var nextSlabAddress: nat
    var nextId: int
    const caches: seq<SlabCache>
    var idMap: map<int, SlabAllocRecord>
    ghost var pool: Pool                     // the allocator as a value
    ghost var objects: map<nat, SlabObject>  // the listed slabs

    /** Slab k is the object for it. */
    ghost predicate SlabAt(k: nat)
      requires k in objects && k in pool.slabs
      reads `objects, `pool, objects[k]
    {
      var o := objects[k];
      && o.index == k && o.owner == this && o.baseAddress == k * SLAB_SIZE && o.Data() == pool.slabs[k]
      && o.cls < NUM_CACHES && o.objectSize == CACHE_SIZES[o.cls] && o.numSlots == |o.bitmap|
    }

    ghost predicate SlabsMatch()
      reads `objects, `pool, objects.Values
    {
      && objects.Keys == pool.slabs.Keys
      && forall k :: k in objects ==> objects[k] in objects.Values && SlabAt(k)
    }

    /** The lists hold the listed slabs. */
    ghost predicate Listed(slabs: seq<SlabObject>)
      reads `objects
    {
      forall i :: 0 <= i < |slabs| ==> slabs[i].index in objects && objects[slabs[i].index] == slabs[i]
    }

    ghost predicate CacheAt(c: nat)
      requires c < |caches| && c < |pool.lists|
      reads `pool, `objects, caches[c]
    {
      var o := caches[c];
      o.Data() == pool.lists[c] && Listed(o.partial) && Listed(o.full) && Listed(o.empty)
    }

    ghost predicate CachesMatch()
      reads `pool, `objects, caches
    {
      && |caches| == |pool.lists| == NUM_CACHES
      && (forall c, d :: 0 <= c < d < NUM_CACHES ==> caches[c] != caches[d])
      && (forall c: nat :: c < NUM_CACHES ==> CacheAt(c))
    }

    ghost predicate IdsMatch()
      reads `idMap, `pool, `objects
    {
      && idMap.Keys == pool.idMap.Keys
      && forall id :: id in idMap ==>
           && RecordOf(idMap[id]) == pool.idMap[id]
           && idMap[id].slab.index in objects && objects[idMap[id].slab.index] == idMap[id].slab
    }

    ghost predicate NumbersMatch()
      reads `totalSize, `nextSlabAddress, `nextId, `pool
    {
      totalSize == pool.total && nextSlabAddress == pool.created * SLAB_SIZE && nextId == pool.nextId
    }

    ghost predicate Mirrors()
      reads this, caches, objects.Values
    {
      SlabsMatch() && CachesMatch() && IdsMatch() && NumbersMatch()
    }

    ghost predicate Valid()
      reads this, caches, objects.Values
    {
      Mirrors() && SlabCalls.Quiet(pool)
    }

    // ---------- what stays when one slab and one cache change ----------

    /** Only slab k has changed or was added, and the pool has followed. */
    twostate lemma UpdatedSlabs(k: nat, new o: SlabObject)
      requires old(SlabsMatch()) && objects == old(objects)[k := o]
      requires o.index == k && o.owner == this && o.baseAddress == k * SLAB_SIZE && o.cls < NUM_CACHES
      requires o.objectSize == CACHE_SIZES[o.cls] && o.numSlots == |o.bitmap|
      requires pool.slabs == old(pool).slabs[k := o.Data()]
      requires forall j :: j in old(objects) && j != k ==> unchanged(old(objects)[j])
      ensures SlabsMatch()
    {
      forall j | j in objects
        ensures SlabAt(j)
      {
        if j != k {
          assert old(SlabAt(j));
        }
      }
    }

    /** Only cache c has changed, and the pool has followed. */
    twostate lemma UpdatedCaches(c: nat)
      requires old(CachesMatch()) && c < NUM_CACHES
      requires forall j :: j in old(objects) ==> j in objects && objects[j] == old(objects)[j]
      requires pool.lists == old(pool).lists[c := caches[c].Data()]
      requires forall d :: 0 <= d < NUM_CACHES && d != c ==> unchanged(caches[d])
      requires Listed(caches[c].partial) && Listed(caches[c].full) && Listed(caches[c].empty)
      ensures CachesMatch()
    {
      forall d: nat | d < NUM_CACHES
        ensures CacheAt(d)
      {
        assert old(CacheAt(d));
      }
    }

    /** Slabs and lists may change and slabs be added: ids and numbers still match. */
    twostate lemma NumbersKept()
      requires old(IdsMatch()) && old(NumbersMatch())
      requires unchanged(`idMap) && unchanged(`totalSize) && unchanged(`nextSlabAddress) && unchanged(`nextId)
      requires pool == old(pool).(slabs := pool.slabs, lists := pool.lists)
      requires forall j :: j in old(objects) ==> j in objects && objects[j] == old(objects)[j]
      ensures IdsMatch() && NumbersMatch()
    {
    }

    lemma ListedPush(slabs: seq<SlabObject>, o: SlabObject)
      requires Listed(slabs) && o.index in objects && objects[o.index] == o
      ensures Listed(slabs + [o]) && Indices(slabs + [o]) == Indices(slabs) + [o.index]
    {
    }

    lemma ListedWithout(slabs: seq<SlabObject>, o: SlabObject)
      requires Listed(slabs)
      ensures Listed(Without(slabs, o))
    {
      var rest := Without(slabs, o);
      WithoutElements(slabs, o);
      forall i | 0 <= i < |rest|
        ensures rest[i].index in objects && objects[rest[i].index] == rest[i]
      {
        assert rest[i] in slabs;
      }
    }

    lemma ListedTail(slabs: seq<SlabObject>)
      requires Listed(slabs) && slabs != []
      ensures Listed(slabs[1..]) && Indices(slabs[1..]) == Indices(slabs)[1..] && Indices(slabs) != []
      ensures Indices(slabs)[0] == slabs[0].index && slabs[0].index in objects && objects[slabs[0].index] == slabs[0]
    {
    }

    /** The parts of a match that concern slab k and cache c. */
    lemma Parts(c: nat)
      requires Mirrors() && c < NUM_CACHES
      ensures c < |caches| && c < |pool.lists| && caches[c].Data() == pool.lists[c]
      ensures Listed(caches[c].partial) && Listed(caches[c].full) && Listed(caches[c].empty)
    {
      assert CacheAt(c);
    }

    lemma OwnIndices()
      requires SlabsMatch()
      ensures forall k :: k in objects ==> objects[k].index == k
    {
      assert forall k :: k in objects ==> SlabAt(k);
    }

    lemma SlabParts(k: nat)
      requires SlabsMatch() && k in objects
      ensures k in pool.slabs && var o := objects[k];
        && o.index == k && o.owner == this && o.baseAddress == k * SLAB_SIZE && o.Data() == pool.slabs[k]
        && o.cls == pool.slabs[k].cls < NUM_CACHES && o.objectSize == CACHE_SIZES[o.cls] && o.numSlots == |o.bitmap|
    {
      assert SlabAt(k);
    }

    // ---------- allocation ----------

    /** A slot from the first partial slab, which moves to the full list if that was its last one. */
    method TakePartial(c: nat) returns (target: SlabObject, slot: int)
      requires Mirrors() && c < NUM_CACHES && caches[c].partial != []
      modifies `pool, caches[c], set o: SlabObject | o.owner == this
      ensures Mirrors() && objects == old(objects) && target.index in objects && objects[target.index] == target
      ensures PartialTaken(old(pool), pool, c, target.index, slot)
    {
      hide SlabsMatch, CachesMatch, IdsMatch, NumbersMatch, SlabModel.AllocSlot, Update, Push, PartialTaken;
      ghost var p := pool;
      MirrorParts();
      Parts(c);
      var cache := caches[c];
      ghost var l := cache.Data();
      ListedTail(cache.partial);
      target := cache.partial[0];
      ghost var k := target.index;
      SlabParts(k);
      OwnIndices();
      slot := target.AllocSlot();
      MoveIfFull(cache, target);
      pool := Update(pool, c, cache.Data(), k, target.Data());
      UpdateIs(p, c, cache.Data(), k, target.Data());
      PartialIs(p, c, k, slot, target.Data(), cache.Data());
      assert objects == objects[k := target];
      UpdatedSlabs(k, target);
      UpdatedCaches(c);
      MirrorAgain();
    }

    /** A partial slab that has given its last slot moves to the full list. */
    method MoveIfFull(cache: SlabCache, target: SlabObject)
      requires Listed(cache.partial) && Listed(cache.full) && Listed(cache.empty)
      requires cache.partial != [] && cache.partial[0] == target && target.numSlots == |target.bitmap|
      modifies cache
      ensures Listed(cache.partial) && Listed(cache.full) && Listed(cache.empty)
      ensures var l := old(cache.Data());
        && l.partial != []
        && cache.Data() ==
          if IsFull(target.Data()) then Push(l.(partial := l.partial[1..]), SlabModel.Full, target.index) else l
    {
      ListedTail(cache.partial);
      if target.Full() {
        ListedPush(cache.full, target);
        cache.partial := cache.partial[1..];
        cache.full := cache.full + [target];
      }
    }

    /** Lists a slab that has just given a slot. */
    method Shelve(cache: SlabCache, target: SlabObject)
      requires Listed(cache.partial) && Listed(cache.full) && Listed(cache.empty)
      requires target.index in objects && objects[target.index] == target && target.numSlots == |target.bitmap|
      modifies cache
      ensures cache.Data() == SlabModel.Shelve(old(cache.Data()), target.index, target.Data())
      ensures Listed(cache.partial) && Listed(cache.full) && Listed(cache.empty)
    {
      ListedPush(cache.full, target);
      ListedPush(cache.partial, target);
      if target.Full() {
        cache.full := cache.full + [target];
      } else {
        cache.partial := cache.partial + [target];
      }
    }

    /** A slot from the first empty slab. */
    method TakeEmpty(c: nat) returns (target: SlabObject, slot: int)
      requires Mirrors() && c < NUM_CACHES && caches[c].empty != []
      modifies `pool, caches[c], set o: SlabObject | o.owner == this
      ensures Mirrors() && objects == old(objects) && target.index in objects && objects[target.index] == target
      ensures EmptyTaken(old(pool), pool, c, target.index, slot)
    {
      hide SlabsMatch, IdsMatch, NumbersMatch, Listed, SlabModel.Shelve;
      OwnIndices();
      Parts(c);
      var cache := caches[c];
      ListedTail(cache.empty);
      target := cache.empty[0];
      ghost var k := target.index;
      SlabParts(k);
      cache.empty := cache.empty[1..];
      slot := target.AllocSlot();
      Shelve(cache, target);
      pool := Update(pool, c, cache.Data(), k, target.Data());
      assert objects == objects[k := target];
      UpdatedSlabs(k, target);
      UpdatedCaches(c);
      hide IdsMatch, NumbersMatch;
      NumbersKept();
    }

    /** Carves a slab out of the pool; null if there is no space. */
    method CreateSlab(c: nat) returns (slab: SlabObject?)
      requires Mirrors() && c < NUM_CACHES
      modifies `nextSlabAddress, `pool
      ensures Mirrors() && objects == old(objects)
      ensures slab == null <==> !CanCreate(old(pool))
      ensures slab == null <==> old(pool).created * 1024 + 1024 > old(pool).total
      ensures slab == null ==> pool == old(pool)
      ensures slab != null ==>
        && fresh(slab) && pool == old(pool).(created := old(pool).created + 1)
        && slab.index == old(pool).created && slab.owner == this && slab.baseAddress == slab.index * SLAB_SIZE
        && slab.cls == c && slab.objectSize == CACHE_SIZES[c]
        && slab.numSlots == |slab.bitmap| && slab.Data() == NewSlab(c)
    {
      if nextSlabAddress + SLAB_SIZE > totalSize {
        return null;
      }
      slab := new SlabObject(nextSlabAddress, c, pool.created, this);
      nextSlabAddress := nextSlabAddress + SLAB_SIZE;
      pool := pool.(created := pool.created + 1);
      StillMatches();
    }

    twostate lemma StillMatches()
      requires old(SlabsMatch()) && old(CachesMatch()) && objects == old(objects)
      requires pool.slabs == old(pool).slabs && pool.lists == old(pool).lists
      requires forall j :: j in objects ==> unchanged(objects[j])
      requires forall d :: 0 <= d < |caches| ==> unchanged(caches[d])
      ensures SlabsMatch() && CachesMatch()
    {
      forall j | j in objects
        ensures SlabAt(j)
      {
        assert old(SlabAt(j));
      }
      forall d: nat | d < NUM_CACHES
        ensures CacheAt(d)
      {
        assert old(CacheAt(d));
      }
    }

    /** A slot from a new slab, which gets listed. */
    method TakeFresh(c: nat, target: SlabObject) returns (slot: int)
      requires Mirrors() && c < NUM_CACHES && target.index !in objects && target.owner == this
      requires target.baseAddress == target.index * SLAB_SIZE && target.Data() == NewSlab(c)
      requires target.cls == c && target.objectSize == CACHE_SIZES[c] && target.numSlots == |target.bitmap|
      modifies `pool, `objects, caches[c], target
      ensures Mirrors() && target.index in objects && objects[target.index] == target
      ensures (pool, slot) == SlabModel.TakeNew(old(pool), c, target.index)
    {
      NotAnObject(target);
      hide SlabModel.AllocSlot, SlabModel.Shelve, Listed, SlabsMatch, CachesMatch;
      slot := target.AllocSlot();
      MirrorKept(target);
      ListFresh(c, target);
    }

    lemma NotAnObject(target: SlabObject)
      requires SlabsMatch() && target.index !in objects
      ensures forall j :: j in objects ==> objects[j] != target
      ensures target !in objects.Values
    {
      forall j | j in objects
        ensures objects[j] != target
      {
        SlabParts(j);
      }
    }

    /** A slab that is not listed plays no part. */
    twostate lemma MirrorKept(target: SlabObject)
      requires old(Mirrors()) && unchanged(this) && target !in objects.Values
      requires forall o: SlabObject :: o in objects.Values ==> unchanged(o)
      requires forall d :: 0 <= d < |caches| ==> unchanged(caches[d])
      ensures Mirrors()
    {
      assert forall j :: j in objects ==> objects[j] in objects.Values;
      StillMatches();
    }

    /** Lists a new slab, which has just given its first slot. */
    method ListFresh(c: nat, target: SlabObject)
      requires Mirrors() && c < NUM_CACHES && target.index !in objects && target.owner == this
      requires target.baseAddress == target.index * SLAB_SIZE && target.cls == c
      requires target.objectSize == CACHE_SIZES[c] && target.numSlots == |target.bitmap|
      modifies `pool, `objects, caches[c]
      ensures Mirrors() && target.index in objects && objects[target.index] == target && c < |old(pool).lists|
      ensures pool == Update(old(pool), c, SlabModel.Shelve(old(pool).lists[c], target.index, target.Data()),
        target.index, target.Data())
    {
      Parts(c);
      hide SlabModel.Shelve, Listed, SlabsMatch, CachesMatch;
      var cache := caches[c];
      ghost var k := target.index;
      objects := objects[k := target];
      Shelve(cache, target);
      pool := Update(pool, c, cache.Data(), k, target.Data());
      UpdatedSlabs(k, target);
      UpdatedCaches(c);
      hide IdsMatch, NumbersMatch;
      NumbersKept();
    }

    /** Partial slabs first, then empty ones, then a new one; null if there is none of them. */
    method TakeSlot(c: nat) returns (target: SlabObject?, slot: int)
      requires Valid() && c < NUM_CACHES
      modifies `pool, `objects, `nextSlabAddress, caches[c], set o: SlabObject | o.owner == this
      ensures Mirrors()
      ensures target == null ==> SlotRefused(old(pool), pool, c)
      ensures target != null ==>
        && target.index in objects && objects[target.index] == target
        && SlotTaken(old(pool), pool, c, target.index, slot)
    {
      ghost var p := pool;
      hide Mirrors, PoolOk, SlabCalls.Quiet, SlotTaken, SlotRefused, PartialTaken, EmptyTaken;
      ValidParts();
      MirrorParts();
      ListsSame(c);
      if caches[c].partial != [] {
        target, slot := TakePartial(c);
        FromPartial(p, pool, c, target.index, slot);
      } else if caches[c].empty != [] {
        target, slot := TakeEmpty(c);
        FromEmpty(p, pool, c, target.index, slot);
      } else {
        target := CreateSlab(c);
        Refused(p, c);
        if target == null {
          return null, -1;
        }
        slot := TakeFresh(c, target);
        FromNew(p, pool, c, target.index, slot);
      }
    }

    lemma ListsSame(c: nat)
      requires CachesMatch() && c < NUM_CACHES
      ensures c < |pool.lists|
      ensures caches[c].partial == [] <==> pool.lists[c].partial == []
      ensures caches[c].empty == [] <==> pool.lists[c].empty == []
    {
      assert CacheAt(c);
    }

    /** Enters a taken slot in the id map and counts the allocation. */
    method Finish(c: nat, target: SlabObject, slot: nat) returns (id: int)
      requires Mirrors() && c < NUM_CACHES && target.index in objects
      requires objects[target.index] == target && target.cls == c
      modifies `pool, `nextId, `idMap, caches[c]
      ensures Mirrors() && |old(pool).lists| == NUM_CACHES
      ensures (pool, id) == SlabCalls.Finish(old(pool), c, target.index, slot)
    {
      Parts(c);
      SlabParts(target.index);
      var addr := target.SlotAddress(slot);
      id := nextId;
      nextId := nextId + 1;
      idMap := idMap[id := SlabAllocRecord(c, target, slot, addr)];
      caches[c].totalAllocations := caches[c].totalAllocations + 1;
      pool := CountAllocation(Publish(pool, SlabProtocol.RecordFor(c, target.index, slot)), c);
      UpdatedCaches(c);
      SameSlabs();
    }

    twostate lemma SameSlabs()
      requires old(SlabsMatch()) && objects == old(objects) && pool.slabs == old(pool).slabs
      requires forall j :: j in objects ==> unchanged(objects[j])
      ensures SlabsMatch()
    {
      forall j | j in objects
        ensures SlabAt(j)
      {
        assert old(SlabAt(j));
      }
    }

    method FindCacheIndex(size: nat) returns (index: int)
      ensures index == if ClassFor(size) == NUM_CACHES then -1 else ClassFor(size)
    {
      for i := 0 to NUM_CACHES
        invariant forall j :: 0 <= j < i ==> CACHE_SIZES[j] < size
      {
        if CACHE_SIZES[i] >= size {
          return i;
        }
      }
      return -1;
    }

    /** Allocates a slot of the smallest fitting class; -1 if that is not possible. */
    method Allocate(memSize: nat) returns (id: int)
      requires Valid()
      modifies this, caches, set o: SlabObject | o.owner == this
      ensures Valid() && PoolOk(old(pool)) && (pool, id) == SlabCalls.Allocate(old(pool), memSize)
    {
      ghost var p := pool;
      hide Mirrors, PoolOk, SlabCalls.Quiet, SlabCalls.Allocate, SlabCalls.Finish, SlotTaken, SlotRefused;
      ValidParts();
      SlabCalls.AllocateCorrect(p, memSize);
      if memSize == 0 {
        return -1;
      }
      var c := FindCacheIndex(memSize);
      if c == -1 {
        return -1;
      }
      var target, slot := TakeSlot(c);
      if target == null {
        AllocateRefused(p, pool, memSize);
        return -1;
      }
      AllocateFrom(p, pool, memSize, target.index, slot);
      if slot == -1 {
        return -1;
      }
      TakenParts(p, pool, c, target.index, slot);
      MirrorParts();
      SlabParts(target.index);
      id := Finish(c, target, slot);
    }

    lemma ValidParts()
      requires Valid()
      ensures Mirrors() && SlabCalls.Quiet(pool) && PoolOk(pool) && |caches| == |pool.lists| == NUM_CACHES
    {
    }

    lemma MirrorParts()
      requires Mirrors()
      ensures SlabsMatch() && CachesMatch() && IdsMatch() && NumbersMatch() && |caches| == |pool.lists| == NUM_CACHES
    {
    }

    // ---------- deallocation ----------

    /** Moves a slab that has lost a slot to the list it belongs in. */
    method Refile(cache: SlabCache, slab: SlabObject, wasFull: bool)
      requires Listed(cache.partial) && Listed(cache.full) && Listed(cache.empty)
      requires slab.index in objects && objects[slab.index] == slab
      modifies cache
      ensures Listed(cache.partial) && Listed(cache.full) && Listed(cache.empty)
      ensures var (l, s) := (old(cache.Data()), slab.Data());
        cache.Data() == (
          if wasFull
          then Push(l.(full := Remove(l.full, slab.index)), if IsEmpty(s) then SlabModel.Empty else SlabModel.Partial,
                    slab.index)
          else if IsEmpty(s) then Push(l.(partial := Remove(l.partial, slab.index)), SlabModel.Empty, slab.index)
          else l).(frees := l.frees + 1)
    {
      RemovedIndices(objects, cache.full, slab);
      RemovedIndices(objects, cache.partial, slab);
      ListedWithout(cache.full, slab);
      ListedWithout(cache.partial, slab);
      ListedPush(cache.empty, slab);
      ListedPush(cache.partial, slab);
      cache.totalFrees := cache.totalFrees + 1;
      if wasFull {
        cache.full := Without(cache.full, slab);
        if slab.Empty() {
          cache.empty := cache.empty + [slab];
        } else {
          cache.partial := cache.partial + [slab];
        }
      } else {
        if slab.Empty() {
          cache.partial := Without(cache.partial, slab);
          cache.empty := cache.empty + [slab];
        }
      }
    }

    /** Returns the slot of an erased record. */
    method ReturnSlot(rec: SlabAllocRecord)
      requires Mirrors() && rec.slab.index in objects
      requires objects[rec.slab.index] == rec.slab && rec.cacheIndex < NUM_CACHES
      modifies `pool, caches[rec.cacheIndex], set o: SlabObject | o.owner == this
      ensures Mirrors()
      ensures rec.cacheIndex < |old(pool).lists| && rec.slab.index in old(pool).slabs
      ensures pool == Return(old(pool), RecordOf(rec))
    {
      hide SlabsMatch, CachesMatch, IdsMatch, NumbersMatch, SlabModel.FreeSlot, Return, Push, Remove;
      MirrorParts();
      Parts(rec.cacheIndex);
      ghost var p, k := pool, rec.slab.index;
      SlabParts(k);
      OwnIndices();
      var cache, slab := caches[rec.cacheIndex], rec.slab;
      ghost var was, l := slab.Data(), cache.Data();
      var wasFull := FreeSlotOf(slab, rec.slotIndex);
      Refile(cache, slab, wasFull);
      pool := Update(pool, rec.cacheIndex, cache.Data(), k, slab.Data());
      ReturnIs(p, rec, was, l, cache.Data(), slab.Data());
      UpdateIs(p, rec.cacheIndex, cache.Data(), k, slab.Data());
      assert objects == objects[k := slab];
      UpdatedSlabs(k, slab);
      UpdatedCaches(rec.cacheIndex);
      MirrorAgain();
    }

    method FreeSlotOf(slab: SlabObject, slot: nat) returns (wasFull: bool)
      requires slab.numSlots == |slab.bitmap|
      modifies slab
      ensures wasFull == IsFull(old(slab.Data())) && slab.Data() == SlabModel.FreeSlot(old(slab.Data()), slot)
      ensures slab.numSlots == |slab.bitmap|
    {
      wasFull := slab.Full();
      slab.FreeSlot(slot);
    }

    /** Only slabs and lists have changed. */
    twostate lemma MirrorAgain()
      requires old(Mirrors()) && SlabsMatch() && CachesMatch() && objects == old(objects)
      requires idMap == old(idMap) && pool.idMap == old(pool).idMap
      requires totalSize == old(totalSize) && nextSlabAddress == old(nextSlabAddress) && nextId == old(nextId)
      requires pool.total == old(pool).total && pool.created == old(pool).created && pool.nextId == old(pool).nextId
      ensures Mirrors()
    {
    }

    /** Frees the slot of an id; an unknown id changes nothing. */
    method Deallocate(id: int)
      requires Valid()
      modifies this, caches, set o: SlabObject | o.owner == this
      ensures Valid()
      ensures id in old(pool).idMap ==>
        old(pool).idMap[id].cls < |old(pool).lists| && old(pool).idMap[id].slab in old(pool).slabs
      ensures pool == SlabCalls.Deallocate(old(pool), id)
    {
      SlabCalls.DeallocateCorrect(pool, id);
      if id !in idMap {
        return;
      }
      EraseAndReturn(id);
    }

    /** The id is forgotten, then its slot returned. */
    method EraseAndReturn(id: int)
      requires Valid() && id in idMap && id in pool.idMap && SlabCalls.Quiet(SlabCalls.Deallocate(pool, id))
      modifies this, caches, set o: SlabObject | o.owner == this
      ensures Valid() && pool == SlabCalls.Deallocate(old(pool), id)
    {
      hide SlabsMatch, IdsMatch, NumbersMatch, SlabCalls.Quiet, Return, Erase;
      ghost var p := pool;
      var rec := EraseId(id);
      IdParts(p, id, rec);
      ReturnSlot(rec);
    }

    method EraseId(id: int) returns (rec: SlabAllocRecord)
      requires Mirrors() && id in idMap && id in pool.idMap
      modifies `idMap, `pool
      ensures Mirrors() && pool == Erase(old(pool), id) && RecordOf(rec) == old(pool).idMap[id]
      ensures rec.slab.index in objects && objects[rec.slab.index] == rec.slab
    {
      rec := idMap[id];
      idMap := idMap - {id};
      pool := Erase(pool, id);
      StillMatches();
      hide SlabsMatch, CachesMatch;
    }

    lemma IdParts(p: Pool, id: int, rec: SlabAllocRecord)
      requires SlabCalls.Quiet(p) && id in p.idMap && p.idMap[id] == RecordOf(rec)
      ensures rec.cacheIndex < NUM_CACHES
    {
      SlabCalls.QuietBits(p, 0, 0);
    }

    // ---------- the rest ----------

    constructor ()
      ensures Valid() && pool == Initial(0)
    {
      var all := MakeCaches();
      caches := all;
      totalSize, totalPages, nextSlabAddress, nextId := 0, 0, 0, 1;
      idMap := map[];
      pool, objects := Initial(0), map[];
      SlabCalls.QuietInitial(0);
    }

    static ghost predicate Cleared(cache: SlabCache)
      reads cache
    {
      cache.Data() == NO_LISTS && cache.partial == cache.full == cache.empty == []
    }

    method ClearCaches()
      requires |caches| == NUM_CACHES && forall c, d :: 0 <= c < d < NUM_CACHES ==> caches[c] != caches[d]
      modifies caches
      ensures forall c: nat :: c < NUM_CACHES ==> Cleared(caches[c])
    {
      for i := 0 to NUM_CACHES
        invariant forall c: nat :: c < i ==> Cleared(caches[c])
      {
        ClearCache(caches[i]);
      }
    }

    method SetSizes()
      requires |caches| == NUM_CACHES && forall c: nat :: c < NUM_CACHES ==> Cleared(caches[c])
      modifies caches
      ensures forall c: nat :: c < NUM_CACHES ==> Cleared(caches[c])
    {
      for i := 0 to NUM_CACHES
        invariant forall c: nat :: c < NUM_CACHES ==> Cleared(caches[c])
      {
        caches[i].objectSize := CACHE_SIZES[i];
      }
    }

    /** Forgets all slabs and ids and starts a pool of the given size. */
    method Init(memSize: nat)
      requires |caches| == NUM_CACHES && forall c, d :: 0 <= c < d < NUM_CACHES ==> caches[c] != caches[d]
      modifies this, caches
      ensures Valid() && pool == Initial(memSize)
    {
      idMap := map[];
      ClearCaches();
      totalSize, totalPages, nextSlabAddress, nextId := memSize, memSize / PAGE_SIZE, 0, 1;
      SetSizes();
      pool, objects := Initial(memSize), map[];
      SlabCalls.QuietInitial(memSize);
    }

    /** The address of an id's slot; 0 for an unknown id. */
    method GetAddress(id: int) returns (address: nat)
      requires Valid()
      ensures address == if id in pool.idMap then pool.idMap[id].addr else 0
    {
      if id in idMap {
        return idMap[id].address;
      }
      return 0;
    }
  }

  /** Removing a slab from a list of listed slabs removes its index. */
  lemma {:induction false} RemovedIndices(objects: map<nat, SlabObject>, slabs: seq<SlabObject>, s: SlabObject)
    requires s.index in objects && objects[s.index] == s
    requires forall i :: 0 <= i < |slabs| ==> slabs[i].index in objects && objects[slabs[i].index] == slabs[i]
    ensures Indices(Without(slabs, s)) == Remove(Indices(slabs), s.index)
  {
    if slabs != [] {
      var rest := slabs[1..];
      RemovedIndices(objects, rest, s);
      assert Indices(slabs) == [slabs[0].index] + Indices(rest);
      assert Indices(slabs)[1..] == Indices(rest);
      assert slabs[0] == s <==> slabs[0].index == s.index;
      assert slabs[0] != s ==> Indices(Without(slabs, s)) == [slabs[0].index] + Indices(Without(rest, s));
    }
  }

  lemma {:induction false} WithoutElements(slabs: seq<SlabObject>, s: SlabObject)
    ensures forall o :: o in Without(slabs, s) ==> o in slabs
  {
    if slabs != [] {
      WithoutElements(slabs[1..], s);
    }
  }

  /** An allocation from the first partial slab gave slot j of slab k. */
  ghost predicate PartialTaken(p: Pool, p': Pool, c: nat, k: nat, j: int) {
    && c < |p.lists| && p.lists[c].partial != [] && p.lists[c].partial[0] == k && k in p.slabs
    && var l := p.lists[c]; var (s, slot) := SlabModel.AllocSlot(p.slabs[k]);
    && slot == j
    && p' == Update(p, c, if IsFull(s) then Push(l.(partial := l.partial[1..]), SlabModel.Full, k) else l, k, s)
  }

  /** An allocation from the first empty slab gave slot j of slab k. */
  ghost predicate EmptyTaken(p: Pool, p': Pool, c: nat, k: nat, j: int) {
    && c < |p.lists| && p.lists[c].empty != [] && p.lists[c].empty[0] == k && k in p.slabs
    && var l := p.lists[c]; var (s, slot) := SlabModel.AllocSlot(p.slabs[k]);
    slot == j && p' == Update(p, c, SlabModel.Shelve(l.(empty := l.empty[1..]), k, s), k, s)
  }

  /** Slot j of slab k was taken for class c; the slab is new if no listed one had room. */
  ghost predicate SlotTaken(p: Pool, p': Pool, c: nat, k: nat, j: int) {
    && PoolOk(p) && c < NUM_CACHES
    && if HasRoom(p, c) then ListedSlabs(p, c); (p', k, j) == TakeListed(p, c)
       else CanCreate(p) && k == p.created && (p', j) == SlabModel.TakeNew(p.(created := p.created + 1), c, k)
  }

  ghost predicate SlotRefused(p: Pool, p': Pool, c: nat) {
    PoolOk(p) && c < NUM_CACHES && !HasRoom(p, c) && !CanCreate(p) && p' == p
  }

  lemma FromPartial(p: Pool, p': Pool, c: nat, k: nat, j: int)
    requires PoolOk(p) && c < NUM_CACHES && PartialTaken(p, p', c, k, j)
    ensures SlotTaken(p, p', c, k, j)
  {
    hide SlabModel.AllocSlot;
  }

  lemma FromEmpty(p: Pool, p': Pool, c: nat, k: nat, j: int)
    requires PoolOk(p) && c < NUM_CACHES && p.lists[c].partial == [] && EmptyTaken(p, p', c, k, j)
    ensures SlotTaken(p, p', c, k, j)
  {
    hide SlabModel.AllocSlot, SlabModel.Shelve;
  }

  lemma FromNew(p: Pool, p': Pool, c: nat, k: nat, j: int)
    requires PoolOk(p) && c < NUM_CACHES && p.lists[c].partial == []
    requires p.lists[c].empty == [] && CanCreate(p) && k == p.created
    requires (p', j) == SlabModel.TakeNew(p.(created := p.created + 1), c, k)
    ensures SlotTaken(p, p', c, k, j)
  {
    hide SlabModel.TakeNew;
  }

  lemma Refused(p: Pool, c: nat)
    requires PoolOk(p) && c < NUM_CACHES && p.lists[c].partial == [] && p.lists[c].empty == []
    ensures !CanCreate(p) ==> SlotRefused(p, p, c)
  {
  }

  lemma AllocateRefused(p: Pool, p': Pool, size: nat)
    requires PoolOk(p) && size > 0 && SlotRefused(p, p', ClassFor(size))
    ensures SlabCalls.Allocate(p, size) == (p, -1) && p' == p
  {
  }

  lemma AllocateFrom(p: Pool, p': Pool, size: nat, k: nat, j: int)
    requires PoolOk(p) && size > 0 && SlotTaken(p, p', ClassFor(size), k, j)
    ensures ClassFor(size) < NUM_CACHES && |p'.lists| == NUM_CACHES
    ensures SlabCalls.Allocate(p, size) == SlabCalls.Finish(p', ClassFor(size), k, j)
    ensures j == -1 ==> SlabCalls.Allocate(p, size) == (p', -1)
  {
  }

  lemma TakenParts(p: Pool, p': Pool, c: nat, k: nat, j: int)
    requires SlotTaken(p, p', c, k, j)
    ensures j >= 0 && c < NUM_CACHES && k in p'.slabs && p'.slabs[k].cls == c
  {
    if HasRoom(p, c) {
      TakeListedCorrect(p, c);
    } else {
      assert PoolOk(p.(created := p.created + 1));
      TakeNewCorrect(p.(created := p.created + 1), c, k);
    }
  }

  lemma PartialIs(p: Pool, c: nat, k: nat, j: int, s: Slab, l: Lists)
    requires c < |p.lists| && p.lists[c].partial != [] && p.lists[c].partial[0] == k && k in p.slabs
    requires (s, j) == SlabModel.AllocSlot(p.slabs[k])
    requires l ==
      if IsFull(s) then Push(p.lists[c].(partial := p.lists[c].partial[1..]), SlabModel.Full, k) else p.lists[c]
    ensures PartialTaken(p, Update(p, c, l, k, s), c, k, j)
  {
    hide SlabModel.AllocSlot;
  }

  lemma UpdateIs(p: Pool, c: nat, l: Lists, k: nat, s: Slab)
    requires c < |p.lists|
    ensures var q := Update(p, c, l, k, s);
      && q.slabs == p.slabs[k := s] && q.lists == p.lists[c := l] && q.idMap == p.idMap
      && q.total == p.total && q.created == p.created && q.nextId == p.nextId
  {
  }

  lemma ReturnIs(p: Pool, rec: SlabAllocRecord, was: Slab, l: Lists, l': Lists, s: Slab)
    requires rec.cacheIndex < |p.lists| && rec.slab.index in p.slabs && l == p.lists[rec.cacheIndex]
    requires was == p.slabs[rec.slab.index] && s == SlabModel.FreeSlot(was, rec.slotIndex)
    requires var k := rec.slab.index;
      l' == (
        if IsFull(was)
        then Push(l.(full := Remove(l.full, k)), if IsEmpty(s) then SlabModel.Empty else SlabModel.Partial, k)
        else if IsEmpty(s) then Push(l.(partial := Remove(l.partial, k)), SlabModel.Empty, k)
        else l).(frees := l.frees + 1)
    ensures RecordOf(rec).cls == rec.cacheIndex && RecordOf(rec).slab == rec.slab.index
    ensures Return(p, RecordOf(rec)) == Update(p, rec.cacheIndex, l', rec.slab.index, s)
  {
    hide SlabModel.FreeSlot, Remove;
  }
}
