/** What a sequential call answers and does, to the slot, the address, the counters and the order of the lists. */
module SlabAnswers {
  import opened Common
  import opened SlabModel
  import opened SlabProtocol
  import opened SlabCalls

  // ---------- allocation ----------

  /** Where the next slot of a class comes from: the first partial slab, else the first empty one, else a new one. */
  ghost function NextSlab(p: Pool, c: nat): nat
    requires c < |p.lists|
  {
    if p.lists[c].partial != [] then p.lists[c].partial[0]
    else if p.lists[c].empty != [] then p.lists[c].empty[0] else p.created
  }

  /** The first free slot of a slab; slot 0 of one that is not listed. */
  ghost predicate IsNextSlot(p: Pool, k: nat, j: nat) {
    !BitSet(p, k, j) && if k in p.slabs then forall x: nat :: x < j ==> BitSet(p, k, x) else j == 0
  }

  lemma FirstFreeIsNext(p: Pool, k: nat)
    requires k in p.slabs && SlabOk(p.slabs[k]) && !IsFull(p.slabs[k])
    ensures FirstFree(p.slabs[k].bitmap) < |p.slabs[k].bitmap| && IsNextSlot(p, k, FirstFree(p.slabs[k].bitmap))
    ensures SlabModel.AllocSlot(p.slabs[k]) ==
      (p.slabs[k].(bitmap := p.slabs[k].bitmap[FirstFree(p.slabs[k].bitmap) := true], used := p.slabs[k].used + 1),
       FirstFree(p.slabs[k].bitmap))
  {
    CountAll(p.slabs[k].bitmap);
  }

  lemma ListedPlace(p: Pool, c: nat)
    requires PoolOk(p) && c < NUM_CACHES && HasRoom(p, c)
    ensures forall k :: k in p.lists[c].partial + p.lists[c].empty ==> k in p.slabs
    ensures var (q, k, j) := TakeListed(p, c);
      && k == NextSlab(p, c) && j >= 0 && IsNextSlot(p, k, j) && q.created == p.created
      && q.idMap == p.idMap && q.nextId == p.nextId && |q.lists| == NUM_CACHES
      && q.lists[c].allocations == p.lists[c].allocations && q.lists[c].frees == p.lists[c].frees
  {
    ListedSlabs(p, c);
    TakeListedCorrect(p, c);
    var l := p.lists[c];
    assert Sorted(p.slabs, l, c);
    assert l.partial != [] ==> l.partial[0] in ListOf(l, Partial);
    assert l.partial == [] ==> l.empty[0] in ListOf(l, SlabModel.Empty);
    var k := NextSlab(p, c);
    assert SlabOk(p.slabs[k]) && p.slabs[k].cls == c && !IsFull(p.slabs[k]);
    FirstFreeIsNext(p, k);
    hide PoolOk, Sorted, SlabOk, SlabModel.AllocSlot, IsNextSlot, Touches, Took;
  }

  lemma NewPlace(p: Pool, c: nat)
    requires PoolOk(p) && c < NUM_CACHES && CanCreate(p)
    ensures var (q, j) := TakeNew(p.(created := p.created + 1), c, p.created);
      && p.created !in p.slabs && IsNextSlot(p, p.created, j) && q.created == p.created + 1
      && q.idMap == p.idMap && q.nextId == p.nextId && |q.lists| == NUM_CACHES
      && q.lists[c].allocations == p.lists[c].allocations && q.lists[c].frees == p.lists[c].frees
  {
    assert !NewSlab(c).bitmap[0];
  }

  /**
   A successful allocation takes the first free slot of the first partial slab, else of the first empty one, else of a
   new one; a slab is carved out only if no slot was free. The id is the next one, its address is slab times 1024 plus
   slot times object size, and the class counts one allocation more.
   */
  lemma AllocatePlace(p: Pool, size: nat)
    requires Quiet(p)
    ensures PoolOk(p)
    ensures var ((q, id), c) := (SlabCalls.Allocate(p, size), ClassFor(size));
      id != -1 ==>
        && id == p.nextId && q.nextId == id + 1 && id in q.idMap
        && c < NUM_CACHES && |q.lists| == |p.lists| == NUM_CACHES
        && var r := q.idMap[id];
           && r.cls == c && r.slab == NextSlab(p, c) && IsNextSlot(p, r.slab, r.slot)
           && r.addr == r.slab * 1024 + r.slot * CACHE_SIZES[c]
           && q.created == p.created + (if SlotFree(p, c) then 0 else 1)
           && q.lists[c].allocations == p.lists[c].allocations + 1 && q.lists[c].frees == p.lists[c].frees
  {
    SlabCalls.AllocateCorrect(p, size);
    var c := ClassFor(size);
    assert PoolOk(p) && |p.lists| == NUM_CACHES;
    if size > 0 && c < NUM_CACHES {
      RoomIsFreeSlot(p, c);
      if HasRoom(p, c) {
        ListedPlace(p, c);
      } else if CanCreate(p) {
        NewPlace(p, c);
      }
    }
    hide Quiet, PoolOk, TakeListed, TakeNew, CanCreate, SlotFree, IsNextSlot, Granted;
  }

  /** The first allocation of a new pool gets id 1 and address 0. */
  lemma FirstAllocation(total: nat, size: nat)
    requires total >= 1024 && 0 < size <= 512
    ensures Quiet(Initial(total)) && PoolOk(Initial(total))
    ensures var (q, id) := SlabCalls.Allocate(Initial(total), size);
      id == 1 && 1 in q.idMap && q.idMap[1].addr == 0 && q.created == 1
  {
    QuietInitial(total);
    SlabCalls.AllocateCorrect(Initial(total), size);
    AllocatePlace(Initial(total), size);
    assert !SlotFree(Initial(total), ClassFor(size));
    hide Quiet, PoolOk, SlabCalls.Allocate;
  }

  // ---------- the order of the lists ----------

  lemma {:induction false} RemoveLosesOne(s: seq<nat>, k: nat)
    requires Distinct(s)
    ensures k in s ==> LostOne(s, Remove(s, k), k)
    ensures k !in s ==> Remove(s, k) == s
  {
    if s != [] {
      var x, rest := s[0], s[1..];
      assert s == [x] + rest && x !in rest && Distinct(rest);
      RemoveLosesOne(rest, k);
      ConsLost(x, rest, Remove(rest, k), k);
      hide LostOne, Distinct;
    }
  }

  /** The lists of a class after a slot of slab k was taken, the slab being filled by that or not. */
  ghost predicate MovedOn(l: Lists, l': Lists, k: nat, filled: bool) {
    && l'.full == (if filled then l.full + [k] else l.full)
    && l'.empty == (if l.partial == [] && l.empty != [] then l.empty[1..] else l.empty)
    && l'.partial ==
       if l.partial != [] then (if filled then l.partial[1..] else l.partial) else (if filled then [] else [k])
  }

  /** The class's lists, and no other's, move on. */
  ghost predicate ListsMove(p: Pool, q: Pool, c: nat, k: nat) {
    && c < |p.lists| == |q.lists| && k in q.slabs
    && (forall d :: 0 <= d < |p.lists| && d != c ==> q.lists[d] == p.lists[d])
    && MovedOn(p.lists[c], q.lists[c], k, q.slabs[k].used == |q.slabs[k].bitmap|)
  }

  lemma ListedOrder(p: Pool, c: nat)
    requires PoolOk(p) && c < NUM_CACHES && HasRoom(p, c)
    ensures forall k :: k in p.lists[c].partial + p.lists[c].empty ==> k in p.slabs
    ensures ListsMove(p, TakeListed(p, c).0, c, TakeListed(p, c).1)
  {
    ListedSlabs(p, c);
    hide SlabModel.AllocSlot, Sorted, SlabOk;
  }

  lemma NewOrder(p: Pool, c: nat)
    requires PoolOk(p) && c < NUM_CACHES && !HasRoom(p, c)
    ensures ListsMove(p, TakeNew(p.(created := p.created + 1), c, p.created).0, c, p.created)
  {
    hide SlabModel.AllocSlot, NewSlab, Sorted, SlabOk;
  }

  lemma FinishOrder(p: Pool, q: Pool, c: nat, k: nat, j: nat)
    requires c < NUM_CACHES && ListsMove(p, q, c, k)
    ensures ListsMove(p, Finish(q, c, k, j).0, c, k)
  {
  }

  /** A slab that an allocation fills goes to the end of the full list, one newly in use to the end of its list. */
  lemma AllocateOrder(p: Pool, size: nat)
    requires Quiet(p)
    ensures PoolOk(p)
    ensures var ((q, id), c) := (SlabCalls.Allocate(p, size), ClassFor(size));
      id != -1 ==>
        && c < |p.lists| && ListsMove(p, q, c, NextSlab(p, c))
  {
    SlabCalls.AllocateCorrect(p, size);
    var c := ClassFor(size);
    assert PoolOk(p) && |p.lists| == NUM_CACHES;
    hide Quiet, PoolOk, HasRoom, CanCreate, TakeListed, TakeNew, Finish, ListsMove, NextSlab;
    if size > 0 && c < NUM_CACHES {
      if HasRoom(p, c) {
        ListedCallOrder(p, size);
      } else if CanCreate(p) {
        NewCallOrder(p, size);
      }
    }
  }

  lemma ListedCallOrder(p: Pool, size: nat)
    requires PoolOk(p) && size > 0 && ClassFor(size) < NUM_CACHES && HasRoom(p, ClassFor(size))
    ensures ListsMove(p, SlabCalls.Allocate(p, size).0, ClassFor(size), NextSlab(p, ClassFor(size)))
  {
    assert |p.lists| == NUM_CACHES;
    hide PoolOk, TakeListed, Finish, ListsMove, NextSlab, IsNextSlot;
    var c := ClassFor(size);
    ListedPlace(p, c);
    ListedOrder(p, c);
    var (q, k, j) := TakeListed(p, c);
    FinishOrder(p, q, c, k, j);
  }

  lemma NewCallOrder(p: Pool, size: nat)
    requires PoolOk(p) && size > 0 && ClassFor(size) < NUM_CACHES && !HasRoom(p, ClassFor(size)) && CanCreate(p)
    ensures ListsMove(p, SlabCalls.Allocate(p, size).0, ClassFor(size), NextSlab(p, ClassFor(size)))
  {
    assert |p.lists| == NUM_CACHES;
    hide PoolOk, TakeNew, Finish, ListsMove, IsNextSlot;
    var c := ClassFor(size);
    NewPlace(p, c);
    NewOrder(p, c);
    var (q, j) := TakeNew(p.(created := p.created + 1), c, p.created);
    FinishOrder(p, q, c, p.created, j);
  }

  /**
   A deallocation counts one more free of the class, and moves the slab, if it is in another state now, to the end of
   the empty or the partial list; the other slabs keep their order.
   */
  lemma DeallocateOrder(p: Pool, id: int)
    requires Quiet(p) && id in p.idMap
    ensures var r := p.idMap[id];
      && r.cls < |p.lists| && r.slab in p.slabs && |SlabCalls.Deallocate(p, id).lists| == |p.lists|
      && r.slab in SlabCalls.Deallocate(p, id).slabs
    ensures var q, r := SlabCalls.Deallocate(p, id), p.idMap[id];
      var (k, l, l') := (r.slab, p.lists[r.cls], q.lists[r.cls]);
      var (was, left) := (p.slabs[k].used, q.slabs[k].used);
      && left == was - 1 && l'.frees == l.frees + 1 && l'.allocations == l.allocations
      && (forall d :: 0 <= d < |p.lists| && d != r.cls ==> q.lists[d] == p.lists[d])
      && l'.empty == (if left == 0 then l.empty + [k] else l.empty)
      && (if was == |p.slabs[k].bitmap| then LostOne(l.full, l'.full, k) else l'.full == l.full)
      && (if was == |p.slabs[k].bitmap| then l'.partial == (if left == 0 then l.partial else l.partial + [k])
          else if left == 0 then LostOne(l.partial, l'.partial, k) else l'.partial == l.partial)
  {
    SlabCalls.DeallocateCorrect(p, id);
    var r := p.idMap[id];
    QuietBits(p, r.slab, r.slot);
    assert PoolOk(p) && RecordOk(p, r);
    var k, l := r.slab, p.lists[r.cls];
    assert Sorted(p.slabs, l, r.cls) && SlabOk(p.slabs[k]) && |p.slabs[k].bitmap| >= 2;
    FreeSlotCorrect(p.slabs[k], r.slot);
    assert Distinct(ListOf(l, SlabModel.Full)) && Distinct(ListOf(l, SlabModel.Partial));
    assert k in ListOf(l, ShelfOf(p.slabs[k]));
    RemoveLosesOne(l.full, k);
    RemoveLosesOne(l.partial, k);
    hide Quiet, PoolOk, Sorted, SlabOk, SlabModel.FreeSlot, LostOne, Remove, RecordOk, BitSet;
  }
}
