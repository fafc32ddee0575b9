/** Slabs, the three lists of a cache, and the critical sections of the slab allocator, on values. */
module SlabModel {
  import opened Common

  const NUM_CACHES := 7
  const CACHE_SIZES := [8, 16, 32, 64, 128, 256, 512]
  const PAGES_PER_SLAB := 16
  const SLAB_SIZE := PAGES_PER_SLAB * PAGE_SIZE

  /** The class for a size: the first whose objects are large enough; NUM_CACHES if there is none. */
  function ClassFor(size: nat): (c: nat)
    ensures c <= NUM_CACHES && (c < NUM_CACHES ==> CACHE_SIZES[c] >= size)
    ensures forall i :: 0 <= i < c ==> CACHE_SIZES[i] < size
  {
    if size <= 8 then 0 else if size <= 16 then 1 else if size <= 32 then 2 else if size <= 64 then 3
    else if size <= 128 then 4 else if size <= 256 then 5 else if size <= 512 then 6 else 7
  }

  function SlotsOf(cls: nat): (n: nat)
    requires cls < NUM_CACHES
    ensures n >= 2 && n * CACHE_SIZES[cls] == SLAB_SIZE
  {
    SLAB_SIZE / CACHE_SIZES[cls]
  }

  // ---------- one slab ----------

  datatype Slab = Slab(cls: nat, bitmap: seq<bool>, used: int)

  function Count(bitmap: seq<bool>): (n: nat)
    ensures n <= |bitmap|
  {
    if bitmap == [] then 0 else Count(bitmap[..|bitmap| - 1]) + if bitmap[|bitmap| - 1] then 1 else 0
  }

  lemma {:induction false} CountSet(bitmap: seq<bool>, i: nat, b: bool)
    requires i < |bitmap|
    ensures Count(bitmap[i := b]) == Count(bitmap) + (if b then 1 else 0) - (if bitmap[i] then 1 else 0)
  {
    var n := |bitmap| - 1;
    if i < n {
      CountSet(bitmap[..n], i, b);
      assert bitmap[i := b][..n] == bitmap[..n][i := b];
    } else {
      assert bitmap[i := b][..n] == bitmap[..n];
    }
  }

  lemma {:induction false} CountAll(bitmap: seq<bool>)
    ensures Count(bitmap) == |bitmap| <==> forall i :: 0 <= i < |bitmap| ==> bitmap[i]
    ensures Count(bitmap) == 0 <==> forall i :: 0 <= i < |bitmap| ==> !bitmap[i]
  {
    if bitmap != [] {
      var n := |bitmap| - 1;
      CountAll(bitmap[..n]);
      assert forall i :: 0 <= i < n ==> bitmap[..n][i] == bitmap[i];
    }
  }

  /** The first clear bit; the number of bits if all are set. */
  function FirstFree(bitmap: seq<bool>): (i: nat)
    ensures i <= |bitmap| && (i < |bitmap| ==> !bitmap[i])
    ensures forall j :: 0 <= j < i ==> bitmap[j]
  {
    if bitmap == [] || !bitmap[0] then 0 else
      var i := 1 + FirstFree(bitmap[1..]);
      assert forall j :: 1 <= j < i ==> bitmap[j] == bitmap[1..][j - 1];
      i
  }

  function NewSlab(cls: nat): Slab
    requires cls < NUM_CACHES
  {
    Slab(cls, seq(SlotsOf(cls), _ => false), 0)
  }

  predicate IsFull(s: Slab) {
    s.used == |s.bitmap|
  }

  predicate IsEmpty(s: Slab) {
    s.used == 0
  }

  /** Sets the first clear bit; -1 if there is none. */
  function AllocSlot(s: Slab): (Slab, int) {
    var i: int := FirstFree(s.bitmap);
    if i < |s.bitmap| then (s.(bitmap := s.bitmap[i := true], used := s.used + 1), i) else (s, -1)
  }

  function FreeSlot(s: Slab, slot: nat): Slab {
    if slot < |s.bitmap| && s.bitmap[slot]
    then s.(bitmap := s.bitmap[slot := false], used := s.used - 1) else s
  }

  /** A slab of its class whose count is the number of its set bits. */
  ghost predicate SlabOk(s: Slab) {
    s.cls < NUM_CACHES && |s.bitmap| == SlotsOf(s.cls) && s.used == Count(s.bitmap)
  }

  /** A slab with room always yields a slot, and only that bit changes. */
  lemma AllocSlotCorrect(s: Slab)
    requires SlabOk(s) && !IsFull(s)
    ensures var (s', j) := AllocSlot(s);
      && SlabOk(s') && 0 <= j < |s.bitmap| && !s.bitmap[j]
      && s'.bitmap == s.bitmap[j := true] && s'.used == s.used + 1 && s'.cls == s.cls
  {
    CountAll(s.bitmap);
    CountSet(s.bitmap, FirstFree(s.bitmap), true);
  }

  lemma FreeSlotCorrect(s: Slab, j: nat)
    requires SlabOk(s) && j < |s.bitmap| && s.bitmap[j]
    ensures var s' := FreeSlot(s, j);
      && SlabOk(s') && s.used > 0 && s'.bitmap == s.bitmap[j := false] && s'.used == s.used - 1 && s'.cls == s.cls
  {
    CountAll(s.bitmap);
    CountSet(s.bitmap, j, false);
  }

  lemma NewSlabOk(cls: nat)
    requires cls < NUM_CACHES
    ensures SlabOk(NewSlab(cls)) && !IsFull(NewSlab(cls))
  {
    CountAll(NewSlab(cls).bitmap);
  }

  // ---------- lists ----------

  function Remove(s: seq<nat>, k: nat): seq<nat> {
    if s == [] then [] else (if s[0] == k then [] else [s[0]]) + Remove(s[1..], k)
  }

  lemma {:induction false} RemoveElements(s: seq<nat>, k: nat)
    ensures forall x :: x in Remove(s, k) <==> x in s && x != k
    ensures Distinct(s) ==> Distinct(Remove(s, k))
  {
    if s != [] {
      RemoveElements(s[1..], k);
      assert s == [s[0]] + s[1..];
      assert Distinct(s) ==> Distinct(s[1..]) && s[0] !in s[1..];
    }
  }

  lemma PushElements(s: seq<nat>, k: nat)
    requires Distinct(s) && k !in s
    ensures Distinct(s + [k]) && forall x :: x in s + [k] <==> x in s || x == k
  {
  }

  lemma PopElements(s: seq<nat>)
    requires Distinct(s) && s != []
    ensures Distinct(s[1..]) && s[0] !in s[1..] && forall x :: x in s <==> x in s[1..] || x == s[0]
  {
    assert s == [s[0]] + s[1..];
  }

  datatype Lists = Lists(partial: seq<nat>, full: seq<nat>, empty: seq<nat>, allocations: nat, frees: nat)

  datatype Shelf = Partial | Full | Empty

  /** The list a slab belongs in. */
  function ShelfOf(s: Slab): Shelf {
    if IsEmpty(s) then Empty else if IsFull(s) then Full else Partial
  }

  function ListOf(l: Lists, w: Shelf): seq<nat> {
    match w
    case Partial => l.partial
    case Full => l.full
    case Empty => l.empty
  }

  ghost predicate Belongs(slabs: map<nat, Slab>, c: nat, w: Shelf, k: nat) {
    k in slabs && slabs[k].cls == c && ShelfOf(slabs[k]) == w
  }

  /** Every slab of the class is once in the list that its count says, and in no other; the lists hold nothing else. */
  ghost predicate Sorted(slabs: map<nat, Slab>, l: Lists, c: nat) {
    && (forall w :: Distinct(ListOf(l, w)))
    && (forall w, k :: k in ListOf(l, w) <==> Belongs(slabs, c, w, k))
  }

  function Push(l: Lists, w: Shelf, k: nat): Lists {
    match w
    case Partial => l.(partial := l.partial + [k])
    case Full => l.(full := l.full + [k])
    case Empty => l.(empty := l.empty + [k])
  }

  /** A slab just given a slot goes to the full or the partial list. */
  function Shelve(l: Lists, k: nat, s: Slab): Lists {
    if IsFull(s) then Push(l, Full, k) else Push(l, Partial, k)
  }

  // ---------- the pool and the critical sections ----------

  datatype Record = Record(cls: nat, slab: nat, slot: nat, addr: nat)

  /**
   `created` slabs have been carved out; slab k starts at k * SLAB_SIZE. `slabs` holds those that are in a list,
   so all but the ones that an allocation has just created and not yet used.
   */
  datatype Pool = Pool(total: nat, created: nat, slabs: map<nat, Slab>, lists: seq<Lists>, idMap: map<int, Record>,
                       nextId: int)

  const NO_LISTS := Lists([], [], [], 0, 0)

  function Initial(total: nat): Pool {
    Pool(total, 0, map[], seq(NUM_CACHES, _ => NO_LISTS), map[], 1)
  }

  ghost predicate PoolOk(p: Pool) {
    && |p.lists| == NUM_CACHES && p.created * SLAB_SIZE <= p.total
    && (forall k :: k in p.slabs ==> k < p.created && SlabOk(p.slabs[k]))
    && (forall c: nat :: c < NUM_CACHES ==> Sorted(p.slabs, p.lists[c], c))
  }

  function Address(k: nat, cls: nat, slot: nat): nat
    requires cls < NUM_CACHES
  {
    k * SLAB_SIZE + slot * CACHE_SIZES[cls]
  }

  /** A slot is set in a listed slab. */
  predicate BitSet(p: Pool, k: nat, j: nat) {
    k in p.slabs && j < |p.slabs[k].bitmap| && p.slabs[k].bitmap[j]
  }

  /** Space for another slab is left. */
  predicate CanCreate(p: Pool) {
    p.created * SLAB_SIZE + SLAB_SIZE <= p.total
  }

  /** Class c has a listed slab with a free slot. */
  predicate HasRoom(p: Pool, c: nat)
    requires c < |p.lists|
  {
    p.lists[c].partial != [] || p.lists[c].empty != []
  }

  /** Space for a slab is left unless as many were carved out as fit. */
  lemma SpaceLeft(p: Pool)
    requires PoolOk(p)
    ensures CanCreate(p) <==> p.created != p.total / 1024
  {
    hide Sorted, SlabOk;
  }

  /** Some slot of the class's slabs is free. */
  ghost predicate SlotFree(p: Pool, c: nat) {
    exists k, j: nat :: k in p.slabs && p.slabs[k].cls == c && j < |p.slabs[k].bitmap| && !BitSet(p, k, j)
  }

  /** The lists tell: a slab that is listed as partial or empty has a free slot, and no other has. */
  lemma RoomIsFreeSlot(p: Pool, c: nat)
    requires PoolOk(p) && c < NUM_CACHES
    ensures HasRoom(p, c) <==> SlotFree(p, c)
  {
    var l := p.lists[c];
    assert Sorted(p.slabs, l, c);
    if HasRoom(p, c) {
      var k := if l.partial != [] then l.partial[0] else l.empty[0];
      assert k in ListOf(l, if l.partial != [] then Partial else Empty);
      assert SlabOk(p.slabs[k]);
      AllocSlotCorrect(p.slabs[k]);
      assert !BitSet(p, k, FirstFree(p.slabs[k].bitmap));
    }
    if SlotFree(p, c) {
      var k, j: nat :| k in p.slabs && p.slabs[k].cls == c && j < |p.slabs[k].bitmap| && !BitSet(p, k, j);
      assert SlabOk(p.slabs[k]);
      CountAll(p.slabs[k].bitmap);
      assert Belongs(p.slabs, c, ShelfOf(p.slabs[k]), k);
      assert k in ListOf(l, ShelfOf(p.slabs[k]));
    }
  }

  function Update(p: Pool, c: nat, l: Lists, k: nat, s: Slab): Pool
    requires c < |p.lists|
  {
    p.(slabs := p.slabs[k := s], lists := p.lists[c := l])
  }

  /** Takes a slot from the first partial slab, or else from the first empty one. */
  function TakeListed(p: Pool, c: nat): (Pool, nat, int)
    requires c < |p.lists| && HasRoom(p, c)
    requires forall k :: k in p.lists[c].partial + p.lists[c].empty ==> k in p.slabs
  {
    var l := p.lists[c];
    if l.partial != [] then
      var k := l.partial[0];
      var (s, j) := AllocSlot(p.slabs[k]);
      (Update(p, c, if IsFull(s) then Push(l.(partial := l.partial[1..]), Full, k) else l, k, s), k, j)
    else
      var k := l.empty[0];
      var (s, j) := AllocSlot(p.slabs[k]);
      (Update(p, c, Shelve(l.(empty := l.empty[1..]), k, s), k, s), k, j)
  }

  /** Takes a slot from a new slab and lists it. */
  function TakeNew(p: Pool, c: nat, k: nat): (Pool, int)
    requires c < |p.lists| && c < NUM_CACHES
  {
    var (s, j) := AllocSlot(NewSlab(c));
    (Update(p, c, Shelve(p.lists[c], k, s), k, s), j)
  }

  function Publish(p: Pool, rec: Record): Pool {
    p.(idMap := p.idMap[p.nextId := rec], nextId := p.nextId + 1)
  }

  function CountAllocation(p: Pool, c: nat): Pool
    requires c < |p.lists|
  {
    p.(lists := p.lists[c := p.lists[c].(allocations := p.lists[c].allocations + 1)])
  }

  function Erase(p: Pool, id: int): Pool {
    p.(idMap := p.idMap - {id})
  }

  /** Clears the slot of an erased record and moves its slab to the list it belongs in. */
  function Return(p: Pool, rec: Record): Pool
    requires rec.cls < |p.lists| && rec.slab in p.slabs
  {
    var was, s := p.slabs[rec.slab], FreeSlot(p.slabs[rec.slab], rec.slot);
    var l := p.lists[rec.cls].(frees := p.lists[rec.cls].frees + 1);
    var l' :=
      if IsFull(was) then Push(l.(full := Remove(l.full, rec.slab)), if IsEmpty(s) then Empty else Partial, rec.slab)
      else if IsEmpty(s) then Push(l.(partial := Remove(l.partial, rec.slab)), Empty, rec.slab)
      else l;
    Update(p, rec.cls, l', rec.slab, s)
  }

  // ---------- the critical sections keep the pool in order ----------

  /** The lists stay sorted when slab k changes and is moved to its new list. */
  lemma Resorted(slabs: map<nat, Slab>, l: Lists, l': Lists, c: nat, k: nat, s: Slab)
    requires Sorted(slabs, l, c) && s.cls == c && (k in slabs ==> slabs[k].cls == c)
    requires forall w :: Distinct(ListOf(l', w))
    requires forall w, x :: x in ListOf(l', w) <==> if x == k then w == ShelfOf(s) else x in ListOf(l, w)
    ensures Sorted(slabs[k := s], l', c)
  {
  }

  /** The other classes do not notice. */
  lemma OthersSorted(slabs: map<nat, Slab>, l: Lists, c: nat, k: nat, s: Slab)
    requires Sorted(slabs, l, c) && s.cls != c && (k in slabs ==> slabs[k].cls != c)
    ensures Sorted(slabs[k := s], l, c)
  {
  }

  lemma UpdateOk(p: Pool, c: nat, l: Lists, k: nat, s: Slab)
    requires PoolOk(p) && c < NUM_CACHES && SlabOk(s) && s.cls == c && k < p.created
    requires k in p.slabs ==> p.slabs[k].cls == c
    requires Sorted(p.slabs[k := s], l, c)
    ensures PoolOk(Update(p, c, l, k, s))
  {
    var p' := Update(p, c, l, k, s);
    hide Sorted, SlabOk;
    forall d: nat | d < NUM_CACHES
      ensures Sorted(p'.slabs, p'.lists[d], d)
    {
      if d != c {
        OthersSorted(p.slabs, p.lists[d], d, k, s);
      }
    }
  }

  lemma TakePartialSorted(slabs: map<nat, Slab>, l: Lists, c: nat)
    requires Sorted(slabs, l, c) && l.partial != []
    ensures var k := l.partial[0];
      && k in slabs && slabs[k].cls == c && !IsFull(slabs[k])
      && (SlabOk(slabs[k]) ==>
            var s := AllocSlot(slabs[k]).0;
            Sorted(slabs[k := s], if IsFull(s) then Push(l.(partial := l.partial[1..]), Full, k) else l, c))
  {
    var k := l.partial[0];
    assert k in ListOf(l, Partial);
    if SlabOk(slabs[k]) {
      AllocSlotCorrect(slabs[k]);
      var s := AllocSlot(slabs[k]).0;
      assert Distinct(ListOf(l, Partial)) && Distinct(ListOf(l, Full));
      assert k !in ListOf(l, Full) && k !in ListOf(l, Empty);
      PopElements(l.partial);
      PushElements(l.full, k);
      var l' := if IsFull(s) then Push(l.(partial := l.partial[1..]), Full, k) else l;
      assert forall w, x :: x in ListOf(l, w) <==> Belongs(slabs, c, w, x);
      Resorted(slabs, l, l', c, k, s);
    }
  }

  lemma TakeEmptySorted(slabs: map<nat, Slab>, l: Lists, c: nat)
    requires Sorted(slabs, l, c) && l.empty != []
    ensures var k := l.empty[0];
      && k in slabs && slabs[k].cls == c
      && (SlabOk(slabs[k]) ==>
            var s := AllocSlot(slabs[k]).0;
            !IsFull(slabs[k]) && Sorted(slabs[k := s], Shelve(l.(empty := l.empty[1..]), k, s), c))
  {
    var k := l.empty[0];
    assert k in ListOf(l, Empty);
    if SlabOk(slabs[k]) {
      AllocSlotCorrect(slabs[k]);
      var s := AllocSlot(slabs[k]).0;
      assert Distinct(ListOf(l, Partial)) && Distinct(ListOf(l, Full)) && Distinct(ListOf(l, Empty));
      assert k !in ListOf(l, Full) && k !in ListOf(l, Partial);
      PopElements(l.empty);
      PushElements(l.full, k);
      PushElements(l.partial, k);
      Resorted(slabs, l, Shelve(l.(empty := l.empty[1..]), k, s), c, k, s);
    }
  }

  lemma TakeNewSorted(slabs: map<nat, Slab>, l: Lists, c: nat, k: nat)
    requires Sorted(slabs, l, c) && c < NUM_CACHES && k !in slabs
    ensures var s := AllocSlot(NewSlab(c)).0; Sorted(slabs[k := s], Shelve(l, k, s), c)
  {
    NewSlabOk(c);
    AllocSlotCorrect(NewSlab(c));
    var s := AllocSlot(NewSlab(c)).0;
    assert Distinct(ListOf(l, Partial)) && Distinct(ListOf(l, Full));
    assert k !in ListOf(l, Full) && k !in ListOf(l, Partial) && k !in ListOf(l, Empty);
    PushElements(l.full, k);
    PushElements(l.partial, k);
    Resorted(slabs, l, Shelve(l, k, s), c, k, s);
  }

  lemma ReturnSorted(p: Pool, rec: Record)
    requires PoolOk(p) && rec.cls < NUM_CACHES && rec.slab in p.slabs && p.slabs[rec.slab].cls == rec.cls
    requires BitSet(p, rec.slab, rec.slot)
    ensures PoolOk(Return(p, rec))
  {
    var k, c, l := rec.slab, rec.cls, p.lists[rec.cls];
    var was, s := p.slabs[k], FreeSlot(p.slabs[k], rec.slot);
    FreeSlotCorrect(was, rec.slot);
    assert Sorted(p.slabs, l, c);
    ReturnLists(p.slabs, l.(frees := l.frees + 1), c, k, s);
    UpdateOk(p, c, Return(p, rec).lists[c], k, s);
  }

  lemma ReturnLists(slabs: map<nat, Slab>, l: Lists, c: nat, k: nat, s: Slab)
    requires k in slabs && slabs[k].cls == c == s.cls && |s.bitmap| == |slabs[k].bitmap| >= 2
    requires s.used == slabs[k].used - 1 >= 0 && slabs[k].used <= |s.bitmap|
    requires l.frees > 0 && Sorted(slabs, l.(frees := l.frees - 1), c)
    ensures Sorted(slabs[k := s],
      if IsFull(slabs[k]) then Push(l.(full := Remove(l.full, k)), if IsEmpty(s) then Empty else Partial, k)
      else if IsEmpty(s) then Push(l.(partial := Remove(l.partial, k)), Empty, k) else l, c)
  {
    var o := l.(frees := l.frees - 1);
    assert Distinct(ListOf(o, Partial)) && Distinct(ListOf(o, Full)) && Distinct(ListOf(o, Empty));
    assert forall w :: k in ListOf(o, w) <==> w == ShelfOf(slabs[k]);
    assert k in ListOf(o, ShelfOf(slabs[k])) && k !in ListOf(o, Empty);
    RemoveElements(l.full, k);
    RemoveElements(l.partial, k);
    PushElements(l.empty, k);
    if IsFull(slabs[k]) {
      PushElements(l.partial, k);
      PushElements(l.empty, k);
    }
    var l' := if IsFull(slabs[k]) then Push(l.(full := Remove(l.full, k)), if IsEmpty(s) then Empty else Partial, k)
      else if IsEmpty(s) then Push(l.(partial := Remove(l.partial, k)), Empty, k) else l;
    Resorted(slabs, o, l', c, k, s);
  }

  // ---------- what the critical sections do to the bits ----------

  /** All but the slabs and lists of class c stays, and no slab goes or changes its class. */
  ghost predicate Touches(p: Pool, p': Pool, c: nat) {
    && p'.total == p.total && p'.created == p.created && p'.idMap == p.idMap && p'.nextId == p.nextId
    && |p'.lists| == |p.lists| && (forall d :: 0 <= d < |p.lists| && d != c ==> p'.lists[d] == p.lists[d])
    && (forall k :: k in p.slabs ==> k in p'.slabs && p'.slabs[k].cls == p.slabs[k].cls)
  }

  /** Slot j of slab k of class c was clear and is now the only bit that changed. */
  ghost predicate Took(p: Pool, p': Pool, c: nat, k: nat, j: int) {
    && c < NUM_CACHES && k in p'.slabs && p'.slabs[k].cls == c && 0 <= j < SlotsOf(c)
    && !BitSet(p, k, j)
    && forall x: nat, y: nat :: BitSet(p', x, y) <==> BitSet(p, x, y) || (x == k && y == j)
  }

  lemma BitTaken(p: Pool, c: nat, l: Lists, k: nat, s: Slab, j: nat)
    requires c < |p.lists| && c < NUM_CACHES && k in p.slabs && SlabOk(p.slabs[k]) && p.slabs[k].cls == c == s.cls
    requires j < |p.slabs[k].bitmap| && !p.slabs[k].bitmap[j] && s.bitmap == p.slabs[k].bitmap[j := true]
    ensures Touches(p, Update(p, c, l, k, s), c) && Took(p, Update(p, c, l, k, s), c, k, j)
    ensures Update(p, c, l, k, s).slabs.Keys == p.slabs.Keys
  {
  }

  lemma TakePartialCorrect(p: Pool, c: nat)
    requires PoolOk(p) && c < NUM_CACHES && p.lists[c].partial != []
    ensures var k := p.lists[c].partial[0];
      && k in p.slabs && var (s, j) := AllocSlot(p.slabs[k]);
      var l := if IsFull(s) then Push(p.lists[c].(partial := p.lists[c].partial[1..]), Full, k) else p.lists[c];
      var p' := Update(p, c, l, k, s);
      PoolOk(p') && Touches(p, p', c) && Took(p, p', c, k, j) && p'.slabs.Keys == p.slabs.Keys
  {
    var l := p.lists[c];
    var k := l.partial[0];
    TakePartialSorted(p.slabs, l, c);
    assert SlabOk(p.slabs[k]) && k < p.created;
    AllocSlotCorrect(p.slabs[k]);
    var (s, j) := AllocSlot(p.slabs[k]);
    hide Sorted, SlabOk, AllocSlot, IsFull, Touches, Took, PoolOk;
    var l' := if IsFull(s) then Push(l.(partial := l.partial[1..]), Full, k) else l;
    UpdateOk(p, c, l', k, s);
    BitTaken(p, c, l', k, s, j);
  }

  lemma TakeEmptyCorrect(p: Pool, c: nat)
    requires PoolOk(p) && c < NUM_CACHES && p.lists[c].empty != []
    ensures var k := p.lists[c].empty[0];
      && k in p.slabs && var (s, j) := AllocSlot(p.slabs[k]);
      var p' := Update(p, c, Shelve(p.lists[c].(empty := p.lists[c].empty[1..]), k, s), k, s);
      PoolOk(p') && Touches(p, p', c) && Took(p, p', c, k, j) && p'.slabs.Keys == p.slabs.Keys
  {
    var l := p.lists[c];
    var k := l.empty[0];
    TakeEmptySorted(p.slabs, l, c);
    assert SlabOk(p.slabs[k]) && k < p.created;
    AllocSlotCorrect(p.slabs[k]);
    var (s, j) := AllocSlot(p.slabs[k]);
    hide Sorted, SlabOk, AllocSlot, Shelve, Touches, Took, PoolOk;
    var l' := Shelve(l.(empty := l.empty[1..]), k, s);
    UpdateOk(p, c, l', k, s);
    BitTaken(p, c, l', k, s, j);
  }

  lemma ListedSlabs(p: Pool, c: nat)
    requires PoolOk(p) && c < NUM_CACHES
    ensures forall k :: k in p.lists[c].partial + p.lists[c].empty ==> k in p.slabs
  {
    assert Sorted(p.slabs, p.lists[c], c);
    assert p.lists[c].partial == ListOf(p.lists[c], Partial) && p.lists[c].empty == ListOf(p.lists[c], Empty);
  }

  /** An allocation from a listed slab always finds a slot, sets that bit and keeps the pool in order. */
  lemma TakeListedCorrect(p: Pool, c: nat)
    requires PoolOk(p) && c < NUM_CACHES && HasRoom(p, c)
    ensures forall k :: k in p.lists[c].partial + p.lists[c].empty ==> k in p.slabs
    ensures var (p', k, j) := TakeListed(p, c);
      PoolOk(p') && Touches(p, p', c) && Took(p, p', c, k, j) && k in p.slabs && p'.slabs.Keys == p.slabs.Keys
  {
    ListedSlabs(p, c);
    if p.lists[c].partial != [] {
      TakePartialCorrect(p, c);
    } else {
      TakeEmptyCorrect(p, c);
    }
    hide PoolOk, AllocSlot, Shelve, Push, Touches, Took, Update;
  }

  lemma FirstBitTaken(p: Pool, c: nat, l: Lists, k: nat, s: Slab, j: nat)
    requires c < |p.lists| && c < NUM_CACHES && k !in p.slabs && s.cls == c
    requires j < SlotsOf(c) && s.bitmap == NewSlab(c).bitmap[j := true]
    ensures Touches(p, Update(p, c, l, k, s), c) && Took(p, Update(p, c, l, k, s), c, k, j)
    ensures Update(p, c, l, k, s).slabs.Keys == p.slabs.Keys + {k}
  {
  }

  lemma TakeNewCorrect(p: Pool, c: nat, k: nat)
    requires PoolOk(p) && c < NUM_CACHES && k < p.created && k !in p.slabs
    ensures var (p', j) := TakeNew(p, c, k);
      PoolOk(p') && Touches(p, p', c) && Took(p, p', c, k, j) && p'.slabs.Keys == p.slabs.Keys + {k}
  {
    var l := p.lists[c];
    assert Sorted(p.slabs, l, c) && |NewSlab(c).bitmap| == SlotsOf(c) && NewSlab(c).cls == c;
    NewSlabOk(c);
    AllocSlotCorrect(NewSlab(c));
    TakeNewSorted(p.slabs, l, c, k);
    hide PoolOk, Sorted, SlabOk, Shelve, AllocSlot, NewSlab, Touches, Took, Update, SlotsOf;
    var (s, j) := AllocSlot(NewSlab(c));
    UpdateOk(p, c, Shelve(l, k, s), k, s);
    FirstBitTaken(p, c, Shelve(l, k, s), k, s, j);
  }

  lemma ReturnCorrect(p: Pool, rec: Record)
    requires PoolOk(p) && rec.cls < NUM_CACHES && rec.slab in p.slabs && p.slabs[rec.slab].cls == rec.cls
    requires BitSet(p, rec.slab, rec.slot)
    ensures var p' := Return(p, rec);
      && PoolOk(p') && Touches(p, p', rec.cls) && p'.slabs.Keys == p.slabs.Keys
      && forall x: nat, y: nat :: BitSet(p', x, y) <==> BitSet(p, x, y) && !(x == rec.slab && y == rec.slot)
  {
    FreeSlotCorrect(p.slabs[rec.slab], rec.slot);
    ReturnSorted(p, rec);
    hide PoolOk, SlabOk;
  }

  lemma CountAllocationOk(p: Pool, c: nat)
    requires PoolOk(p) && c < NUM_CACHES
    ensures PoolOk(CountAllocation(p, c))
  {
    var p' := CountAllocation(p, c);
    forall d: nat | d < NUM_CACHES
      ensures Sorted(p'.slabs, p'.lists[d], d)
    {
      assert Sorted(p.slabs, p.lists[d], d);
      assert forall w :: ListOf(p'.lists[d], w) == ListOf(p.lists[d], w);
    }
  }
}
