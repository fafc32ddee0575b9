/**
 The memory-management unit as an object: TLB, flat or four-level page table, frame table, free-frame list and
 clock hand. Every translation is proved to be one step of the reference unit in module Mmu.
 */
module VirtualMemoryUnit {
  import opened Common
  import opened PageTable
  import opened Cache
  import opened TlbUnit
  import CacheModel
  import MemorySystem
  import Mmu
  import MmuClock
  import TlbLru
  import TlbTrace
  import Ways

  /** Bytes of virtual memory with the four-level table: 2^48. */
  const ML_VIRTUAL_MEM_SIZE := 0x1_0000_0000_0000
  const INT_LIMIT := 0x8000_0000
  const WORD32 := 0x1_0000_0000

  /** `static_cast<int>` of a page number: the low 32 bits, read as a signed number. */
  function ToInt(vpn: nat): int {
    var low := vpn % WORD32;
    if low < INT_LIMIT then low else low - WORD32
  }

  /** The frame table can hold a page number just when that is below 2^31. */
  lemma ToIntExact(vpn: nat)
    ensures ToInt(vpn) == vpn <==> vpn < INT_LIMIT
  {
  }

  class FreeFrameNode {
    const frameNumber: nat
    const next: FreeFrameNode?

    constructor (frame: nat, tail: FreeFrameNode?)
      ensures frameNumber == frame && next == tail
    {
      frameNumber, next := frame, tail;
    }
  }

  /** The nodes reached from the head, in order. */
  ghost predicate IsChain(head: FreeFrameNode?, nodes: seq<FreeFrameNode>) {
    if nodes == [] then head == null else head == nodes[0] && IsChain(nodes[0].next, nodes[1..])
  }

  ghost function FramesOf(nodes: seq<FreeFrameNode>): seq<nat> {
    seq(|nodes|, i requires 0 <= i < |nodes| => nodes[i].frameNumber)
  }

  datatype Report = TlbHit | PageTableHit | PageFault | NoFrames | ProtectionFault | SegmentationFault

  ghost function MappingOf(e: Leaf): Mmu.Mapping
    requires e.frame >= 0
  {
    Mmu.Mapping(e.frame, e.dirty, e.referenced, e.lastAccess, e.loadTime)
  }

  /** A valid entry is a resident page, with the same data. */
  ghost predicate Represents(e: Leaf, pages: map<int, Mmu.Mapping>, v: nat) {
    && (e.valid <==> v in pages)
    && (e.valid ==> e.frame >= 0 && pages[v] == MappingOf(e))
  }

  ghost predicate FlatHolds(table: seq<Leaf>, pages: map<int, Mmu.Mapping>) {
    forall v: nat :: v < |table| ==> Represents(table[v], pages, v)
  }

  ghost predicate TreeHolds(content: map<nat, Leaf>, pages: map<int, Mmu.Mapping>) {
    forall v: nat :: Represents(EntryIn(content, v), pages, v)
  }

  lemma FlatSet(table: seq<Leaf>, pages: map<int, Mmu.Mapping>, p: nat, e: Leaf)
    requires FlatHolds(table, pages) && p < |table| && e.valid && e.frame >= 0
    ensures FlatHolds(table[p := e], pages[p := MappingOf(e)])
  {
  }

  lemma FlatClear(table: seq<Leaf>, pages: map<int, Mmu.Mapping>, p: nat, e: Leaf)
    requires FlatHolds(table, pages) && p < |table| && !e.valid
    ensures FlatHolds(table[p := e], pages - {p})
  {
  }

  lemma TreeSet(content: map<nat, Leaf>, pages: map<int, Mmu.Mapping>, p: nat, e: Leaf)
    requires TreeHolds(content, pages) && e.valid && e.frame >= 0
    ensures TreeHolds(content[p := e], pages[p := MappingOf(e)])
  {
    var content', pages' := content[p := e], pages[p := MappingOf(e)];
    forall v: nat
      ensures Represents(EntryIn(content', v), pages', v)
    {
      assert Represents(EntryIn(content, v), pages, v);
    }
  }

  lemma TreeClear(content: map<nat, Leaf>, pages: map<int, Mmu.Mapping>, p: nat, e: Leaf)
    requires TreeHolds(content, pages) && !e.valid
    ensures TreeHolds(content[p := e], pages - {p})
  {
    var content', pages' := content[p := e], pages - {p};
    forall v: nat
      ensures Represents(EntryIn(content', v), pages', v)
    {
      assert Represents(EntryIn(content, v), pages, v);
    }
  }

  function Raw(r: Option<nat>): int {
    if r.Some? then r.value else -1
  }

  lemma AfterIsSuccessor(f: nat, n: nat)
    requires f < n
    ensures (f + 1) % n == Mmu.After(f, n)
  {
    if f + 1 < n {
      Bits.QuotientUnique(f + 1, n, 0, f + 1);
    } else {
      Bits.QuotientUnique(f + 1, n, 1, 0);
    }
  }

  class VirtualMemory {
    var pageTable: seq<Leaf>
    var frameTable: seq<int>
    var freeHead: FreeFrameNode?
    var accessCounter: nat
    var pageFaults: nat
    var pageHits: nat
    var diskAccesses: nat
    var policy: Mmu.Policy
    var clockHand: nat
    const cache: MemoryHierarchy?
    var useMultiLevel: bool
    const multi: MultiLevelPageTable
    ghost var freeNodes: seq<FreeFrameNode>
    ghost var pages: map<int, Mmu.Mapping>   // what the table in use says of the resident pages

    // ---------- the page table in use ----------

    /** The page numbers that the tables can hold. */
    predicate InReach(p: int)
      reads `useMultiLevel, `pageTable
    {
      0 <= p < INT_LIMIT && (!useMultiLevel ==> p < |pageTable|)
    }

    /** The table in use holds exactly the resident pages, the other one nothing. */
    ghost predicate TableOk()
      reads `pageTable, `useMultiLevel, `pages, multi, multi.repr
    {
      && multi.Valid() && |pageTable| <= INT_LIMIT
      && FlatHolds(pageTable, if useMultiLevel then map[] else pages)
      && TreeHolds(multi.content, if useMultiLevel then pages else map[])
      && forall p :: p in pages ==> InReach(p)
    }

    /** The entry of a resident page says what the page's mapping is. */
    lemma ResidentEntry(p: nat)
      requires TableOk() && p in pages
      ensures InReach(p)
      ensures var e := if useMultiLevel then multi.Stored(p) else pageTable[p];
        e.valid && e.frame >= 0 && pages[p] == MappingOf(e)
    {
      assert useMultiLevel ==> Represents(EntryIn(multi.content, p), pages, p);
      assert !useMultiLevel ==> Represents(pageTable[p], pages, p);
    }

    /** The time that LRU or FIFO compares. */
    method Timestamp(p: nat) returns (t: nat)
      requires TableOk() && p in pages
      modifies multi, set n: PTNode | multi.Owns(n)
      ensures TableOk()
      ensures t == Mmu.Stamp(policy, pages[p])
    {
      ResidentEntry(p);
      hide MultiLevelPageTable.Tree, MultiLevelPageTable.Counted, FlatHolds, TreeHolds;
      t := 0;
      if useMultiLevel {
        var table, idx, cost := multi.Walk(p);
        multi.SlotInRepr(p, table, idx);
        if table != null && table.entries[idx].valid {
          t := if policy == Mmu.Lru then table.entries[idx].lastAccess else table.entries[idx].loadTime;
        }
      } else {
        t := if policy == Mmu.Lru then pageTable[p].lastAccess else pageTable[p].loadTime;
      }
    }

    method IsReferenced(p: nat) returns (ref: bool)
      requires TableOk() && p in pages
      modifies multi, set n: PTNode | multi.Owns(n)
      ensures TableOk()
      ensures ref == pages[p].referenced
    {
      ResidentEntry(p);
      hide MultiLevelPageTable.Tree, MultiLevelPageTable.Counted, FlatHolds, TreeHolds;
      ref := false;
      if useMultiLevel {
        var table, idx, cost := multi.Walk(p);
        multi.SlotInRepr(p, table, idx);
        if table != null {
          ref := table.entries[idx].referenced;
        }
      } else {
        ref := pageTable[p].referenced;
      }
    }

    /** Stores the entry of a page through the slot of a walk. */
    method PutSlot(p: nat, table: PTNode, idx: nat, e: Leaf)
      requires TableOk() && useMultiLevel && InReach(p) && multi.LeafSlot(p, table, idx) && e.valid && e.frame >= 0
      modifies `pages, multi`content, table
      ensures TableOk() && pages == old(pages)[p := MappingOf(e)]
    {
      hide MultiLevelPageTable.Tree, MultiLevelPageTable.Counted, FlatHolds, TreeHolds;
      TreeSet(multi.content, pages, p, e);
      multi.SetLeaf(table, idx, e, p);
      pages := pages[p := MappingOf(e)];
    }

    /** Stores the entry of a page in the flat table. */
    method PutFlat(p: nat, e: Leaf)
      requires TableOk() && !useMultiLevel && InReach(p) && e.valid && e.frame >= 0
      modifies `pageTable, `pages
      ensures TableOk() && |pageTable| == old(|pageTable|) && pages == old(pages)[p := MappingOf(e)]
    {
      hide MultiLevelPageTable.Valid, FlatHolds, TreeHolds;
      FlatSet(pageTable, pages, p, e);
      pageTable := pageTable[p := e];
      pages := pages[p := MappingOf(e)];
    }

    /** Access metadata of a resident page. */
    method Stamp(p: nat, isWrite: bool)
      requires TableOk() && p in pages
      modifies `pageTable, `pages, multi, set n: PTNode | multi.Owns(n)
      ensures TableOk() && |pageTable| == old(|pageTable|)
      ensures var m := old(pages[p]);
        pages == old(pages)[p := m.(lastAccess := accessCounter, referenced := true, dirty := m.dirty || isWrite)]
    {
      ResidentEntry(p);
      hide MultiLevelPageTable.Tree, MultiLevelPageTable.Counted, MultiLevelPageTable.LeafSlot, FlatHolds, TreeHolds;
      if useMultiLevel {
        var table, idx, cost := multi.Walk(p);
        multi.SlotInRepr(p, table, idx);
        if table != null {
          var e := LeafOf(table.entries[idx]);
          PutSlot(p, table, idx, e.(lastAccess := accessCounter, referenced := true, dirty := e.dirty || isWrite));
        }
      } else {
        var e := pageTable[p];
        PutFlat(p, e.(lastAccess := accessCounter, referenced := true, dirty := e.dirty || isWrite));
      }
    }

    method ClearReferenced(p: nat)
      requires TableOk() && p in pages
      modifies `pageTable, `pages, multi, set n: PTNode | multi.Owns(n)
      ensures TableOk() && |pageTable| == old(|pageTable|)
      ensures pages == old(pages)[p := old(pages)[p].(referenced := false)]
    {
      ResidentEntry(p);
      hide MultiLevelPageTable.Tree, MultiLevelPageTable.Counted, MultiLevelPageTable.LeafSlot, FlatHolds, TreeHolds;
      if useMultiLevel {
        var table, idx, cost := multi.Walk(p);
        multi.SlotInRepr(p, table, idx);
        if table != null {
          PutSlot(p, table, idx, LeafOf(table.entries[idx]).(referenced := false));
        }
      } else {
        PutFlat(p, pageTable[p].(referenced := false));
      }
    }

    method UnmapTree(p: nat)
      requires TableOk() && useMultiLevel && InReach(p)
      modifies `pages, multi, set n: PTNode | multi.Owns(n)
      ensures TableOk() && pages == old(pages) - {p}
    {
      hide MultiLevelPageTable.Tree, MultiLevelPageTable.Counted, FlatHolds, TreeHolds;
      TreeClear(multi.content, pages, p,
        multi.Stored(p).(valid := false, frame := -1, dirty := false, referenced := false));
      multi.Unmap(p);
      pages := pages - {p};
    }

    method UnmapFlat(p: nat)
      requires TableOk() && !useMultiLevel && InReach(p)
      modifies `pageTable, `pages
      ensures TableOk() && |pageTable| == old(|pageTable|) && pages == old(pages) - {p}
    {
      hide MultiLevelPageTable.Valid, FlatHolds, TreeHolds;
      FlatClear(pageTable, pages, p, pageTable[p].(valid := false));
      pageTable := pageTable[p := pageTable[p].(valid := false)];
      pages := pages - {p};
    }

    /** Takes a page out of the table; tells whether it must be written back. */
    method Drop(p: nat) returns (dirty: bool)
      requires TableOk() && p in pages
      modifies `pageTable, `pages, multi, set n: PTNode | multi.Owns(n)
      ensures TableOk() && |pageTable| == old(|pageTable|)
      ensures pages == old(pages) - {p} && dirty == old(pages[p].dirty)
    {
      ResidentEntry(p);
      hide MultiLevelPageTable.Tree, MultiLevelPageTable.Counted, FlatHolds, TreeHolds;
      dirty := false;
      if useMultiLevel {
        var table, idx, cost := multi.Walk(p);
        multi.SlotInRepr(p, table, idx);
        if table != null {
          dirty := table.entries[idx].dirty;
        }
        UnmapTree(p);
      } else {
        dirty := pageTable[p].dirty;
        UnmapFlat(p);
      }
    }

    /** Enters the new mapping of a page. */
    method Install(p: nat, frame: nat, isWrite: bool)
      requires TableOk() && InReach(p)
      modifies `pageTable, `pages, multi, set n: PTNode | multi.Owns(n)
      ensures TableOk() && |pageTable| == old(|pageTable|)
      ensures pages == old(pages)[p := Mmu.Mapping(frame, isWrite, true, accessCounter, accessCounter)]
    {
      hide MultiLevelPageTable.Tree, MultiLevelPageTable.Counted, FlatHolds, TreeHolds;
      var e := Leaf(true, isWrite, true, frame, accessCounter, accessCounter);
      if useMultiLevel {
        TreeSet(multi.content, pages, p, e);
        multi.Map(p, frame, accessCounter, isWrite);
      } else {
        FlatSet(pageTable, pages, p, e);
        pageTable := pageTable[p := e];
      }
      pages := pages[p := MappingOf(e)];
    }

    // ---------- the whole unit ----------

    ghost predicate FreeList()
      reads `freeHead, `freeNodes
    {
      IsChain(freeHead, freeNodes)
    }

    ghost function FreeFrames(): seq<nat>
      reads `freeNodes
    {
      FramesOf(freeNodes)
    }

    /** The unit as a state of the reference unit. */
    ghost function View(): Mmu.State
      reads `pages, `frameTable, `freeNodes, `clockHand, `accessCounter, `pageHits, `pageFaults, `diskAccesses
    {
      Mmu.State(pages, frameTable, FreeFrames(), clockHand, accessCounter, pageHits, pageFaults, diskAccesses)
    }

    function Config(): Mmu.Config
      reads `policy, `useMultiLevel, `pageTable
    {
      Mmu.Config(policy, if useMultiLevel then ML_VIRTUAL_MEM_SIZE else |pageTable| * PAGE_SIZE, useMultiLevel)
    }

    ghost predicate Valid()
      reads this, multi, multi.repr
    {
      FreeList() && TableOk() && Mmu.Inv(View())
    }

    /** The TLB holds no translation that the page table does not. */
    ghost predicate Coherent(tlb: Tlb)
      reads `pages, tlb
    {
      Agrees(tlb, pages)
    }

    static ghost predicate Agrees(tlb: Tlb, m: map<int, Mmu.Mapping>)
      reads tlb
    {
      tlb.Valid() && forall v, f :: tlb.Cached(v, f) ==> v in m && m[v].frame == f
    }

    constructor (hierarchy: MemoryHierarchy?, p: Mmu.Policy, frames: nat, virtualPages: nat)
      requires virtualPages <= INT_LIMIT
      ensures Valid() && View() == Mmu.Fresh(frames) && fresh(multi) && fresh(multi.pml4)
      ensures cache == hierarchy && Config() == Mmu.Config(p, virtualPages * PAGE_SIZE, false)
    {
      policy, cache, useMultiLevel, clockHand := p, hierarchy, false, 0;
      accessCounter, pageFaults, pageHits, diskAccesses := 0, 0, 0, 0;
      pageTable := seq(virtualPages, _ => DEFAULT);
      frameTable := seq(frames, _ => -1);
      multi := new MultiLevelPageTable();
      freeHead, freeNodes, pages := null, [], map[];
      new;
      BuildFreeList(frames);
      assert View() == Mmu.Fresh(frames);
      Mmu.FreshInv(frames);
    }

    /** Links the nodes of all frames in ascending order. */
    method BuildFreeList(frames: nat)
      requires freeHead == null && freeNodes == []
      modifies `freeHead, `freeNodes
      ensures FreeList() && FreeFrames() == seq(frames, i => i)
    {
      var i := frames;
      while i > 0
        invariant i <= frames && FreeList()
        invariant |freeNodes| == frames - i
        invariant forall j {:trigger freeNodes[j]} :: 0 <= j < frames - i ==> freeNodes[j].frameNumber == i + j
      {
        i := i - 1;
        ghost var tail := freeNodes;
        freeHead := new FreeFrameNode(i, freeHead);
        freeNodes := [freeHead] + tail;
        assert freeNodes[1..] == tail;
      }
    }

    method SetReplacementPolicy(p: Mmu.Policy)
      requires Valid()
      modifies `policy
      ensures Valid() && View() == old(View()) && policy == p
    {
      policy := p;
    }

    /** Chooses the paging mode, before any page is mapped. */
    method SetMultiLevelPaging(enable: bool)
      requires Valid() && pages == map[]
      modifies `useMultiLevel
      ensures Valid() && View() == old(View()) && useMultiLevel == enable
    {
      hide FlatHolds, TreeHolds;
      useMultiLevel := enable;
    }

    // ---------- eviction ----------

    /** The scan of LRU and FIFO. */
    method SelectOldest() returns (vf: int, vp: int)
      requires Valid() && freeNodes == [] && policy != Mmu.Clock
      modifies multi, set n: PTNode | multi.Owns(n)
      ensures TableOk()
      ensures |frameTable| == 0 ==> vf == -1
      ensures |frameTable| > 0 ==> Mmu.Full(View()) && vf == Mmu.Victim(policy, View()) && vp == frameTable[vf]
    {
      ghost var s := View();
      assert s.free == [] && |s.frames| == |frameTable|;
      hide TableOk, FreeList, FramesOf, Agrees, CachesValid, CacheLevels, SweptCaches, Mmu.Inv, Mmu.AllEarlier;
      vf, vp := -1, -1;
      var minT := 0;
      for i := 0 to |frameTable|
        invariant TableOk()
        invariant OldestSoFar(policy, s, i, vf, vp, minT)
      {
        var p := frameTable[i];
        OccupiedFrame(s, i);
        if p >= 0 {
          var t := Timestamp(p);
          ScanStep(policy, s, i, vf, vp, minT);
          if vf == -1 || t < minT {
            minT, vf, vp := t, i, p;
          }
        }
      }
    }

    /** One attempt of the sweep. */
    method TryFrame() returns (taken: bool)
      requires TableOk() && clockHand < |frameTable| && frameTable[clockHand] in pages
      modifies `clockHand, `pageTable, `pages, multi, set n: PTNode | multi.Owns(n)
      ensures TableOk() && |pageTable| == old(|pageTable|)
      ensures clockHand == Mmu.After(old(clockHand), |frameTable|)
      ensures var p := frameTable[old(clockHand)];
        && taken == !old(pages)[p].referenced
        && pages == if taken then old(pages) else old(pages)[p := old(pages)[p].(referenced := false)]
    {
      assert InReach(frameTable[clockHand]);
      hide TableOk;
      AfterIsSuccessor(clockHand, |frameTable|);
      var p := frameTable[clockHand];
      taken := false;
      if p >= 0 {
        var ref := IsReferenced(p);
        if ref {
          ClearReferenced(p);
        }
        taken := !ref;
      }
      clockHand := (clockHand + 1) % |frameTable|;
    }

    /** The sweep of CLOCK; it never needs more than one attempt per frame and one more. */
    method SweepClock() returns (vf: int, vp: int, tries: nat)
      requires Valid() && freeNodes == []
      modifies `clockHand, `pageTable, `pages, multi, set n: PTNode | multi.Owns(n)
      ensures TableOk() && |pageTable| == old(|pageTable|)
      ensures |frameTable| == 0 ==> vf == -1 && View() == old(View())
      ensures |frameTable| > 0 ==>
        var s := old(View());
        && Mmu.Full(s) && vf == Mmu.Victim(Mmu.Clock, s) && vp == frameTable[vf]
        && pages == Mmu.Unreference(s, Mmu.Skipped(s, 0)) && clockHand == Mmu.After(vf, |frameTable|)
        && tries <= |frameTable| + 1
    {
      hide TableOk, FreeList, Mmu.Inv, Mmu.Victim, Mmu.Unreference, Mmu.Skipped, MmuClock.Sweeping;
      ghost var s := View();
      assert s.free == [] && s.frames == frameTable;
      MmuClock.SweepStart(s);
      hide *;
      vf, vp, tries := -1, -1, 0;
      while tries < |frameTable| * 2
        invariant TableOk() && |pageTable| == old(|pageTable|)
        invariant vf == -1 && vp == -1 && (tries == 0 || tries <= |frameTable|)
        invariant MmuClock.Sweeping(s, pages, clockHand, tries)
        invariant tries == 0 ==> pages == s.pages && clockHand == s.hand
        decreases |frameTable| * 2 - tries
      {
        MmuClock.SweepStep(s, pages, clockHand, tries);
        var hand, p := clockHand, frameTable[clockHand];
        ghost var before := pages;
        var taken := TryFrame();
        assert taken == !before[p].referenced && clockHand == Mmu.After(hand, |s.frames|);
        assert pages == if taken then before else before[p := before[p].(referenced := false)];
        tries := tries + 1;
        if taken {
          vf, vp := hand, p;
          break;
        }
      }
    }

    // ---------- eviction and translation ----------

    ghost function CacheRepr(): set<CacheLevel> {
      if cache == null then {} else {cache.l1, cache.l2, cache.l3}
    }

    ghost predicate CachesValid()
      reads CacheRepr()
    {
      cache != null ==> cache.Valid()
    }

    /** What the attached caches hold; nothing if there are none. */
    ghost function CacheLevels(): (h: Option<CacheModel.Hierarchy>)
      requires CachesValid()
      reads CacheRepr()
      ensures h.Some? ==> CacheModel.AllShaped(h.value)
    {
      if cache == null then None else Some(cache.Levels())
    }

    /** Drops the lines of a frame from the caches. */
    method SweepCaches(vf: nat)
      requires CachesValid()
      modifies CacheRepr()
      ensures CachesValid() && CacheLevels() == SweptCaches(old(CacheLevels()), Some(vf))
    {
      if cache != null {
        var physicalAddr := vf * PAGE_SIZE;
        cache.InvalidatePhysicalRange(physicalAddr, PAGE_SIZE);
      }
    }

    /** Takes a page out of the table and writes it back if it is dirty. */
    method WriteBack(p: nat)
      requires TableOk() && p in pages
      modifies `pageTable, `pages, `diskAccesses, multi, set n: PTNode | multi.Owns(n)
      ensures TableOk() && |pageTable| == old(|pageTable|)
      ensures var c := old(View());
        View() == c.(pages := c.pages - {p}, disk := if c.pages[p].dirty then c.disk + 1 else c.disk)
    {
      hide TableOk;
      var dirty := Drop(p);
      if dirty {
        diskAccesses := diskAccesses + 1;
      }
    }

    /** The victim's page leaves the TLB and the caches. */
    method Shootdown(vf: nat, vp: nat, tlb: Tlb)
      requires Coherent(tlb) && CachesValid()
      modifies tlb, CacheRepr()
      ensures Agrees(tlb, pages - {vp})
      ensures tlb.table == ShotDown(old(tlb.table), vp) && tlb.timer == old(tlb.timer)
      ensures CachesValid() && CacheLevels() == SweptCaches(old(CacheLevels()), Some(vf))
    {
      hide CachesValid, CacheLevels, SweptCaches, Tlb.Valid, Tlb.Cached;
      tlb.Invalidate(vp);
      SweepCaches(vf);
    }

    /** The victim's page leaves the TLB, the caches and the table. */
    method Remove(vf: nat, vp: nat, tlb: Tlb)
      requires TableOk() && Coherent(tlb) && CachesValid() && vp in pages && vf < |frameTable|
      modifies `pageTable, `pages, `frameTable, `diskAccesses, multi, tlb, CacheRepr(), set n: PTNode | multi.Owns(n)
      ensures TableOk() && |pageTable| == old(|pageTable|)
      ensures Coherent(tlb) && CachesValid() && CacheLevels() == SweptCaches(old(CacheLevels()), Some(vf))
      ensures tlb.table == ShotDown(old(tlb.table), vp) && tlb.timer == old(tlb.timer)
      ensures var c := old(View());
        View() == c.(pages := c.pages - {vp}, frames := c.frames[vf := -1],
                     disk := if c.pages[vp].dirty then c.disk + 1 else c.disk)
    {
      hide TableOk, CachesValid, CacheLevels, SweptCaches, Agrees;
      Shootdown(vf, vp, tlb);
      WriteBack(vp);
      frameTable := frameTable[vf := -1];
    }

    /** The policy's choice: a frame and its page, -1 if there is no frame at all. */
    method SelectVictim() returns (vf: int, vp: int)
      requires Valid() && freeNodes == []
      modifies `clockHand, `pageTable, `pages, multi, set n: PTNode | multi.Owns(n)
      ensures TableOk() && |pageTable| == old(|pageTable|)
      ensures |frameTable| == 0 ==> vf == -1 && View() == old(View())
      ensures |frameTable| > 0 ==>
        var s := old(View());
        && Mmu.Full(s) && vf == Mmu.Victim(policy, s) && vp == frameTable[vf] && View() == Chosen(policy, s)
    {
      hide TableOk, Mmu.Inv, Mmu.Full, Mmu.Victim, Mmu.Unreference, Mmu.Skipped;
      vp := -1;
      if policy == Mmu.Lru || policy == Mmu.Fifo {
        vf, vp := SelectOldest();
      } else {
        var tries;
        vf, vp, tries := SweepClock();
      }
    }

    twostate lemma CoherentAlike(tlb: Tlb)
      requires old(Coherent(tlb)) && unchanged(tlb) && pages == old(pages)
      ensures Coherent(tlb) && forall v :: tlb.Knows(v) == old(tlb.Knows(v))
    {
    }

    twostate lemma StillCoherent(tlb: Tlb)
      requires old(Coherent(tlb)) && unchanged(tlb) && pages.Keys == old(pages.Keys)
      requires forall p :: p in pages ==> pages[p].frame == old(pages)[p].frame
      ensures Coherent(tlb)
    {
      forall v, f | tlb.Cached(v, f)
        ensures v in pages && pages[v].frame == f
      {
        assert old(tlb.Cached(v, f));
      }
    }

    /** The choice leaves the TLB and the caches as they are. */
    method ChooseVictim(ghost tlb: Tlb) returns (vf: int, vp: int)
      requires Valid() && freeNodes == [] && Coherent(tlb) && CachesValid()
      modifies `clockHand, `pageTable, `pages, multi, set n: PTNode | multi.Owns(n)
      ensures TableOk() && |pageTable| == old(|pageTable|)
      ensures Coherent(tlb) && CachesValid() && CacheLevels() == old(CacheLevels())
      ensures |frameTable| == 0 ==> vf == -1 && View() == old(View())
      ensures |frameTable| > 0 ==>
        var s := old(View());
        && Mmu.Full(s) && vf == Mmu.Victim(policy, s) && vp == frameTable[vf] && View() == Chosen(policy, s)
    {
      hide TableOk, FreeList, Mmu.Inv;
      ghost var s, levels := View(), CacheLevels();
      hide FramesOf, Agrees, CachesValid, CacheLevels, SweptCaches, Mmu.AllEarlier;
      vf, vp := SelectVictim();
      if |frameTable| > 0 {
        ChosenKeepsPages(policy, s);
      }
      StillCoherent(tlb);
    }

    /** Frees the frame that the policy chooses; -1 if there is no frame at all. */
    method EvictPage(tlb: Tlb) returns (vf: int)
      requires Valid() && freeNodes == [] && Coherent(tlb) && CachesValid()
      modifies `pageTable, `pages, `frameTable, `diskAccesses, `clockHand, multi, tlb, CacheRepr(),
        set n: PTNode | multi.Owns(n)
      ensures TableOk() && |pageTable| == old(|pageTable|)
      ensures Coherent(tlb) && CachesValid()
      ensures Evicted(old(policy), old(View()), vf, View())
      ensures tlb.table == Shot(old(tlb.table), PageOut(old(policy), old(View()))) && tlb.timer == old(tlb.timer)
      ensures CacheLevels() == SweptCaches(old(CacheLevels()), Taken(old(policy), old(View())))
    {
      ghost var s := View();
      assert |s.frames| == |frameTable| && TableOk() && s.free == [];
      hide PageOut, Taken, Mmu.Victim, Mmu.Full, ShotDown;
      hide TableOk, FreeList, FramesOf, Agrees, CachesValid, CacheLevels, SweptCaches, Mmu.Inv, Mmu.AllEarlier;
      var vp;
      vf, vp := ChooseVictim(tlb);
      ghost var c := View();
      VictimInRange(policy, s);
      NothingSwept(CacheLevels());
      if vf == -1 || vp == -1 {
        return -1;
      }
      ChosenKeepsPages(policy, s);
      Remove(vf, vp, tlb);
      EvictedTo(policy, s, c, vf, View());
    }

    /** Counts a page fault and the disk read that serves it. */
    method CountFault(ghost tlb: Tlb)
      requires Valid() && Coherent(tlb) && CachesValid()
      modifies `pageFaults, `diskAccesses
      ensures Valid() && Coherent(tlb) && CachesValid()
      ensures View() == Mmu.Charge(old(View())) && CacheLevels() == old(CacheLevels())
    {
      hide TableOk, FreeList, Mmu.Inv;
      Mmu.ChargeInv(View());
      pageFaults, diskAccesses := pageFaults + 1, diskAccesses + 1;
      CoherentAlike(tlb);
    }

    /** Takes the first free frame; -1 if there is none. */
    method FindFreeFrame(ghost tlb: Tlb) returns (frame: int)
      requires Valid() && Coherent(tlb) && CachesValid()
      modifies `freeHead, `freeNodes
      ensures TableOk() && FreeList() && Coherent(tlb) && CachesValid() && CacheLevels() == old(CacheLevels())
      ensures FoundFree(old(View()), frame, View()) && (frame == -1 ==> Valid() && freeNodes == [])
    {
      hide TableOk, Mmu.Inv, Coherent, CachesValid, CacheLevels;
      ghost var levels := CacheRepr();
      if freeHead == null {
        return -1;
      }
      frame := freeHead.frameNumber;
      freeHead := freeHead.next;
      freeNodes := freeNodes[1..];
      assert FramesOf(freeNodes) == FramesOf(old(freeNodes))[1..];
    }

    /** The frame for a page fault; -1 if there is no frame at all. */
    method TakeFrame(tlb: Tlb) returns (f: int)
      requires Valid() && Coherent(tlb) && CachesValid()
      modifies `pageTable, `pages, `frameTable, `diskAccesses, `clockHand, `freeHead, `freeNodes
      modifies multi, tlb, CacheRepr(), set n: PTNode | multi.Owns(n)
      ensures TableOk() && FreeList() && |pageTable| == old(|pageTable|)
      ensures Coherent(tlb) && CachesValid()
      ensures FrameTaken(old(policy), old(View()), f, View())
      ensures tlb.table == Shot(old(tlb.table), PageOut(old(policy), old(View()))) && tlb.timer == old(tlb.timer)
      ensures CacheLevels() == SweptCaches(old(CacheLevels()), Taken(old(policy), old(View())))
    {
      ghost var h, pol, c := CacheLevels(), policy, View();
      NothingSwept(h);
      hide TableOk, FreeList, FramesOf, Agrees, CachesValid, CacheLevels, SweptCaches, Mmu.Inv, Mmu.AllEarlier;
      f := FindFreeFrame(tlb);
      FreeOrNot(pol, c, f, View());
      if f == -1 {
        f := EvictPage(tlb);
        FromEviction(pol, c, f, View());
      }
    }

    /** Enters a page into its frame, in the table, the frame table and the TLB. */
    method Enter(vpn: nat, f: nat, isWrite: bool, tlb: Tlb)
      requires TableOk() && FreeList() && Coherent(tlb) && CachesValid() && InReach(vpn) && f < |frameTable|
      modifies `pageTable, `pages, `frameTable, multi, tlb, set n: PTNode | multi.Owns(n)
      ensures TableOk() && FreeList() && |pageTable| == old(|pageTable|)
      ensures Coherent(tlb) && View() == Entered(old(View()), vpn, f, isWrite) && tlb.Cached(vpn, f)
      ensures tlb.table == PutIn(old(tlb.table), vpn, f, tlb.timer) && tlb.timer == old(tlb.timer)
      ensures CachesValid() && CacheLevels() == old(CacheLevels())
    {
      hide TableOk, FreeList, CachesValid, CacheLevels, FramesOf, Tlb.Valid, Tlb.Cached;
      ToIntExact(vpn);
      ghost var levels := CacheRepr();
      Install(vpn, f, isWrite);
      frameTable := frameTable[f := ToInt(vpn)];
      tlb.Insert(vpn, f);
    }

    /** Serves a page fault. */
    method HandleFault(vpn: nat, isWrite: bool, tlb: Tlb) returns (f: int)
      requires Valid() && Coherent(tlb) && CachesValid() && vpn !in pages && InReach(vpn)
      requires accessCounter >= 1 && Mmu.AllEarlier(View())
      modifies `pageTable, `pages, `frameTable, `diskAccesses, `clockHand, `freeHead, `freeNodes, `pageFaults
      modifies multi, tlb, CacheRepr(), set n: PTNode | multi.Owns(n)
      ensures Valid() && |pageTable| == old(|pageTable|)
      ensures Coherent(tlb) && CachesValid()
      ensures FaultServed(old(policy), old(View()), vpn, isWrite, f, View())
      ensures tlb.timer == old(tlb.timer) && (f != -1 ==> f >= 0 && tlb.Cached(vpn, f))
      ensures tlb.table ==
        Learned(old(tlb.table), vpn, f, PageOut(old(policy), Mmu.Charge(old(View()))), tlb.timer)
      ensures CacheLevels() == SweptCaches(old(CacheLevels()), Taken(old(policy), Mmu.Charge(old(View()))))
    {
      hide TableOk, FreeList, Mmu.Inv;
      ghost var s := View();
      assert Mmu.Inv(s) && vpn !in s.pages && s.clock >= 1;
      ghost var pol := policy;
      hide FramesOf, Agrees, CachesValid, CacheLevels, SweptCaches, Mmu.AllEarlier;
      CountFault(tlb);
      f := TakeFrame(tlb);
      ServedFault(pol, s, vpn, isWrite, f, View());
      if f == -1 {
        ValidAgain();
        return;
      }
      Enter(vpn, f, isWrite, tlb);
      ValidAgain();
    }

    lemma ValidAgain()
      requires FreeList() && TableOk() && Mmu.Inv(View())
      ensures Valid()
    {
    }

    /** A TLB lookup answers only with what the page table says. */
    method ProbeTlb(vpn: nat, tlb: Tlb) returns (pfn: int)
      requires Coherent(tlb)
      modifies tlb
      ensures Coherent(tlb)
      ensures pfn == -1 || (vpn in pages && pfn == pages[vpn].frame)
      ensures pfn != -1 <==> old(tlb.Knows(vpn))
      ensures pfn != -1 ==> tlb.Cached(vpn, pfn)
      ensures tlb.timer == old(tlb.timer) + 1
      ensures tlb.table == if pfn != -1 then LookedUp(old(tlb.table), vpn, tlb.timer) else old(tlb.table)
    {
      hide Tlb.Valid, Tlb.Cached;
      pfn := tlb.Lookup(vpn);
    }

    /** A page's new metadata leaves the TLB and the caches as they are. */
    method Restamp(vpn: nat, isWrite: bool, ghost tlb: Tlb)
      requires TableOk() && FreeList() && Coherent(tlb) && CachesValid() && vpn in pages
      modifies `pageTable, `pages, multi, set n: PTNode | multi.Owns(n)
      ensures TableOk() && FreeList() && |pageTable| == old(|pageTable|)
      ensures Coherent(tlb) && CachesValid() && CacheLevels() == old(CacheLevels())
      ensures var s, m := old(View()), old(pages[vpn]);
        View() == s.(pages :=
          s.pages[vpn := m.(lastAccess := s.clock, referenced := true, dirty := m.dirty || isWrite)])
    {
      ghost var levels, list := CacheLevels(), FreeList();
      hide TableOk, FreeList, FramesOf, Agrees, CachesValid, CacheLevels, SweptCaches, Mmu.Inv, Mmu.AllEarlier;
      Stamp(vpn, isWrite);
      StillCoherent(tlb);
    }

    /** A TLB hit: only the page's access data changes. */
    method ServeTlbHit(vpn: nat, isWrite: bool, ghost tlb: Tlb)
      requires Valid() && Coherent(tlb) && CachesValid() && vpn in pages && Mmu.AllEarlier(View())
      modifies `pageTable, `pages, `pageHits, multi, set n: PTNode | multi.Owns(n)
      ensures Valid() && |pageTable| == old(|pageTable|)
      ensures Coherent(tlb) && CachesValid() && CacheLevels() == old(CacheLevels())
      ensures View() == Mmu.Touch(old(View()), vpn, isWrite)
    {
      hide TableOk, FreeList, Mmu.Inv;
      ghost var s, levels, list := View(), CacheLevels(), FreeList();
      hide FramesOf, Agrees, CachesValid, CacheLevels, SweptCaches, Mmu.AllEarlier;
      Restamp(vpn, isWrite, tlb);
      pageHits := pageHits + 1;
      TouchedView(s, vpn, isWrite, View());
      ValidAgain();
    }

    /** The page table lookup; marks a page it finds as used. */
    method LookupPage(vpn: nat, isWrite: bool) returns (found: bool, frame: int)
      requires TableOk() && InReach(vpn)
      modifies `pageTable, `pages, multi, set n: PTNode | multi.Owns(n)
      ensures TableOk() && |pageTable| == old(|pageTable|)
      ensures found == (vpn in old(pages))
      ensures !found ==> pages == old(pages)
      ensures found ==>
        var m := old(pages[vpn]);
        && frame == m.frame
        && pages == old(pages)[vpn := m.(lastAccess := accessCounter, referenced := true, dirty := m.dirty || isWrite)]
    {
      ReachableEntry(vpn);
      hide MultiLevelPageTable.Tree, MultiLevelPageTable.Counted, MultiLevelPageTable.LeafSlot, FlatHolds, TreeHolds;
      found, frame := false, -1;
      if useMultiLevel {
        var table, idx, cost := multi.Walk(vpn);
        multi.SlotInRepr(vpn, table, idx);
        if table != null && table.entries[idx].valid {
          var e := LeafOf(table.entries[idx]);
          found, frame := true, e.frame;
          PutSlot(vpn, table, idx, e.(lastAccess := accessCounter, referenced := true, dirty := e.dirty || isWrite));
        }
      } else if vpn < |pageTable| && pageTable[vpn].valid {
        var e := pageTable[vpn];
        found, frame := true, e.frame;
        PutFlat(vpn, e.(lastAccess := accessCounter, referenced := true, dirty := e.dirty || isWrite));
      }
    }

    lemma ReachableEntry(p: nat)
      requires TableOk() && InReach(p)
      ensures Represents(if useMultiLevel then multi.Stored(p) else pageTable[p], pages, p)
    {
      assert useMultiLevel ==> Represents(EntryIn(multi.content, p), pages, p);
    }

    /** Counts a page-table hit; the TLB learns the page's frame. */
    method Learn(vpn: nat, frame: nat, tlb: Tlb)
      requires TableOk() && FreeList() && CachesValid() && Coherent(tlb) && vpn in pages && pages[vpn].frame == frame
      modifies `pageHits, tlb
      ensures TableOk() && FreeList() && CachesValid() && Coherent(tlb) && CacheLevels() == old(CacheLevels())
      ensures tlb.table == PutIn(old(tlb.table), vpn, frame, tlb.timer) && tlb.timer == old(tlb.timer)
      ensures tlb.Cached(vpn, frame)
      ensures View() == old(View()).(hits := old(View()).hits + 1)
    {
      hide TableOk, FreeList, FramesOf, CachesValid, CacheLevels, Tlb.Valid, Tlb.Cached;
      ghost var levels := CacheRepr();
      pageHits := pageHits + 1;
      tlb.Insert(vpn, frame);
    }

    /** The table's answer leaves the TLB and the caches as they are. */
    method AskTable(vpn: nat, isWrite: bool, ghost tlb: Tlb) returns (found: bool, frame: int)
      requires TableOk() && FreeList() && Coherent(tlb) && CachesValid() && InReach(vpn)
      modifies `pageTable, `pages, multi, set n: PTNode | multi.Owns(n)
      ensures TableOk() && FreeList() && |pageTable| == old(|pageTable|)
      ensures Coherent(tlb) && CachesValid() && CacheLevels() == old(CacheLevels())
      ensures found == (vpn in old(pages)) && (!found ==> View() == old(View()))
      ensures found ==>
        var s, m := old(View()), old(pages[vpn]);
        && frame == m.frame
        && View() == s.(pages :=
          s.pages[vpn := m.(lastAccess := s.clock, referenced := true, dirty := m.dirty || isWrite)])
    {
      ghost var levels, list := CacheLevels(), FreeList();
      hide TableOk, FreeList, FramesOf, Agrees, CachesValid, CacheLevels, SweptCaches, Mmu.Inv, Mmu.AllEarlier;
      found, frame := LookupPage(vpn, isWrite);
      StillCoherent(tlb);
    }

    /** The TLB missed: the page table answers, and the TLB learns what it says. */
    method ServeTableHit(vpn: nat, isWrite: bool, tlb: Tlb) returns (found: bool, frame: int)
      requires Valid() && Coherent(tlb) && CachesValid() && InReach(vpn) && Mmu.AllEarlier(View())
      modifies `pageTable, `pages, `pageHits, multi, tlb, set n: PTNode | multi.Owns(n)
      ensures Valid() && |pageTable| == old(|pageTable|)
      ensures Coherent(tlb) && CachesValid() && CacheLevels() == old(CacheLevels())
      ensures found == (vpn in old(pages))
      ensures if found
        then frame == old(pages[vpn]).frame && View() == Mmu.Touch(old(View()), vpn, isWrite)
        else View() == old(View())
      ensures tlb.timer == old(tlb.timer) && (found ==> tlb.Cached(vpn, frame))
      ensures tlb.table == if found then PutIn(old(tlb.table), vpn, frame, tlb.timer) else old(tlb.table)
    {
      ghost var s := View();
      assert FreeList() && TableOk() && Mmu.Inv(s);
      hide TableOk, FreeList, FramesOf, Agrees, CachesValid, CacheLevels, SweptCaches, Mmu.Inv, Mmu.AllEarlier;
      ghost var levels := CacheRepr();
      found, frame := AskTable(vpn, isWrite, tlb);
      if found {
        Learn(vpn, frame, tlb);
        TouchedView(s, vpn, isWrite, View());
      }
      ValidAgain();
    }

    /** The TLB missed: page table, then page fault. */
    method ServeMiss(vpn: nat, isWrite: bool, tlb: Tlb) returns (frame: int, report: Report)
      requires Valid() && Coherent(tlb) && CachesValid() && InReach(vpn)
      requires accessCounter >= 1 && Mmu.AllEarlier(View())
      modifies `pageTable, `pages, `frameTable, `diskAccesses, `clockHand, `freeHead, `freeNodes, `pageFaults
      modifies `pageHits, multi, tlb, CacheRepr(), set n: PTNode | multi.Owns(n)
      ensures Valid() && |pageTable| == old(|pageTable|)
      ensures Coherent(tlb) && CachesValid()
      ensures Served(old(policy), old(View()), vpn, isWrite, frame, View())
      ensures CacheLevels() == SweptCaches(old(CacheLevels()), SweptFor(old(policy), old(View()), vpn))
      ensures report == if vpn in old(pages) then PageTableHit else if frame == -1 then NoFrames else PageFault
      ensures frame == -1 ==> vpn !in old(pages)
      ensures tlb.timer == old(tlb.timer) && (frame != -1 ==> frame >= 0 && tlb.Cached(vpn, frame))
      ensures tlb.table == Learned(old(tlb.table), vpn, frame, OutFor(old(policy), old(View()), vpn), tlb.timer)
    {
      hide TableOk, FreeList, Mmu.Inv;
      ghost var s := View();
      NothingSwept(CacheLevels());
      hide FramesOf, Agrees, CachesValid, CacheLevels, SweptCaches, Mmu.AllEarlier;
      var found;
      found, frame := ServeTableHit(vpn, isWrite, tlb);
      if found {
        HitServed(policy, s, vpn, isWrite);
        return frame, PageTableHit;
      }
      frame := HandleFault(vpn, isWrite, tlb);
      MissServed(policy, s, vpn, isWrite, frame, View());
      return frame, if frame == -1 then NoFrames else PageFault;
    }

    /** TLB, then page table, then page fault: the page's frame, -1 if there is no frame at all. */
    method Serve(vpn: nat, isWrite: bool, tlb: Tlb) returns (frame: int, report: Report)
      requires Valid() && Coherent(tlb) && CachesValid() && InReach(vpn)
      requires accessCounter >= 1 && Mmu.AllEarlier(View())
      modifies `pageTable, `pages, `frameTable, `diskAccesses, `clockHand, `freeHead, `freeNodes, `pageFaults
      modifies `pageHits, multi, tlb, CacheRepr(), set n: PTNode | multi.Owns(n)
      ensures Valid() && |pageTable| == old(|pageTable|)
      ensures Coherent(tlb) && CachesValid()
      ensures Served(old(policy), old(View()), vpn, isWrite, frame, View())
      ensures CacheLevels() == SweptCaches(old(CacheLevels()), SweptFor(old(policy), old(View()), vpn))
      ensures report == TlbHit <==> old(tlb.Knows(vpn))
      ensures report == PageTableHit <==> vpn in old(pages) && !old(tlb.Knows(vpn))
      ensures report in {TlbHit, PageTableHit, PageFault, NoFrames} && (report == NoFrames <==> frame == -1)
      ensures report == TlbHit ==> vpn in old(pages)
      ensures tlb.timer == old(tlb.timer) + 1 && (frame != -1 ==> frame >= 0 && tlb.Cached(vpn, frame))
      ensures tlb.table == if old(tlb.Knows(vpn)) then LookedUp(old(tlb.table), vpn, tlb.timer)
        else Learned(old(tlb.table), vpn, frame, OutFor(old(policy), old(View()), vpn), tlb.timer)
    {
      hide TableOk, FreeList, Mmu.Inv;
      ghost var s := View();
      NothingSwept(CacheLevels());
      var pfn := ProbeTlb(vpn, tlb);
      hide FramesOf, Agrees, CachesValid, CacheLevels, SweptCaches, Mmu.AllEarlier;
      if pfn != -1 {
        ServeTlbHit(vpn, isWrite, tlb);
        HitServed(policy, s, vpn, isWrite);
        return pfn, TlbHit;
      }
      frame, report := ServeMiss(vpn, isWrite, tlb);
    }

    /** The bounds and protection checks. */
    method CheckAccess(a: Mmu.Access) returns (admitted: bool, report: Report)
      ensures admitted == Mmu.Admitted(Config(), a)
      ensures var limit := if useMultiLevel then 0x1_0000_0000_0000 else |pageTable| * 64;
        admitted <==> a.verdict != Mmu.Denied && (a.vaddr < limit || (useMultiLevel && a.verdict == Mmu.Allowed))
      ensures !admitted ==> report == if a.verdict == Mmu.Denied then ProtectionFault else SegmentationFault
    {
      var maxAddr := if useMultiLevel then ML_VIRTUAL_MEM_SIZE else |pageTable| * PAGE_SIZE;
      if a.vaddr >= maxAddr {
        if a.verdict != Mmu.NoRegion {
          if a.verdict == Mmu.Denied {
            return false, ProtectionFault;
          }
          if !useMultiLevel {
            return false, SegmentationFault;
          }
        } else {
          return false, SegmentationFault;
        }
      }
      if a.verdict == Mmu.Denied {
        return false, ProtectionFault;
      }
      return true, PageFault;
    }

    method CountAccess(ghost tlb: Tlb)
      requires Valid() && Coherent(tlb) && CachesValid()
      modifies `accessCounter
      ensures Valid() && Coherent(tlb) && CachesValid()
      ensures View() == Mmu.Tick(old(View())) && CacheLevels() == old(CacheLevels())
      ensures Mmu.AllEarlier(View()) && forall v :: tlb.Knows(v) == old(tlb.Knows(v))
    {
      hide TableOk, FreeList, Mmu.Inv;
      Mmu.TickInv(View());
      accessCounter := accessCounter + 1;
      CoherentAlike(tlb);
    }

    /** Counts an admitted access and serves its page. */
    method ServeAccess(a: Mmu.Access, tlb: Tlb) returns (frame: int, report: Report)
      requires Valid() && Coherent(tlb) && CachesValid()
      requires Mmu.Admitted(Config(), a) && InReach(Mmu.PageOf(a))
      modifies `pageTable, `pages, `frameTable, `diskAccesses, `clockHand, `freeHead, `freeNodes, `pageFaults
      modifies `pageHits, `accessCounter, multi, tlb, CacheRepr(), set n: PTNode | multi.Owns(n)
      ensures Valid() && |pageTable| == old(|pageTable|)
      ensures Coherent(tlb) && CachesValid()
      ensures Served(old(policy), Mmu.Tick(old(View())), Mmu.PageOf(a), a.write, frame, View())
      ensures CacheLevels() == SweptCaches(old(CacheLevels()), MemorySystem.TakenFrame(old(Config()), old(View()), a))
      ensures Reported(old(Config()), old(View()), a, old(tlb.Knows(Mmu.PageOf(a))), report)
      ensures tlb.timer == old(tlb.timer) + 1 && (frame != -1 ==> frame >= 0 && tlb.Cached(Mmu.PageOf(a), frame))
      ensures tlb.table ==
        if old(tlb.Knows(Mmu.PageOf(a))) then LookedUp(old(tlb.table), Mmu.PageOf(a), tlb.timer)
        else Learned(old(tlb.table), Mmu.PageOf(a), frame, OutFor(old(policy), Mmu.Tick(old(View())), Mmu.PageOf(a)),
                     tlb.timer)
    {
      hide TableOk, FreeList, Mmu.Inv;
      ghost var s, cfg, cached := View(), Config(), tlb.Knows(Mmu.PageOf(a));
      Ticked(cfg, s, a);
      hide FramesOf, Agrees, CachesValid, CacheLevels, SweptCaches, Mmu.AllEarlier;
      CountAccess(tlb);
      frame, report := Serve(Mmu.PageOf(a), a.write, tlb);
      ServedReport(cfg, s, a, cached, frame, View(), report);
    }

    /**
     Translates an address; -1 if the access is refused or no frame exists. The result and the new state are
     those of the reference unit, which has no TLB: the TLB shows only in the report.
     */
    method Translate(a: Mmu.Access, tlb: Tlb) returns (physical: int, report: Report)
      requires Valid() && Coherent(tlb) && CachesValid()
      requires useMultiLevel && Mmu.Admitted(Config(), a) ==> Mmu.PageOf(a) < INT_LIMIT
      modifies `pageTable, `pages, `frameTable, `diskAccesses, `clockHand, `freeHead, `freeNodes, `pageFaults
      modifies `pageHits, `accessCounter, multi, tlb, CacheRepr(), set n: PTNode | multi.Owns(n)
      ensures Valid() && Config() == old(Config())
      ensures Coherent(tlb) && CachesValid()
      ensures View() == Mmu.Step(old(Config()), old(View()), a)
      ensures physical == Raw(Mmu.Result(old(Config()), View(), a))
      ensures CacheLevels() == SweptCaches(old(CacheLevels()), MemorySystem.TakenFrame(old(Config()), old(View()), a))
      ensures Reported(old(Config()), old(View()), a, old(tlb.Knows(Mmu.PageOf(a))), report)
      ensures physical == -1 ==> tlb.table == old(tlb.table) && (|frameTable| > 0 ==> tlb.timer == old(tlb.timer))
      ensures physical != -1 ==>
        && tlb.Cached(a.vaddr / 64, physical / 64)
        && TlbTrace.Follows(old(TlbLru.StateOf(tlb)), TlbLru.StateOf(tlb), tlb.ways,
                            TlbTrace.Ops(old(Config()), old(View()), a))
    {
      hide TableOk, FreeList, Mmu.Inv, Mmu.Step, Mmu.Result, Mmu.Admitted, Served, Reported, OutFor, Learned;
      hide LookedUp, Ways.Find, TlbLru.Shaped, TlbTrace.Follows, TlbTrace.Ops, Tlb.Cached;
      ghost var s, cfg := View(), Config();
      var admitted;
      admitted, report := CheckAccess(a);
      NothingSwept(CacheLevels());
      Ticked(cfg, s, a);
      TranslateRefused(cfg, s, a, old(tlb.Knows(Mmu.PageOf(a))), report);
      AdmittedInReach(a);
      hide FramesOf, Agrees, CachesValid, CacheLevels, SweptCaches, Mmu.AllEarlier;
      if !admitted {
        return -1, report;
      }
      var frame;
      ghost var known, t := tlb.Knows(Mmu.PageOf(a)), TlbLru.StateOf(tlb);
      TlbBefore(tlb, a);
      frame, report := ServeAccess(a, tlb);
      ServedStep(cfg, s, a, frame, View());
      TlbStep(cfg, s, a, frame, View(), t, tlb.ways, known, tlb.table);
      return PhysicalAddress(frame, a.vaddr), report;
    }

    /** What the TLB knows, a scan of its set finds, and the page is resident. */
    lemma TlbBefore(tlb: Tlb, a: Mmu.Access)
      requires Coherent(tlb)
      ensures var page := Mmu.PageOf(a);
        && TlbLru.Shaped(TlbLru.StateOf(tlb), tlb.ways) && (tlb.Knows(page) ==> page in pages)
        && (tlb.Knows(page) <==> Ways.Find(Tags(tlb.table[page % |tlb.table|]), page) < tlb.ways)
    {
      TlbLru.ValidShaped(tlb);
      TlbLru.KnownIsFound(tlb, Mmu.PageOf(a));
      hide Tlb.Valid, TlbLru.Shaped;
    }

    lemma AdmittedInReach(a: Mmu.Access)
      requires TableOk() && (useMultiLevel && Mmu.Admitted(Config(), a) ==> Mmu.PageOf(a) < INT_LIMIT)
      ensures Mmu.Admitted(Config(), a) ==> InReach(Mmu.PageOf(a))
    {
    }
  }

  ghost function SweptCaches(h: Option<CacheModel.Hierarchy>, frame: Option<nat>): (h': Option<CacheModel.Hierarchy>)
    requires h.Some? ==> CacheModel.AllShaped(h.value)
  {
    if h.None? then None else Some(MemorySystem.Swept(h.value, frame))
  }

  /** The frame that a fault takes from a page. */
  ghost function Taken(policy: Mmu.Policy, s: Mmu.State): Option<nat> {
    if Mmu.Full(s) then Some(Mmu.Victim(policy, s)) else None
  }

  /** The page that loses its frame to a fault. */
  ghost function PageOut(policy: Mmu.Policy, s: Mmu.State): Option<nat> {
    if Mmu.Full(s) && s.frames[Mmu.Victim(policy, s)] >= 0 then Some(s.frames[Mmu.Victim(policy, s)]) else None
  }

  /** The page that loses its frame to the lookup of another page. */
  ghost function OutFor(policy: Mmu.Policy, s: Mmu.State, page: nat): Option<nat> {
    if page in s.pages then None else PageOut(policy, Mmu.Charge(s))
  }

  function Shot(table: seq<TlbSet>, out: Option<nat>): seq<TlbSet> {
    if out.Some? then ShotDown(table, out.value) else table
  }

  /** The TLB after a miss: the page that goes is shot down, and the page that was missed put in if it has a frame. */
  function Learned(table: seq<TlbSet>, vpn: nat, frame: int, out: Option<nat>, now: nat): seq<TlbSet> {
    if frame < 0 then table else PutIn(Shot(table, out), vpn, frame, now)
  }

  /** The frame that the lookup of a page takes from another one. */
  ghost function SweptFor(policy: Mmu.Policy, s: Mmu.State, page: nat): Option<nat> {
    if page in s.pages then None else Taken(policy, Mmu.Charge(s))
  }

  /** The state with a free frame for a page fault. */
  ghost function Prepared(policy: Mmu.Policy, s: Mmu.State): Mmu.State
    requires Mmu.Inv(s) && |s.frames| > 0
  {
    if s.free != [] then s else Mmu.Evict(policy, s)
  }

  /** The state after the policy's choice: CLOCK has taken reference bits and moved its hand. */
  ghost function Chosen(policy: Mmu.Policy, s: Mmu.State): Mmu.State
    requires Mmu.Full(s)
  {
    if policy == Mmu.Clock
    then s.(pages := Mmu.Unreference(s, Mmu.Skipped(s, 0)), hand := Mmu.After(Mmu.Victim(policy, s), |s.frames|))
    else s
  }

  /** Eviction from s gave frame vf and state s', where the frame is on no list yet. */
  ghost predicate Evicted(policy: Mmu.Policy, s: Mmu.State, vf: int, s': Mmu.State) {
    if |s.frames| == 0 then vf == -1 && s' == s
    else Mmu.Full(s) && vf == Mmu.Victim(policy, s) && s' == Mmu.Evict(policy, s).(free := [])
  }

  lemma EvictedTo(policy: Mmu.Policy, s: Mmu.State, c: Mmu.State, vf: int, s': Mmu.State)
    requires Mmu.Full(s) && vf == Mmu.Victim(policy, s) && c == Chosen(policy, s)
    requires vf < |c.frames| && c.frames[vf] in c.pages
    requires s' == c.(pages := c.pages - {c.frames[vf]}, frames := c.frames[vf := -1],
                      disk := if c.pages[c.frames[vf]].dirty then c.disk + 1 else c.disk)
    ensures Evicted(policy, s, vf, s')
  {
    ChosenKeepsPages(policy, s);
  }

  lemma NothingSwept(h: Option<CacheModel.Hierarchy>)
    requires h.Some? ==> CacheModel.AllShaped(h.value)
    ensures SweptCaches(h, None) == h
  {
  }

  lemma VictimInRange(policy: Mmu.Policy, s: Mmu.State)
    requires |s.frames| > 0 ==> Mmu.Full(s)
    requires Mmu.Inv(s)
    ensures |s.frames| == 0 ==> Evicted(policy, s, -1, s)
    ensures Taken(policy, s) == if |s.frames| > 0 then Some(Mmu.Victim(policy, s)) else None
    ensures PageOut(policy, s) == if |s.frames| > 0 then Some(s.frames[Mmu.Victim(policy, s)]) else None
    ensures |s.frames| > 0 ==> 0 <= Mmu.Victim(policy, s) < |s.frames| && s.frames[Mmu.Victim(policy, s)] >= 0
  {
    if |s.frames| > 0 {
      assert Mmu.MappingOf(s, Mmu.Victim(policy, s)).frame == Mmu.Victim(policy, s);
    }
  }

  lemma ChosenKeepsPages(policy: Mmu.Policy, s: Mmu.State)
    requires Mmu.Full(s)
    ensures var c, v := Chosen(policy, s), Mmu.Victim(policy, s);
      && c.frames == s.frames && v < |s.frames| && s.frames[v] >= 0 && s.frames[v] in c.pages
      && c.pages.Keys == s.pages.Keys && (forall p :: p in c.pages ==> c.pages[p].frame == s.pages[p].frame)
      && Mmu.Evict(policy, s) ==
        c.(pages := c.pages - {s.frames[v]}, frames := c.frames[v := -1], free := [v],
           disk := if c.pages[s.frames[v]].dirty then c.disk + 1 else c.disk)
  {
    var v := Mmu.Victim(policy, s);
    assert Mmu.MappingOf(s, v) == s.pages[s.frames[v]];
  }

  lemma OccupiedFrame(s: Mmu.State, f: nat)
    requires Mmu.Inv(s) && s.free == [] && f < |s.frames|
    ensures Mmu.Full(s) && s.frames[f] >= 0 && s.frames[f] in s.pages
  {
  }

  /** The first frame below i with the smallest stamp, its page and that stamp. */
  ghost predicate OldestSoFar(policy: Mmu.Policy, s: Mmu.State, i: nat, vf: int, vp: int, minT: nat) {
    if i == 0 then vf == -1
    else
      && Mmu.Full(s) && i <= |s.frames| && vf == Mmu.OldestBelow(policy, s, i)
      && vp == s.frames[vf] && minT == Mmu.Stamp(policy, Mmu.MappingOf(s, vf))
  }

  lemma ScanStep(policy: Mmu.Policy, s: Mmu.State, i: nat, vf: int, vp: int, minT: nat)
    requires Mmu.Full(s) && i < |s.frames| && OldestSoFar(policy, s, i, vf, vp, minT)
    ensures s.frames[i] in s.pages && (vf == -1 <==> i == 0)
    ensures var t := Mmu.Stamp(policy, s.pages[s.frames[i]]);
      if vf == -1 || t < minT
      then OldestSoFar(policy, s, i + 1, i, s.frames[i], t)
      else OldestSoFar(policy, s, i + 1, vf, vp, minT)
  {
    assert Mmu.MappingOf(s, i) == s.pages[s.frames[i]];
  }

  /** The frame for a page fault was taken: from the free list or by eviction. */
  ghost predicate FrameTaken(policy: Mmu.Policy, s: Mmu.State, f: int, s': Mmu.State) {
    Mmu.Inv(s) &&
    if |s.frames| == 0 then f == -1 && s' == s
    else var p := Prepared(policy, s); p.free != [] && f == p.free[0] && s' == p.(free := p.free[1..])
  }

  /** The first free frame was taken off the list; -1 if the list is empty. */
  ghost predicate FoundFree(s: Mmu.State, f: int, s': Mmu.State) {
    if s.free == [] then f == -1 && s' == s else f == s.free[0] && s' == s.(free := s.free[1..])
  }

  lemma FreeOrNot(policy: Mmu.Policy, c: Mmu.State, f: int, s': Mmu.State)
    requires Mmu.Inv(c) && FoundFree(c, f, s')
    ensures f == -1 ==> c.free == [] && s' == c
    ensures f != -1 ==> FrameTaken(policy, c, f, s') && Taken(policy, c) == None
  {
    assert c.free != [] ==> c.frames[c.free[0]] == -1;
  }

  lemma FromEviction(policy: Mmu.Policy, c: Mmu.State, f: int, s': Mmu.State)
    requires Mmu.Inv(c) && c.free == [] && Evicted(policy, c, f, s')
    ensures FrameTaken(policy, c, f, s')
  {
    hide Mmu.Inv, Mmu.Full, Mmu.Victim, Mmu.Evict;
    if |c.frames| > 0 {
      Mmu.EvictInv(policy, c);
    }
  }

  function Entered(s: Mmu.State, page: nat, f: nat, isWrite: bool): Mmu.State
    requires f < |s.frames|
  {
    s.(pages := s.pages[page := Mmu.Mapping(f, isWrite, true, s.clock, s.clock)], frames := s.frames[f := page])
  }

  ghost predicate FaultServed(policy: Mmu.Policy, s: Mmu.State, page: nat, isWrite: bool, f: int, s': Mmu.State)
    requires Mmu.Inv(s)
  {
    && s' == Mmu.Fault(policy, s, page, isWrite)
    && if |s.frames| == 0 then f == -1 else page in s'.pages && f == s'.pages[page].frame
  }

  lemma ServedFault(policy: Mmu.Policy, s: Mmu.State, page: nat, isWrite: bool, f: int, s1: Mmu.State)
    requires Mmu.Inv(s) && page !in s.pages && s.clock >= 1 && Mmu.AllEarlier(s)
    requires FrameTaken(policy, Mmu.Charge(s), f, s1)
    ensures |s.frames| == 0 ==> f == -1 && Mmu.Inv(s1) && FaultServed(policy, s, page, isWrite, f, s1)
    ensures |s.frames| > 0 ==>
      && 0 <= f < |s1.frames| && var s2 := Entered(s1, page, f, isWrite);
         Mmu.Inv(s2) && FaultServed(policy, s, page, isWrite, f, s2)
  {
    var c := Mmu.Charge(s);
    Mmu.FaultInv(policy, s, page, isWrite);
    if c.free == [] && |c.frames| > 0 {
      Mmu.EvictInv(policy, c);
    }
    hide Mmu.Inv, Mmu.Evict;
  }

  lemma TouchedView(s: Mmu.State, page: nat, isWrite: bool, s': Mmu.State)
    requires Mmu.Inv(s) && Mmu.AllEarlier(s) && page in s.pages
    requires var m := s.pages[page];
      s' == s.(pages := s.pages[page := m.(lastAccess := s.clock, referenced := true, dirty := m.dirty || isWrite)],
               hits := s.hits + 1)
    ensures s' == Mmu.Touch(s, page, isWrite) && Mmu.Inv(s')
  {
    Mmu.TouchInv(s, page, isWrite);
  }

  /** A page was looked up, with a page fault if it was not resident; -1 stands for no frame. */
  ghost predicate Served(policy: Mmu.Policy, s: Mmu.State, page: nat, isWrite: bool, f: int, s': Mmu.State) {
    && Mmu.Inv(s)
    && if page in s.pages then s' == Mmu.Touch(s, page, isWrite) && f == s.pages[page].frame
       else FaultServed(policy, s, page, isWrite, f, s')
  }

  lemma HitServed(policy: Mmu.Policy, s: Mmu.State, page: nat, isWrite: bool)
    requires Mmu.Inv(s) && page in s.pages
    ensures Served(policy, s, page, isWrite, s.pages[page].frame, Mmu.Touch(s, page, isWrite))
  {
  }

  lemma MissServed(policy: Mmu.Policy, s: Mmu.State, page: nat, isWrite: bool, f: int, s': Mmu.State)
    requires Mmu.Inv(s) && page !in s.pages && FaultServed(policy, s, page, isWrite, f, s')
    ensures Served(policy, s, page, isWrite, f, s')
  {
  }

  /** When each report is given, in terms of the state before. */
  ghost predicate Reported(cfg: Mmu.Config, s: Mmu.State, a: Mmu.Access, cached: bool, report: Report) {
    match report
    case ProtectionFault => a.verdict == Mmu.Denied
    case SegmentationFault => a.verdict != Mmu.Denied && !Mmu.Admitted(cfg, a)
    case TlbHit => Mmu.Admitted(cfg, a) && Mmu.PageOf(a) in s.pages && cached
    case PageTableHit => Mmu.Admitted(cfg, a) && Mmu.PageOf(a) in s.pages && !cached
    case PageFault => Mmu.Admitted(cfg, a) && Mmu.PageOf(a) !in s.pages && |s.frames| > 0
    case NoFrames => Mmu.Admitted(cfg, a) && Mmu.PageOf(a) !in s.pages && |s.frames| == 0
  }

  lemma Ticked(cfg: Mmu.Config, s: Mmu.State, a: Mmu.Access)
    requires Mmu.Inv(s)
    ensures Mmu.Inv(Mmu.Tick(s)) && Mmu.AllEarlier(Mmu.Tick(s))
    ensures Mmu.Tick(s).clock >= 1 && Mmu.Tick(s).pages == s.pages
    ensures MemorySystem.TakenFrame(cfg, s, a) ==
      if !Mmu.Admitted(cfg, a) then None else SweptFor(cfg.policy, Mmu.Tick(s), Mmu.PageOf(a))
  {
    Mmu.TickInv(s);
  }

  /** An address in a frame; -1 if there is no frame. */
  function PhysicalAddress(frame: int, vaddr: nat): int {
    if frame == -1 then -1 else frame * PAGE_SIZE + vaddr % PAGE_SIZE
  }

  /** A served page is a translation of the reference unit. */
  lemma ServedStep(cfg: Mmu.Config, s: Mmu.State, a: Mmu.Access, f: int, s': Mmu.State)
    requires Mmu.Inv(s) && Mmu.Admitted(cfg, a) && Served(cfg.policy, Mmu.Tick(s), Mmu.PageOf(a), a.write, f, s')
    ensures s' == Mmu.Step(cfg, s, a)
    ensures Raw(Mmu.Result(cfg, s', a)) == PhysicalAddress(f, a.vaddr)
  {
    Ticked(cfg, s, a);
    if Mmu.PageOf(a) !in s.pages {
      Mmu.FaultInv(cfg.policy, Mmu.Tick(s), Mmu.PageOf(a), a.write);
    }
    hide Mmu.Inv, Mmu.Fault, Mmu.Full;
  }

  /** Who loses a frame to a fault is the page that held the frame before. */
  lemma OutIs(cfg: Mmu.Config, s: Mmu.State, a: Mmu.Access, f: int, s': Mmu.State)
    requires Mmu.Inv(s) && Served(cfg.policy, Mmu.Tick(s), Mmu.PageOf(a), a.write, f, s') && f != -1
    requires 0 <= f < |s.frames| && Mmu.PageOf(a) !in s.pages
    ensures OutFor(cfg.policy, Mmu.Tick(s), Mmu.PageOf(a)) == if s.frames[f] >= 0 then Some(s.frames[f]) else None
  {
    var c := Mmu.Charge(Mmu.Tick(s));
    Mmu.TickInv(s);
    if c.free == [] {
      Mmu.EvictInv(cfg.policy, c);
    } else {
      assert s.frames[s.free[0]] == -1;
    }
    hide Mmu.Inv, Mmu.Victim, Mmu.Evict;
  }

  /** One service, after a shootdown if there is one, is a step or two of the TLB's run. */
  lemma TlbStep(cfg: Mmu.Config, s: Mmu.State, a: Mmu.Access, f: int, s': Mmu.State,
                t: TlbLru.State, ways: nat, known: bool, table: seq<TlbSet>)
    requires Mmu.Inv(s) && Mmu.Admitted(cfg, a) && Served(cfg.policy, Mmu.Tick(s), Mmu.PageOf(a), a.write, f, s')
    requires TlbLru.Shaped(t, ways) && (known ==> Mmu.PageOf(a) in s.pages)
    requires var page := Mmu.PageOf(a);
      && (known <==> Ways.Find(Tags(t.table[page % |t.table|]), page) < ways)
      && table == if known then LookedUp(t.table, page, t.timer + 1)
                  else Learned(t.table, page, f, OutFor(cfg.policy, Mmu.Tick(s), page), t.timer + 1)
    ensures f == -1 ==> table == t.table && |s'.frames| == 0
    ensures f != -1 ==> TlbTrace.Follows(t, TlbLru.State(table, t.timer + 1), ways, TlbTrace.Ops(cfg, s, a))
  {
    var page := Mmu.PageOf(a);
    if f != -1 {
      ServedStep(cfg, s, a, f, s');
      TlbTrace.OpsAre(cfg, s, a, page);
      assert f == s'.pages[page].frame;
      if page !in s.pages {
        OutIs(cfg, s, a, f, s');
      }
      hide Mmu.Inv, Mmu.Step, Mmu.Result, Served, OutFor, Mmu.Admitted, Ways.Find, TlbLru.Shaped;
      if page !in s.pages && s.frames[f] >= 0 {
        TlbTrace.ServedAfterShot(t, ways, s.frames[f], page, f);
      } else {
        TlbTrace.ServedAlone(t, ways, page, f);
      }
    }
  }

  lemma TranslateRefused(cfg: Mmu.Config, s: Mmu.State, a: Mmu.Access, cached: bool, report: Report)
    requires Mmu.Inv(s)
    ensures !Mmu.Admitted(cfg, a) ==>
      && Mmu.Step(cfg, s, a) == s && Raw(Mmu.Result(cfg, s, a)) == -1
      && (report == (if a.verdict == Mmu.Denied then ProtectionFault else SegmentationFault)
          ==> Reported(cfg, s, a, cached, report))
  {
  }

  lemma ServedReport(cfg: Mmu.Config, s: Mmu.State, a: Mmu.Access, cached: bool, f: int, s': Mmu.State, report: Report)
    requires Mmu.Admitted(cfg, a) && Served(cfg.policy, Mmu.Tick(s), Mmu.PageOf(a), a.write, f, s')
    requires report == TlbHit <==> cached
    requires report == PageTableHit <==> Mmu.PageOf(a) in s.pages && !cached
    requires report in {TlbHit, PageTableHit, PageFault, NoFrames} && (report == NoFrames <==> f == -1)
    requires report == TlbHit ==> Mmu.PageOf(a) in s.pages
    ensures Reported(cfg, s, a, cached, report)
  {
    var t := Mmu.Tick(s);
    if Mmu.PageOf(a) !in s.pages {
      assert f == -1 ==> |s.frames| == 0 by {
        if |s.frames| > 0 { assert f == s'.pages[Mmu.PageOf(a)].frame; }
      }
    }
  }
}
