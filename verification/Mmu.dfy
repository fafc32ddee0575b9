/**
 The reference memory-management unit: no TLB, and the page table is the map of the resident pages.
 It fixes what a translation does to the mapping, the frames and the counters.
 */
module Mmu {
  import opened Common

  datatype Policy = Fifo | Lru | Clock

  /** What the mmap manager says of an address: no region there, or a region that allows or denies the access. */
  datatype Verdict = NoRegion | Allowed | Denied

  datatype Access = Access(vaddr: nat, write: bool, verdict: Verdict)

  /** Addresses below the limit exist; in multi-level mode so do larger ones inside an allowed region. */
  datatype Config = Config(policy: Policy, limit: nat, multiLevel: bool)

  datatype Mapping = Mapping(frame: nat, dirty: bool, referenced: bool, lastAccess: nat, loaded: nat)

  datatype State = State(
    pages: map<int, Mapping>,   // resident pages
    frames: seq<int>,           // frame table: the page in each frame, -1 if none
    free: seq<nat>,             // free frames, next to be used first
    hand: nat,                  // clock hand
    clock: nat,                 // admitted accesses so far
    hits: nat,
    faults: nat,
    disk: nat)

  // ---------- the invariant ----------

  /** The free list and the mapped frames split the frames between them, without duplicates. */
  ghost predicate Partition(s: State) {
    && (forall i, j :: 0 <= i < j < |s.free| ==> s.free[i] != s.free[j])
    && (forall i :: 0 <= i < |s.free| ==> s.free[i] < |s.frames|)
    && (forall f: nat :: f < |s.frames| ==> s.frames[f] >= -1 && (s.frames[f] == -1 <==> f in s.free))
  }

  /** Frame table and resident pages are inverse to each other. */
  ghost predicate Inverse(s: State) {
    && (forall f: nat :: f < |s.frames| && s.frames[f] >= 0 ==>
          s.frames[f] in s.pages && s.pages[s.frames[f]].frame == f)
    && (forall p :: p in s.pages ==> p >= 0 && s.pages[p].frame < |s.frames| && s.frames[s.pages[p].frame] == p)
  }

  /** Every resident page has its own load time and its own last-access time, none later than now. */
  ghost predicate Stamped(s: State) {
    && (forall p :: p in s.pages ==> 1 <= s.pages[p].loaded <= s.pages[p].lastAccess <= s.clock)
    && (forall p, q :: p in s.pages && q in s.pages && p != q ==>
          s.pages[p].lastAccess != s.pages[q].lastAccess && s.pages[p].loaded != s.pages[q].loaded)
  }

  ghost predicate Inv(s: State) {
    Partition(s) && Inverse(s) && Stamped(s) && (s.hand < |s.frames| || s.hand == 0)
  }

  function Fresh(n: nat): State {
    State(map[], seq(n, _ => -1), seq(n, i => i), 0, 0, 0, 0, 0)
  }

  // ---------- victims ----------

  function Stamp(policy: Policy, m: Mapping): nat {
    if policy == Lru then m.lastAccess else m.loaded
  }

  /** Every frame holds a page. */
  ghost predicate Full(s: State) {
    Inv(s) && s.free == [] && |s.frames| > 0
  }

  ghost function MappingOf(s: State, f: nat): (m: Mapping)
    requires Full(s) && f < |s.frames|
    ensures m.frame == f
  {
    assert s.frames[f] >= 0;
    s.pages[s.frames[f]]
  }

  /** The first frame below n with the smallest stamp. */
  ghost function OldestBelow(policy: Policy, s: State, n: nat): (o: nat)
    requires Full(s) && 0 < n <= |s.frames|
    ensures o < n
    ensures forall f: nat :: f < n ==> Stamp(policy, MappingOf(s, o)) <= Stamp(policy, MappingOf(s, f))
  {
    if n == 1 then 0
    else
      var o := OldestBelow(policy, s, n - 1);
      if Stamp(policy, MappingOf(s, n - 1)) < Stamp(policy, MappingOf(s, o)) then n - 1 else o
  }

  /** The d-th frame from the hand, cyclically. */
  function FromHand(s: State, d: nat): (f: nat)
    requires s.hand < |s.frames| && d <= |s.frames|
    ensures f < |s.frames|
  {
    if s.hand + d < |s.frames| then s.hand + d else s.hand + d - |s.frames|
  }

  function After(f: nat, n: nat): nat {
    if f + 1 == n then 0 else f + 1
  }

  /** How many frames from offset d on are referenced in a row, counted from the hand; at most all. */
  ghost function Skipped(s: State, d: nat): (k: nat)
    requires Full(s) && d <= |s.frames|
    ensures d <= k <= |s.frames|
    ensures forall i: nat :: d <= i < k ==> MappingOf(s, FromHand(s, i)).referenced
    ensures k < |s.frames| ==> !MappingOf(s, FromHand(s, k)).referenced
    decreases |s.frames| - d
  {
    if d == |s.frames| || !MappingOf(s, FromHand(s, d)).referenced then d else Skipped(s, d + 1)
  }

  ghost function Victim(policy: Policy, s: State): (v: nat)
    requires Full(s)
    ensures v < |s.frames|
  {
    if policy == Clock then FromHand(s, Skipped(s, 0)) else OldestBelow(policy, s, |s.frames|)
  }

  // ---------- steps ----------

  /** Takes the reference bit from the pages in the first k frames from the hand. */
  ghost function Unreference(s: State, k: nat): (pages: map<int, Mapping>)
    requires Full(s) && k <= |s.frames|
    ensures pages.Keys == s.pages.Keys
  {
    map p | p in s.pages :: if exists i: nat :: i < k && FromHand(s, i) == s.pages[p].frame
      then s.pages[p].(referenced := false) else s.pages[p]
  }

  /** Throws out the victim's page; its frame becomes the free one. */
  ghost function Evict(policy: Policy, s: State): State
    requires Full(s)
  {
    var v := Victim(policy, s);
    var page := s.frames[v];
    s.(pages := (if policy == Clock then Unreference(s, Skipped(s, 0)) else s.pages) - {page},
       frames := s.frames[v := -1],
       free := [v],
       hand := if policy == Clock then After(v, |s.frames|) else s.hand,
       disk := if s.pages[page].dirty then s.disk + 1 else s.disk)
  }

  function Touch(s: State, page: nat, write: bool): State
    requires page in s.pages
  {
    var m := s.pages[page];
    s.(pages := s.pages[page := m.(lastAccess := s.clock, referenced := true, dirty := m.dirty || write)],
       hits := s.hits + 1)
  }

  /** Loads a page into the first free frame. */
  function Load(s: State, page: nat, write: bool): State
    requires s.free != [] && s.free[0] < |s.frames|
  {
    var f := s.free[0];
    s.(pages := s.pages[page := Mapping(f, write, true, s.clock, s.clock)],
       frames := s.frames[f := page],
       free := s.free[1..])
  }

  /** Counts a page fault and the disk read that serves it. */
  function Charge(s: State): (s': State)
    ensures s'.pages == s.pages && s'.frames == s.frames && s'.free == s.free
    ensures s'.hand == s.hand && s'.clock == s.clock
  {
    s.(faults := s.faults + 1, disk := s.disk + 1)
  }

  ghost function Fault(policy: Policy, s: State, page: nat, write: bool): State
    requires Inv(s)
  {
    var s1 := Charge(s);
    if s1.free != [] then Load(s1, page, write)
    else if |s1.frames| == 0 then s1
    else Load(Evict(policy, s1), page, write)
  }

  predicate Admitted(cfg: Config, a: Access) {
    a.verdict != Denied && (a.vaddr < cfg.limit || (cfg.multiLevel && a.verdict == Allowed))
  }

  function PageOf(a: Access): nat {
    a.vaddr / PAGE_SIZE
  }

  function Tick(s: State): State {
    s.(clock := s.clock + 1)
  }

  /** One translation: the new state. */
  ghost function Step(cfg: Config, s: State, a: Access): State
    requires Inv(s)
  {
    if !Admitted(cfg, a) then s
    else if PageOf(a) in s.pages then Touch(Tick(s), PageOf(a), a.write)
    else Fault(cfg.policy, Tick(s), PageOf(a), a.write)
  }

  /** One translation: the physical address, if there is one, read off the new state. */
  function Result(cfg: Config, s': State, a: Access): Option<nat> {
    if Admitted(cfg, a) && PageOf(a) in s'.pages
    then Some(s'.pages[PageOf(a)].frame * PAGE_SIZE + a.vaddr % PAGE_SIZE)
    else None
  }

  // ---------- steps keep the invariant ----------

  lemma FreshInv(n: nat)
    ensures Inv(Fresh(n))
  {
    var s := Fresh(n);
    forall f: nat | f < n
      ensures f in s.free
    {
      assert s.free[f] == f;
    }
  }

  /** No page has been used at the present time yet. */
  ghost predicate AllEarlier(s: State) {
    forall p :: p in s.pages ==> s.pages[p].lastAccess < s.clock
  }

  lemma TickInv(s: State)
    requires Inv(s)
    ensures Inv(Tick(s)) && AllEarlier(Tick(s))
    ensures Inv(Charge(Tick(s))) && AllEarlier(Charge(Tick(s)))
  {
    assert Partition(Tick(s)) && Inverse(Tick(s)) && Stamped(Tick(s));
    assert Partition(Charge(Tick(s))) && Inverse(Charge(Tick(s))) && Stamped(Charge(Tick(s)));
  }

  lemma ChargeInv(s: State)
    requires Inv(s)
    ensures Inv(Charge(s))
  {
    assert Partition(Charge(s)) && Inverse(Charge(s)) && Stamped(Charge(s));
  }

  lemma TouchInv(s: State, page: nat, write: bool)
    requires Inv(s) && page in s.pages && AllEarlier(s)
    ensures Inv(Touch(s, page, write)) && |Touch(s, page, write).frames| == |s.frames|
  {
    assert Partition(Touch(s, page, write)) && Inverse(Touch(s, page, write));
    hide Partition, Inverse;
  }

  lemma LoadPartition(s: State, page: nat, write: bool)
    requires Partition(s) && s.free != []
    ensures Partition(Load(s, page, write))
  {
    var s', f := Load(s, page, write), s.free[0];
    assert s.frames[f] == -1;
    forall g
      ensures g in s'.free <==> g in s.free && g != f
    {
      assert s.free == [f] + s'.free;
    }
  }

  lemma LoadInverse(s: State, page: nat, write: bool)
    requires Partition(s) && Inverse(s) && page !in s.pages && s.free != []
    ensures Inverse(Load(s, page, write))
  {
    assert s.frames[s.free[0]] == -1;
  }

  lemma LoadStamped(s: State, page: nat, write: bool)
    requires Stamped(s) && AllEarlier(s) && s.free != [] && s.free[0] < |s.frames| && s.clock >= 1
    ensures Stamped(Load(s, page, write))
  {
  }

  lemma LoadInv(s: State, page: nat, write: bool)
    requires Inv(s) && page !in s.pages && s.free != [] && s.clock >= 1
    requires AllEarlier(s)
    ensures Inv(Load(s, page, write)) && |Load(s, page, write).frames| == |s.frames|
  {
    LoadPartition(s, page, write);
    LoadInverse(s, page, write);
    LoadStamped(s, page, write);
    hide Partition, Inverse, Stamped;
  }

  /** Eviction changes no mapping that stays, except its reference bit. */
  lemma EvictPages(policy: Policy, s: State)
    requires Full(s)
    ensures var s', v := Evict(policy, s), Victim(policy, s);
      && s.frames[v] >= 0 && s'.pages.Keys == s.pages.Keys - {s.frames[v]}
      && (forall p :: p in s'.pages ==> p in s.pages && s'.pages[p].(referenced := s.pages[p].referenced) == s.pages[p])
  {
    var page := MappingOf(s, Victim(policy, s));
    hide Victim, Skipped, FromHand, Partition, Stamped;
  }

  lemma EvictPartition(policy: Policy, s: State)
    requires Full(s)
    ensures Partition(Evict(policy, s))
  {
    hide Victim, Skipped, Unreference, Inverse, Stamped;
    assert Victim(policy, s) in Evict(policy, s).free;
  }

  lemma EvictInv(policy: Policy, s: State)
    requires Full(s)
    ensures var s', v := Evict(policy, s), Victim(policy, s);
      && Inv(s') && s'.free == [v] && s.frames[v] >= 0 && |s'.frames| == |s.frames| && s'.clock == s.clock
      && s'.pages.Keys == s.pages.Keys - {s.frames[v]}
      && (forall p :: p in s'.pages ==> p in s.pages && s'.pages[p].(referenced := s.pages[p].referenced) == s.pages[p])
  {
    EvictPages(policy, s);
    EvictPartition(policy, s);
    hide Victim, Skipped, Unreference, Partition;
  }

  lemma FaultInv(policy: Policy, s: State, page: nat, write: bool)
    requires Inv(s) && page !in s.pages && s.clock >= 1
    requires AllEarlier(s)
    ensures Inv(Fault(policy, s, page, write)) && |Fault(policy, s, page, write).frames| == |s.frames|
    ensures page in Fault(policy, s, page, write).pages <==> |s.frames| > 0
  {
    var s1 := Charge(s);
    assert Inv(s1);
    hide Inv, Evict, Charge, Victim;
    if s1.free != [] {
      LoadInv(s1, page, write);
    } else if |s1.frames| > 0 {
      EvictInv(policy, s1);
      LoadInv(Evict(policy, s1), page, write);
    }
  }

  lemma StepInv(cfg: Config, s: State, a: Access)
    requires Inv(s)
    ensures Inv(Step(cfg, s, a)) && |Step(cfg, s, a).frames| == |s.frames|
  {
    if Admitted(cfg, a) {
      TickInv(s);
      hide Inv, Touch, Fault;
      if PageOf(a) in s.pages {
        TouchInv(Tick(s), PageOf(a), a.write);
      } else {
        FaultInv(cfg.policy, Tick(s), PageOf(a), a.write);
      }
    }
  }
}
