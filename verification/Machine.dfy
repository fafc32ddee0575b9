/** The simulator's main loop: whole traces on the memory-management unit, its TLB and the caches. */
module Machine {
  import opened Bits
  import opened Common
  import opened VirtualMemoryUnit
  import opened TlbUnit
  import opened PageTable
  import Cache
  import CacheContents
  import CacheModel
  import Mmu
  import MmuRuns
  import MmuPages
  import TlbLru
  import TlbTrace
  import MemorySystem
  import MemoryLru
  import MemoryHistory
  import CacheLru

  /** In four-level mode the page numbers in use must fit the frame table. */
  predicate Addressable(cfg: Mmu.Config, a: Mmu.Access) {
    cfg.multiLevel && Mmu.Admitted(cfg, a) ==> Mmu.PageOf(a) < INT_LIMIT
  }

  function RawAll(r: seq<Option<nat>>): seq<int> {
    seq(|r|, i requires 0 <= i < |r| => Raw(r[i]))
  }

  lemma RawAllExtend(r: seq<Option<nat>>, x: Option<nat>)
    ensures RawAll(r + [x]) == RawAll(r) + [Raw(x)]
  {
  }

  lemma ResultsGrow(cfg: Mmu.Config, n: nat, trace: seq<Mmu.Access>, i: nat)
    requires i < |trace|
    ensures RawAll(MmuRuns.Results(cfg, n, trace[..i + 1])) ==
      RawAll(MmuRuns.Results(cfg, n, trace[..i]))
        + [Raw(Mmu.Result(cfg, MmuRuns.Run(cfg, n, trace[..i + 1]), trace[i]))]
  {
    hide *;
    ResultsExtend(cfg, n, trace, i);
    RawAllExtend(MmuRuns.Results(cfg, n, trace[..i]), Mmu.Result(cfg, MmuRuns.Run(cfg, n, trace[..i + 1]), trace[i]));
  }

  lemma ResultsExtend(cfg: Mmu.Config, n: nat, trace: seq<Mmu.Access>, i: nat)
    requires i < |trace|
    ensures MmuRuns.Run(cfg, n, trace[..i + 1]) == Mmu.Step(cfg, MmuRuns.Run(cfg, n, trace[..i]), trace[i])
    ensures MmuRuns.Results(cfg, n, trace[..i + 1]) ==
      MmuRuns.Results(cfg, n, trace[..i]) + [Mmu.Result(cfg, MmuRuns.Run(cfg, n, trace[..i + 1]), trace[i])]
  {
    assert trace[..i + 1][..i] == trace[..i];
  }

  /** The TLB after a run that began with t; its clock stands still when there is no frame at all. */
  ghost predicate TlbAt(x: TlbLru.State, ways: nat, t: TlbLru.State, cfg: Mmu.Config, n: nat, trace: seq<Mmu.Access>) {
    && TlbLru.Shaped(t, ways) && var t' := TlbLru.Apply(t, ways, TlbTrace.RunOps(cfg, n, trace));
    x.table == t'.table && (n > 0 ==> x.timer == t'.timer)
  }

  /** Report i of a run, given what the TLB knows by then. */
  ghost predicate ReportAt(cfg: Mmu.Config, n: nat, trace: seq<Mmu.Access>, i: nat, t: TlbLru.State, ways: nat,
                           report: Report)
    requires i < |trace|
  {
    var known := TlbTrace.Knows(t, ways, TlbTrace.RunOps(cfg, n, trace[..i]), Mmu.PageOf(trace[i]));
    Reported(cfg, MmuRuns.Run(cfg, n, trace[..i]), trace[i], known, report)
  }

  ghost predicate ReportsAt(cfg: Mmu.Config, n: nat, trace: seq<Mmu.Access>, reports: seq<Report>, t: TlbLru.State,
                            ways: nat) {
    |reports| <= |trace| && forall i: nat :: i < |reports| ==> ReportAt(cfg, n, trace, i, t, ways, reports[i])
  }

  lemma ReportsGrow(cfg: Mmu.Config, n: nat, trace: seq<Mmu.Access>, reports: seq<Report>, t: TlbLru.State, ways: nat,
                    report: Report)
    requires ReportsAt(cfg, n, trace, reports, t, ways) && |reports| < |trace|
    requires ReportAt(cfg, n, trace, |reports|, t, ways, report)
    ensures ReportsAt(cfg, n, trace, reports + [report], t, ways)
  {
    hide ReportAt;
  }

  lemma TlbKnows(tlb: Tlb, t: TlbLru.State, cfg: Mmu.Config, n: nat, trace: seq<Mmu.Access>, page: nat)
    requires tlb.Valid() && TlbAt(TlbLru.StateOf(tlb), tlb.ways, t, cfg, n, trace)
    ensures tlb.Knows(page) <==> TlbTrace.Knows(t, tlb.ways, TlbTrace.RunOps(cfg, n, trace), page)
  {
    hide TableOk, Holds, TlbLru.Apply, TlbTrace.RunOps;
    assert |tlb.table| > 0 && forall f :: tlb.Cached(page, f) <==> InTable(tlb.table, page, f);
  }

  /** A translation on a TLB: a refused one leaves it alone, and any other serves the page. */
  ghost predicate TlbMoves(last: TlbLru.State, x: TlbLru.State, ways: nat, cfg: Mmu.Config, s: Mmu.State,
                           a: Mmu.Access)
    requires Mmu.Inv(s)
  {
    if Mmu.Result(cfg, Mmu.Step(cfg, s, a), a).None?
    then x.table == last.table && (|s.frames| > 0 ==> x.timer == last.timer)
    else TlbTrace.Follows(last, x, ways, TlbTrace.Ops(cfg, s, a))
  }

  lemma TlbOn(last: TlbLru.State, x: TlbLru.State, ways: nat, t: TlbLru.State, cfg: Mmu.Config, n: nat,
              trace: seq<Mmu.Access>, i: nat)
    requires i < |trace| && TlbAt(last, ways, t, cfg, n, trace[..i])
    requires TlbMoves(last, x, ways, cfg, MmuRuns.Run(cfg, n, trace[..i]), trace[i])
    ensures TlbAt(x, ways, t, cfg, n, trace[..i + 1])
  {
    hide MmuRuns.Run, Mmu.Step, Mmu.Result, TlbLru.Apply, TlbLru.Shaped;
    var s, ops := MmuRuns.Run(cfg, n, trace[..i]), TlbTrace.RunOps(cfg, n, trace[..i]);
    assert trace[..i + 1][..i] == trace[..i];
    TlbTrace.RunOpsExtend(cfg, n, trace, i);
    hide TlbTrace.RunOps, TlbTrace.Ops;
    if Mmu.Result(cfg, Mmu.Step(cfg, s, trace[i]), trace[i]).None? {
      assert TlbTrace.Ops(cfg, s, trace[i]) == [] by { TlbTrace.NoOps(cfg, s, trace[i]); }
      assert ops + [] == ops;
    } else {
      if n == 0 {
        MmuPages.NoAddress(cfg, s, trace[i]);
      }
      TlbLru.ApplyAll(t, ways, ops, TlbTrace.Ops(cfg, s, trace[i]));
    }
  }

  /**
   Translates a whole trace on a fresh unit: state and results are those of the reference unit, and the TLB is that of
   the run's services and shootdowns.
   */
  method TranslateAll(vm: VirtualMemory, tlb: Tlb, trace: seq<Mmu.Access>)
    returns (results: seq<int>, reports: seq<Report>)
    requires vm.Valid() && vm.Coherent(tlb) && vm.CachesValid() && vm.View() == Mmu.Fresh(|vm.frameTable|)
    requires forall a :: a in trace ==> Addressable(vm.Config(), a)
    modifies vm, vm.multi, tlb, vm.CacheRepr(), set n: PTNode | vm.multi.Owns(n)
    ensures vm.View() == MmuRuns.Run(old(vm.Config()), old(|vm.frameTable|), trace)
    ensures results == RawAll(MmuRuns.Results(old(vm.Config()), old(|vm.frameTable|), trace))
    ensures TlbAt(TlbLru.StateOf(tlb), tlb.ways, old(TlbLru.StateOf(tlb)), old(vm.Config()), old(|vm.frameTable|),
                  trace)
    ensures |reports| == |trace|
    ensures ReportsAt(old(vm.Config()), old(|vm.frameTable|), trace, reports, old(TlbLru.StateOf(tlb)), tlb.ways)
  {
    ghost var cfg, n, t, ways := vm.Config(), |vm.frameTable|, TlbLru.StateOf(tlb), tlb.ways;
    results, reports := [], [];
    hide VirtualMemory.Valid, VirtualMemory.View, VirtualMemory.CachesValid, Tlb.Valid, TlbAt, Mmu.Inv;
    hide TlbLru.Shaped, ReportAt, TlbTrace.RunOps, Mmu.Fresh;
    TlbLru.ValidShaped(tlb);
    TlbStart(t, ways, cfg, n);
    assert trace[..0] == [];
    for i := 0 to |trace|
      invariant vm.Valid() && vm.Coherent(tlb) && vm.CachesValid() && vm.Config() == cfg
      invariant vm.View() == MmuRuns.Run(cfg, n, trace[..i])
      invariant results == RawAll(MmuRuns.Results(cfg, n, trace[..i]))
      invariant TlbAt(TlbLru.StateOf(tlb), ways, t, cfg, n, trace[..i])
      invariant |reports| == i && ReportsAt(cfg, n, trace, reports, t, ways)
    {
      assert Addressable(cfg, trace[i]);
      ResultsGrow(cfg, n, trace, i);
      hide *;
      var physical, report := TranslateNext(vm, tlb, t, cfg, n, trace, i);
      ReportsGrow(cfg, n, trace, reports, t, ways, report);
      results, reports := results + [physical], reports + [report];
    }
    assert trace[..|trace|] == trace;
  }

  /** Translates access i of a trace. */
  method TranslateNext(vm: VirtualMemory, tlb: Tlb, ghost t: TlbLru.State, ghost cfg: Mmu.Config, ghost n: nat,
                       trace: seq<Mmu.Access>, i: nat)
    returns (physical: int, report: Report)
    requires vm.Valid() && vm.Coherent(tlb) && vm.CachesValid() && i < |trace| && Addressable(cfg, trace[i])
    requires vm.Config() == cfg && vm.View() == MmuRuns.Run(cfg, n, trace[..i])
    requires TlbAt(TlbLru.StateOf(tlb), tlb.ways, t, cfg, n, trace[..i])
    modifies vm, vm.multi, tlb, vm.CacheRepr(), set n: PTNode | vm.multi.Owns(n)
    ensures vm.Valid() && vm.Coherent(tlb) && vm.CachesValid() && vm.Config() == cfg
    ensures vm.View() == MmuRuns.Run(cfg, n, trace[..i + 1])
    ensures physical == Raw(Mmu.Result(cfg, vm.View(), trace[i]))
    ensures TlbAt(TlbLru.StateOf(tlb), tlb.ways, t, cfg, n, trace[..i + 1])
    ensures ReportAt(cfg, n, trace, i, t, tlb.ways, report)
  {
    ghost var last, ways := TlbLru.StateOf(tlb), tlb.ways;
    TlbKnows(tlb, t, cfg, n, trace[..i], Mmu.PageOf(trace[i]));
    ResultsExtend(cfg, n, trace, i);
    hide VirtualMemory.Valid, Tlb.Valid, Tlb.Cached, TlbAt, MmuRuns.Run, Mmu.Inv, Mmu.Step, Mmu.Result, Reported;
    hide TlbTrace.Knows, TlbTrace.Ops, TlbTrace.Follows, TlbTrace.RunOps;
    physical, report := vm.Translate(trace[i], tlb);
    TlbOn(last, TlbLru.StateOf(tlb), ways, t, cfg, n, trace, i);
  }

  lemma TlbStart(t: TlbLru.State, ways: nat, cfg: Mmu.Config, n: nat)
    requires TlbLru.Shaped(t, ways)
    ensures TlbAt(t, ways, t, cfg, n, [])
  {
  }

  /** A unit and a TLB as the program creates them: nothing is mapped, nothing is cached. */
  method NewUnit(caches: Cache.MemoryHierarchy?, policy: Mmu.Policy, frames: nat, virtualPages: nat, multiLevel: bool,
                 entries: nat, ways: nat)
    returns (vm: VirtualMemory, tlb: Tlb)
    requires virtualPages <= INT_LIMIT && 0 < ways <= entries
    ensures fresh(vm) && fresh(tlb) && fresh(vm.multi) && fresh(set n: PTNode | vm.multi.Owns(n))
    ensures vm.Valid() && vm.Coherent(tlb) && vm.cache == caches
    ensures vm.View() == Mmu.Fresh(frames) && vm.Config() == ConfigOf(policy, virtualPages, multiLevel)
    ensures tlb.ways == ways && tlb.sets == entries / ways > 0
    ensures TlbLru.StateOf(tlb) == TlbLru.Empty(entries / ways, ways)
  {
    vm := new VirtualMemory(caches, policy, frames, virtualPages);
    tlb := new Tlb(entries, ways);
    vm.SetMultiLevelPaging(multiLevel);
  }

  /** What result and report of access i of a run mean: who gets an address, and who is told what. */
  lemma ReportMeans(cfg: Mmu.Config, n: nat, trace: seq<Mmu.Access>, i: nat, sets: nat, ways: nat, report: Report)
    requires i < |trace| && sets > 0 && ways > 0
    requires ReportAt(cfg, n, trace, i, TlbLru.Empty(sets, ways), ways, report)
    ensures var (a, s) := (trace[i], MmuRuns.Run(cfg, n, trace[..i]));
      var open := a.vaddr < cfg.limit || (cfg.multiLevel && a.verdict == Mmu.Allowed);
      var known := TlbTrace.Recent(cfg, n, trace[..i], sets, ways, a.vaddr / 64);
      && |MmuRuns.Results(cfg, n, trace)| == |trace|
      && (RawAll(MmuRuns.Results(cfg, n, trace))[i] != -1 <==> n > 0 && a.verdict != Mmu.Denied && open)
      && (known ==> a.vaddr / 64 in s.pages)
      && report ==
        if a.verdict == Mmu.Denied then ProtectionFault else if !open then SegmentationFault
        else if known then TlbHit else if a.vaddr / 64 in s.pages then PageTableHit
        else if n > 0 then PageFault else NoFrames
  {
    hide MmuRuns.Run, MmuRuns.Results, Mmu.Inv, Mmu.Step, Mmu.Result, TlbLru.Apply, TlbTrace.RunOps;
    hide TlbTrace.Ranks, TlbLru.UseOrder, TlbLru.Kept;
    var a, s := trace[i], MmuRuns.Run(cfg, n, trace[..i]);
    TlbTrace.KnownPages(cfg, n, trace[..i], sets, ways, a.vaddr / 64);
    ResultAt(cfg, n, trace, i);
    if n == 0 {
      MmuPages.NoAddress(cfg, s, a);
    } else {
      MmuPages.AddressGiven(cfg, s, a);
    }
  }

  lemma {:induction false} ResultAt(cfg: Mmu.Config, n: nat, trace: seq<Mmu.Access>, i: nat)
    requires i < |trace|
    ensures |MmuRuns.Results(cfg, n, trace)| == |trace|
    ensures MmuRuns.Results(cfg, n, trace)[i] ==
      Mmu.Result(cfg, Mmu.Step(cfg, MmuRuns.Run(cfg, n, trace[..i]), trace[i]), trace[i])
  {
    hide Mmu.Step, Mmu.Result, Mmu.Inv;
    var last := |trace| - 1;
    ResultsExtend(cfg, n, trace, last);
    assert trace[..last + 1] == trace;
    hide MmuRuns.Run;
    if last > 0 {
      ResultAt(cfg, n, trace[..last], if i < last then i else 0);
    }
    if i < last {
      assert trace[..last][..i] == trace[..i];
    } else {
      hide MmuRuns.Results;
    }
  }

  /**
   A whole trace on a new unit, in either mode and with a TLB of any shape: the reference unit's results, and what each
   access is told.
   */
  method RunFresh(policy: Mmu.Policy, frames: nat, virtualPages: nat, multiLevel: bool,
                  entries: nat, ways: nat, trace: seq<Mmu.Access>)
    returns (results: seq<int>, reports: seq<Report>, ghost end: Mmu.State)
    requires virtualPages <= INT_LIMIT && 0 < ways <= entries
    requires forall a :: a in trace ==> Addressable(ConfigOf(policy, virtualPages, multiLevel), a)
    ensures results == RawAll(MmuRuns.Results(ConfigOf(policy, virtualPages, multiLevel), frames, trace))
    ensures end == MmuRuns.Run(ConfigOf(policy, virtualPages, multiLevel), frames, trace)
    ensures |results| == |reports| == |trace| && entries / ways > 0
    ensures forall i :: 0 <= i < |trace| ==>
      var (a, cfg) := (trace[i], ConfigOf(policy, virtualPages, multiLevel));
      var open := a.vaddr < (if multiLevel then 0x1_0000_0000_0000 else virtualPages * 64)
        || (multiLevel && a.verdict == Mmu.Allowed);
      var known := TlbTrace.Recent(cfg, frames, trace[..i], entries / ways, ways, a.vaddr / 64);
      && (results[i] != -1 <==> frames > 0 && a.verdict != Mmu.Denied && open)
      && reports[i] ==
        if a.verdict == Mmu.Denied then ProtectionFault else if !open then SegmentationFault
        else if known then TlbHit else if a.vaddr / 64 in MmuRuns.Run(cfg, frames, trace[..i]).pages then PageTableHit
        else if frames > 0 then PageFault else NoFrames
  {
    var vm, tlb := NewUnit(null, policy, frames, virtualPages, multiLevel, entries, ways);
    results, reports := TranslateAll(vm, tlb, trace);
    end := vm.View();
    ghost var cfg := ConfigOf(policy, virtualPages, multiLevel);
    hide VirtualMemory.Valid, Tlb.Valid, ReportAt, MmuRuns.Run, MmuRuns.Results, RawAll, TlbTrace.Recent;
    assert |MmuRuns.Results(cfg, frames, trace)| == |trace| by { if trace != [] { ResultAt(cfg, frames, trace, 0); } }
    forall i | 0 <= i < |trace| {
      ReportMeans(cfg, frames, trace, i, entries / ways, ways, reports[i]);
    }
  }

  function ConfigOf(policy: Mmu.Policy, virtualPages: nat, multiLevel: bool): Mmu.Config {
    Mmu.Config(policy, if multiLevel then ML_VIRTUAL_MEM_SIZE else virtualPages * PAGE_SIZE, multiLevel)
  }

  /**
   The same trace with flat and with four-level paging, each with a TLB of its own shape, gives the same addresses and
   ends with the same resident pages in the same frames and the same hits, faults and disk accesses.
   */
  method CompareModes(policy: Mmu.Policy, frames: nat, virtualPages: nat,
                      entries1: nat, ways1: nat, entries2: nat, ways2: nat, trace: seq<Mmu.Access>)
    returns (flat: seq<int>, tree: seq<int>, ghost flatEnd: Mmu.State, ghost treeEnd: Mmu.State)
    requires virtualPages <= INT_LIMIT && 0 < ways1 <= entries1 && 0 < ways2 <= entries2
    requires forall a :: a in trace ==> a.vaddr < virtualPages * PAGE_SIZE
    ensures flat == tree && flatEnd == treeEnd
    ensures flat == RawAll(MmuRuns.Results(ConfigOf(policy, virtualPages, false), frames, trace))
    ensures flatEnd == MmuRuns.Run(ConfigOf(policy, virtualPages, false), frames, trace)
  {
    var flatReports, treeReports;
    flat, flatReports, flatEnd := RunFresh(policy, frames, virtualPages, false, entries1, ways1, trace);
    tree, treeReports, treeEnd := RunFresh(policy, frames, virtualPages, true, entries2, ways2, trace);
    MmuRuns.ModeEquivalence(policy, virtualPages * PAGE_SIZE, ML_VIRTUAL_MEM_SIZE, frames, trace);
  }

  // ---------- translation and caches ----------

  /** The machine as a state of the reference system, with a given history of what was fetched when. */
  ghost function SystemOf(vm: VirtualMemory, origin: MemorySystem.Slot -> MemorySystem.Origin): MemorySystem.System
    requires vm.cache != null
    reads vm, vm.cache.l1, vm.cache.l2, vm.cache.l3
  {
    MemorySystem.System(vm.View(), vm.cache.Levels(), origin)
  }

  /** Asks the caches for a physical address; the unit does not notice. */
  method AskCaches(vm: VirtualMemory, ghost tlb: Tlb, physical: nat, isWrite: bool)
    returns (outcome: CacheModel.Outcome)
    requires vm.cache != null && vm.Valid() && vm.Coherent(tlb) && vm.CachesValid()
    modifies vm.CacheRepr()
    ensures vm.Valid() && vm.Coherent(tlb) && vm.CachesValid() && vm.CacheLevels().Some?
    ensures vm.View() == old(vm.View()) && vm.Config() == old(vm.Config())
    ensures var h := old(vm.CacheLevels());
      h.Some? && (vm.CacheLevels().value, outcome) == CacheModel.Request(h.value, physical, isWrite)
  {
    hide VirtualMemory.Valid, VirtualMemory.Coherent, CacheModel.Request, CacheModel.AllShaped;
    outcome := vm.cache.Request(physical, isWrite);
  }

  /** One read or write: translate, then request the physical address from the caches. */
  method ReadOrWrite(vm: VirtualMemory, tlb: Tlb, a: Mmu.Access, ghost origin: MemorySystem.Slot -> MemorySystem.Origin)
    returns (physical: int, outcome: Option<CacheModel.Outcome>)
    requires vm.cache != null && vm.Valid() && vm.Coherent(tlb) && vm.CachesValid() && Addressable(vm.Config(), a)
    requires MemorySystem.Sound(SystemOf(vm, origin))
    modifies vm, vm.multi, tlb, vm.CacheRepr(), set n: PTNode | vm.multi.Owns(n)
    ensures vm.Valid() && vm.Coherent(tlb) && vm.CachesValid() && vm.Config() == old(vm.Config())
    ensures var s := MemorySystem.Step(old(vm.Config()), old(SystemOf(vm, origin)), a);
      SystemOf(vm, s.origin) == s
    ensures physical == Raw(Mmu.Result(old(vm.Config()), vm.View(), a)) && (outcome.Some? <==> physical != -1)
    ensures outcome == MemorySystem.Answer(old(vm.Config()), old(SystemOf(vm, origin)), a)
  {
    ghost var sys, cfg := SystemOf(vm, origin), vm.Config();
    CacheContents.AllOkShaped(sys.caches);
    hide Mmu.Step, Mmu.Result, Mmu.Inv, MemorySystem.TakenFrame;
    hide MemorySystem.Swept, CacheModel.Request, CacheModel.AllShaped;
    hide VirtualMemory.Valid, VirtualMemory.Coherent, VirtualMemory.View, VirtualMemory.Config, CacheModel.Ok;
    var report;
    physical, report := vm.Translate(a, tlb);
    outcome := None;
    if physical != -1 {
      var o := AskCaches(vm, tlb, physical, a.write);
      outcome := Some(o);
    }
  }

  lemma SystemExtend(cfg: Mmu.Config, start: MemorySystem.System, n: nat, trace: seq<Mmu.Access>, i: nat)
    requires MemorySystem.Initial(start, n) && i < |trace|
    ensures MemorySystem.Sound(MemorySystem.Run(cfg, start, n, trace[..i]))
    ensures MemorySystem.Run(cfg, start, n, trace[..i + 1]) ==
      MemorySystem.Step(cfg, MemorySystem.Run(cfg, start, n, trace[..i]), trace[i])
    ensures MemorySystem.Answers(cfg, start, n, trace[..i + 1]) ==
      MemorySystem.Answers(cfg, start, n, trace[..i])
        + [MemorySystem.Answer(cfg, MemorySystem.Run(cfg, start, n, trace[..i]), trace[i])]
  {
    assert trace[..i + 1][..i] == trace[..i];
  }

  /**
   Reads and writes a whole trace on a machine just started: it ends where the reference system ends, and the caches
   answer every access as there.
   */
  method RunMachine(vm: VirtualMemory, tlb: Tlb, trace: seq<Mmu.Access>, ghost start: MemorySystem.System, ghost n: nat)
    returns (outcomes: seq<Option<CacheModel.Outcome>>, ghost end: MemorySystem.System)
    requires vm.cache != null && vm.Valid() && vm.Coherent(tlb) && vm.CachesValid()
    requires MemorySystem.Initial(start, n) && SystemOf(vm, start.origin) == start
    requires forall a :: a in trace ==> Addressable(vm.Config(), a)
    modifies vm, vm.multi, tlb, vm.CacheRepr(), set n: PTNode | vm.multi.Owns(n)
    ensures end == MemorySystem.Run(old(vm.Config()), start, n, trace) && SystemOf(vm, end.origin) == end
    ensures outcomes == MemorySystem.Answers(old(vm.Config()), start, n, trace)
  {
    ghost var cfg := vm.Config();
    end, outcomes := start, [];
    for i := 0 to |trace|
      invariant vm.Valid() && vm.Coherent(tlb) && vm.CachesValid() && vm.Config() == cfg
      invariant SystemOf(vm, end.origin) == end == MemorySystem.Run(cfg, start, n, trace[..i])
      invariant outcomes == MemorySystem.Answers(cfg, start, n, trace[..i])
    {
      assert Addressable(cfg, trace[i]);
      SystemExtend(cfg, start, n, trace, i);
      hide *;
      var physical, outcome := ReadOrWrite(vm, tlb, trace[i], end.origin);
      outcomes := outcomes + [outcome];
      end := MemorySystem.Step(cfg, end, trace[i]);
    }
    assert trace[..|trace|] == trace;
  }

  // ---------- a machine from its parts ----------

  /** Size, block size and ways of a cache level. */
  datatype Shape = Shape(size: nat, block: nat, assoc: nat)

  /** What the program's shifts and remainders assume of a level, and that its blocks do not straddle frames. */
  ghost predicate Regular(c: Shape) {
    (c.block > 0 ==> IsPow2(c.block) && PAGE_SIZE % c.block == 0) && (c.size > 0 ==> c.block * c.assoc <= c.size)
  }

  /** The level's constructor throws nothing. */
  ghost predicate Accepted(c: Shape) {
    c.size > 0 && c.block > 0 && c.assoc > 0 && IsPow2(c.size / (c.block * c.assoc))
  }

  ghost function EmptyOf(c: Shape, p: CacheModel.Policy): CacheModel.Level
    requires Accepted(c)
  {
    CacheModel.EmptyLevel(c.block, c.assoc, c.size / (c.block * c.assoc), p)
  }

  /** Three empty levels; None if one of the constructors throws. */
  method BuildCaches(c1: Shape, c2: Shape, c3: Shape, p: CacheModel.Policy) returns (h: Option<Cache.MemoryHierarchy>)
    requires Regular(c1) && Regular(c2) && Regular(c3)
    ensures h.Some? <==> Accepted(c1) && Accepted(c2) && Accepted(c3)
    ensures h.Some? ==>
      && fresh({h.value.l1, h.value.l2, h.value.l3}) && h.value.Valid()
      && h.value.Levels() == CacheModel.Hierarchy(EmptyOf(c1, p), EmptyOf(c2, p), EmptyOf(c3, p))
  {
    hide CacheModel.EmptyLevel;
    var l1 := Cache.MakeLevel(c1.size, c1.block, c1.assoc, p);
    var l2 := Cache.MakeLevel(c2.size, c2.block, c2.assoc, p);
    var l3 := Cache.MakeLevel(c3.size, c3.block, c3.assoc, p);
    if l1.None? || l2.None? || l3.None? {
      return None;
    }
    var caches := new Cache.MemoryHierarchy(l1.value, l2.value, l3.value);
    return Some(caches);
  }

  lemma EmptyOk(c: Shape, p: CacheModel.Policy)
    requires Regular(c) && Accepted(c)
    ensures var l := EmptyOf(c, p);
      CacheModel.Ok(l) && CacheContents.Divides(l) && forall b: nat :: !CacheModel.Contains(l, b)
  {
  }

  lemma EmptyNew(c: Shape, p: CacheModel.Policy)
    requires Regular(c) && Accepted(c)
    ensures CacheModel.Ok(EmptyOf(c, p)) && MemoryHistory.New(EmptyOf(c, p))
  {
    EmptyOk(c, p);
  }

  /** Empty caches and n unmapped frames. */
  ghost function StartOf(c1: Shape, c2: Shape, c3: Shape, p: CacheModel.Policy, n: nat): MemorySystem.System
    requires Accepted(c1) && Accepted(c2) && Accepted(c3)
  {
    var h := CacheModel.Hierarchy(EmptyOf(c1, p), EmptyOf(c2, p), EmptyOf(c3, p));
    MemorySystem.System(Mmu.Fresh(n), h, _ => MemorySystem.Origin(0, 0))
  }

  /** A machine with empty caches and n unmapped frames is at the start of a run. */
  lemma StartInitial(c1: Shape, c2: Shape, c3: Shape, p: CacheModel.Policy, n: nat)
    requires Regular(c1) && Regular(c2) && Regular(c3) && Accepted(c1) && Accepted(c2) && Accepted(c3) && n > 0
    ensures MemorySystem.Initial(StartOf(c1, c2, c3, p, n), n)
  {
    EmptyOk(c1, p);
    EmptyOk(c2, p);
    EmptyOk(c3, p);
    hide EmptyOf, CacheModel.Contains, CacheModel.Ok, Mmu.Inv, Mmu.Fresh;
    Mmu.FreshInv(n);
  }

  ghost function GeometryOf(c: Shape): (g: CacheLru.Geometry)
    requires Regular(c) && Accepted(c)
    ensures CacheLru.Usable(g)
  {
    CacheLru.Geometry(c.block, c.assoc, c.size / (c.block * c.assoc))
  }

  /** Where move-to-front lists of the levels' shapes find the data of each access. */
  ghost function ListAnswers(cfg: Mmu.Config, n: nat, c1: Shape, c2: Shape, c3: Shape, trace: seq<Mmu.Access>):
    seq<Option<CacheModel.Outcome>>
    requires Regular(c1) && Regular(c2) && Regular(c3) && Accepted(c1) && Accepted(c2) && Accepted(c3)
  {
    var lists := CacheLru.EmptyLists(GeometryOf(c1), GeometryOf(c2), GeometryOf(c3));
    MemoryLru.Run(cfg, n, lists, trace).1
  }

  lemma DocumentedRun(cfg: Mmu.Config, start: MemorySystem.System, n: nat, c1: Shape, c2: Shape, c3: Shape,
                      p: CacheModel.Policy, trace: seq<Mmu.Access>)
    requires Regular(c1) && Regular(c2) && Regular(c3) && Accepted(c1) && Accepted(c2) && Accepted(c3)
    requires MemorySystem.Initial(start, n)
    requires start.caches == CacheModel.Hierarchy(EmptyOf(c1, p), EmptyOf(c2, p), EmptyOf(c3, p))
    ensures var h := MemorySystem.Run(cfg, start, n, trace).caches;
      && MemoryHistory.Documented(EmptyOf(c1, p), h.l1) && MemoryHistory.Documented(EmptyOf(c2, p), h.l2)
      && MemoryHistory.Documented(EmptyOf(c3, p), h.l3)
  {
    EmptyNew(c1, p);
    EmptyNew(c2, p);
    EmptyNew(c3, p);
    hide EmptyOf, MemorySystem.Initial, MemorySystem.Run, MemoryHistory.Documented, MemoryHistory.New, CacheModel.Ok;
    MemoryHistory.RunDocumented(cfg, start, n, trace);
  }

  lemma LruAnswers(cfg: Mmu.Config, start: MemorySystem.System, n: nat, c1: Shape, c2: Shape, c3: Shape,
                   trace: seq<Mmu.Access>)
    requires Regular(c1) && Regular(c2) && Regular(c3) && Accepted(c1) && Accepted(c2) && Accepted(c3)
    requires MemorySystem.Initial(start, n)
    requires start.caches ==
      CacheModel.Hierarchy(EmptyOf(c1, CacheModel.Lru), EmptyOf(c2, CacheModel.Lru), EmptyOf(c3, CacheModel.Lru))
    ensures MemorySystem.Answers(cfg, start, n, trace) == ListAnswers(cfg, n, c1, c2, c3, trace)
  {
    hide CacheModel.EmptyLevel, Regular, MemorySystem.Initial, MemoryLru.Run, MemorySystem.Answers;
    MemoryLru.AnswersFromEmpty(cfg, start, GeometryOf(c1), GeometryOf(c2), GeometryOf(c3), n, trace);
  }

  /**
   A whole trace on a machine put together from new parts: at its end every valid line of any cache lies in a mapped
   frame and holds what was fetched for the page now in that frame since that page was loaded. With LRU caches every
   access finds its data where move-to-front lists find it. None if a cache constructor throws.
   */
  method RunFromStart(policy: Mmu.Policy, frames: nat, virtualPages: nat, multiLevel: bool, entries: nat, ways: nat,
                      c1: Shape, c2: Shape, c3: Shape, p: CacheModel.Policy, trace: seq<Mmu.Access>)
    returns (machine: Option<VirtualMemory>, outcomes: seq<Option<CacheModel.Outcome>>,
             ghost end: Option<MemorySystem.System>)
    requires virtualPages <= INT_LIMIT && 0 < ways <= entries && frames > 0
    requires Regular(c1) && Regular(c2) && Regular(c3)
    requires forall a :: a in trace ==> Addressable(ConfigOf(policy, virtualPages, multiLevel), a)
    ensures machine.Some? <==> Accepted(c1) && Accepted(c2) && Accepted(c3)
    ensures machine.Some? ==>
      && machine.value.cache != null && end.Some? && SystemOf(machine.value, end.value.origin) == end.value
      && end.value.mmu == MmuRuns.Run(ConfigOf(policy, virtualPages, multiLevel), frames, trace)
      && CacheModel.AllShaped(end.value.caches) && MemorySystem.NoStaleLine(end.value)
    ensures machine.Some? ==>
      var cfg, start := ConfigOf(policy, virtualPages, multiLevel), StartOf(c1, c2, c3, p, frames);
      && MemorySystem.Initial(start, frames) && end.value == MemorySystem.Run(cfg, start, frames, trace)
      && outcomes == MemorySystem.Answers(cfg, start, frames, trace)
    ensures machine.Some? ==>
      && MemoryHistory.Documented(EmptyOf(c1, p), end.value.caches.l1)
      && MemoryHistory.Documented(EmptyOf(c2, p), end.value.caches.l2)
      && MemoryHistory.Documented(EmptyOf(c3, p), end.value.caches.l3)
    ensures machine.Some? && p == CacheModel.Lru ==>
      outcomes == ListAnswers(ConfigOf(policy, virtualPages, multiLevel), frames, c1, c2, c3, trace)
  {
    hide Cache.CacheLevel.Valid, Regular, VirtualMemory.Valid, VirtualMemory.Coherent, VirtualMemory.View;
    hide MemorySystem.Sound, MemorySystem.NoStaleLine, Mmu.Fresh;
    var caches := BuildCaches(c1, c2, c3, p);
    if caches.None? {
      return None, [], None;
    }
    hide EmptyOf;
    var vm, tlb := NewUnit(caches.value, policy, frames, virtualPages, multiLevel, entries, ways);
    StartInitial(c1, c2, c3, p, frames);
    ghost var start := StartOf(c1, c2, c3, p, frames);
    assert SystemOf(vm, start.origin) == start;
    ghost var cfg := ConfigOf(policy, virtualPages, multiLevel);
    ghost var last;
    outcomes, last := RunMachine(vm, tlb, trace, start, frames);
    MemorySystem.RunFollowsMmu(cfg, start, frames, trace);
    DocumentedRun(cfg, start, frames, c1, c2, c3, p, trace);
    if p == CacheModel.Lru {
      LruAnswers(cfg, start, frames, c1, c2, c3, trace);
    }
    return Some(vm), outcomes, Some(last);
  }
}
