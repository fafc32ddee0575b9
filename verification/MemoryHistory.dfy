/** Whole runs of the machine: every cache line records the history of its block, under any policy. */
module MemoryHistory {
  import opened Common
  import Mmu
  import opened CacheModel
  import opened CacheHistory
  import opened CacheTraffic
  import opened MemorySystem

  lemma SweptMade(h0: Hierarchy, h: Hierarchy, frame: Option<nat>)
    requires AllShaped(h) && AllMadeFrom(h0, h)
    ensures AllMadeFrom(h0, Swept(h, frame))
  {
    hide MadeFrom, InvalidateRange;
    if frame.Some? {
      var from := frame.value * PAGE_SIZE;
      RangeMade(h0.l1, h.l1, from, from + PAGE_SIZE);
      RangeMade(h0.l2, h.l2, from, from + PAGE_SIZE);
      RangeMade(h0.l3, h.l3, from, from + PAGE_SIZE);
    }
  }

  lemma StepMade(cfg: Mmu.Config, h0: Hierarchy, sys: System, a: Mmu.Access)
    requires Sound(sys) && AllShaped(sys.caches) && NoStaleLine(sys) && AllMadeFrom(h0, sys.caches)
    ensures AllMadeFrom(h0, MemorySystem.Step(cfg, sys, a).caches)
  {
    hide MadeFrom, Request, Mmu.Step, Mmu.Result, TakenFrame, Ok, Contains, Mmu.Inv;
    SweptMade(h0, sys.caches, TakenFrame(cfg, sys.mmu, a));
    SweptCurrent(cfg, sys, a);
    var h := Swept(sys.caches, TakenFrame(cfg, sys.mmu, a));
    match Mmu.Result(cfg, Mmu.Step(cfg, sys.mmu, a), a)
    case None =>
    case Some(p) => RequestMade(h0, h, p, a.write);
  }

  lemma {:induction false} RunMade(cfg: Mmu.Config, start: System, n: nat, trace: seq<Mmu.Access>)
    requires Initial(start, n)
    ensures AllMadeFrom(start.caches, MemorySystem.Run(cfg, start, n, trace).caches)
  {
    hide MemorySystem.Step, MadeFrom;
    if trace == [] {
      StartMade(start.caches.l1);
      StartMade(start.caches.l2);
      StartMade(start.caches.l3);
    } else {
      var before := trace[..|trace| - 1];
      RunMade(cfg, start, n, before);
      StepMade(cfg, start.caches, MemorySystem.Run(cfg, start, n, before), trace[|trace| - 1]);
    }
  }

  lemma StartMade(l: Level)
    requires Shaped(l)
    ensures MadeFrom(l, l)
  {
    assert Legal(l, []) && ApplyAll(l, []) == l;
  }

  /** A level that has not been used. */
  ghost predicate New(l: Level) {
    Shaped(l) && l.counter == l.hits == l.misses == 0 && forall i: nat, w: nat :: !ValidAt(l, i, w)
  }

  /** The level came from a new one by operations that its lines and counters record. */
  ghost predicate Documented(l0: Level, l: Level) {
    && Shaped(l0) && Shaped(l)
    && exists ops ::
         && Legal(l0, ops) && l == ApplyAll(l0, ops) && Recorded(l, ops)
         && l.counter == Asked(ops) && l.hits == HitCount(l0, ops) && l.hits + l.misses == Asked(ops)
  }

  lemma MadeDocumented(l0: Level, l: Level)
    requires MadeFrom(l0, l) && Ok(l0) && New(l0)
    ensures Documented(l0, l)
  {
    var ops :| Legal(l0, ops) && l == ApplyAll(l0, ops);
    LinesRecord(l0, ops);
    hide Legal, ApplyAll, Recorded;
  }

  /**
   After any run of the machine from new caches each level is the outcome of a sequence of probes, fills and drops, and
   each valid line records from it how often its block was used since it was put in, whether it was written, and when it
   was put in and last used.
   */
  lemma RunDocumented(cfg: Mmu.Config, start: System, n: nat, trace: seq<Mmu.Access>)
    requires Initial(start, n) && New(start.caches.l1) && New(start.caches.l2) && New(start.caches.l3)
    ensures var h0, h := start.caches, MemorySystem.Run(cfg, start, n, trace).caches;
      Documented(h0.l1, h.l1) && Documented(h0.l2, h.l2) && Documented(h0.l3, h.l3)
  {
    RunMade(cfg, start, n, trace);
    hide MemorySystem.Run, Ok, New, MadeFrom, Documented;
    MadeDocumented(start.caches.l1, MemorySystem.Run(cfg, start, n, trace).caches.l1);
    MadeDocumented(start.caches.l2, MemorySystem.Run(cfg, start, n, trace).caches.l2);
    MadeDocumented(start.caches.l3, MemorySystem.Run(cfg, start, n, trace).caches.l3);
  }
}
