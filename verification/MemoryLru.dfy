/** The whole memory system under LRU caches, without timestamps: translation and move-to-front lists. */
module MemoryLru {
  import opened Common
  import Mmu
  import MmuRuns
  import CacheModel
  import MemorySystem
  import opened CacheLru

  /** One access: the lists lose the frame that changes hands, then answer the request. */
  ghost function Step(cfg: Mmu.Config, m: Mmu.State, r: RHierarchy, a: Mmu.Access):
    (s: (RHierarchy, Option<CacheModel.Outcome>))
    requires Mmu.Inv(m) && AllShapedR(r)
    ensures AllShapedR(s.0)
  {
    var taken := MemorySystem.TakenFrame(cfg, m, a);
    var r' := if taken.Some? then InvalidateFrameR(r, taken.value * PAGE_SIZE, PAGE_SIZE) else r;
    match Mmu.Result(cfg, Mmu.Step(cfg, m, a), a)
    case None => (r', None)
    case Some(p) => var (r'', o) := RequestR(r', p, a.write); (r'', Some(o))
  }

  /** The lists after a trace on n frames, and where each access found its data. */
  ghost function Run(cfg: Mmu.Config, n: nat, r: RHierarchy, trace: seq<Mmu.Access>):
    (s: (RHierarchy, seq<Option<CacheModel.Outcome>>))
    requires AllShapedR(r)
    ensures AllShapedR(s.0)
  {
    if trace == [] then (r, [])
    else
      var before, a := trace[..|trace| - 1], trace[|trace| - 1];
      var (r', answers) := Run(cfg, n, r, before);
      var (r'', o) := Step(cfg, MmuRuns.Run(cfg, n, before), r', a);
      (r'', answers + [o])
  }

  lemma StepRealises(cfg: Mmu.Config, sys: MemorySystem.System, r: RHierarchy, a: Mmu.Access)
    requires MemorySystem.Sound(sys) && RealisesH(sys.caches, r)
    ensures AllShapedR(r)
    ensures var (r', o) := Step(cfg, sys.mmu, r, a);
      RealisesH(MemorySystem.Step(cfg, sys, a).caches, r') && MemorySystem.Answer(cfg, sys, a) == o
  {
    hide RealisesH, Mmu.Inv, Mmu.Step, Mmu.Result, MemorySystem.TakenFrame;
    hide CacheModel.Request, RequestR, CacheModel.InvalidateFrame, InvalidateFrameR;
    RealisesShaped(sys.caches, r);
    var taken := MemorySystem.TakenFrame(cfg, sys.mmu, a);
    if taken.Some? {
      InvalidateFrameRealises(sys.caches, r, taken.value * PAGE_SIZE, PAGE_SIZE);
    }
    var h := MemorySystem.Swept(sys.caches, taken);
    var r' := if taken.Some? then InvalidateFrameR(r, taken.value * PAGE_SIZE, PAGE_SIZE) else r;
    match Mmu.Result(cfg, Mmu.Step(cfg, sys.mmu, a), a)
    case None =>
    case Some(p) => RequestRealises(h, r', p, a.write);
  }

  /**
   On every trace the caches of a machine that starts in step with move-to-front lists find each access's data where
   the lists find it, whatever the paging policy and mode.
   */
  lemma {:induction false} AnswersOfLists(cfg: Mmu.Config, start: MemorySystem.System, r: RHierarchy, n: nat,
                                          trace: seq<Mmu.Access>)
    requires MemorySystem.Initial(start, n) && RealisesH(start.caches, r)
    ensures AllShapedR(r)
    ensures RealisesH(MemorySystem.Run(cfg, start, n, trace).caches, Run(cfg, n, r, trace).0)
    ensures MemorySystem.Answers(cfg, start, n, trace) == Run(cfg, n, r, trace).1
  {
    hide RealisesH, Step, MemorySystem.Step, MemorySystem.Answer, MemorySystem.Sound;
    RealisesShaped(start.caches, r);
    if trace != [] {
      var before, a := trace[..|trace| - 1], trace[|trace| - 1];
      AnswersOfLists(cfg, start, r, n, before);
      MemorySystem.RunFollowsMmu(cfg, start, n, before);
      StepRealises(cfg, MemorySystem.Run(cfg, start, n, before), Run(cfg, n, r, before).0, a);
    }
  }

  /** The same from three empty levels on. */
  lemma AnswersFromEmpty(cfg: Mmu.Config, start: MemorySystem.System, g1: Geometry, g2: Geometry, g3: Geometry,
                         n: nat, trace: seq<Mmu.Access>)
    requires MemorySystem.Initial(start, n) && Usable(g1) && Usable(g2) && Usable(g3)
    requires start.caches == EmptyLru(g1, g2, g3)
    ensures MemorySystem.Answers(cfg, start, n, trace) == Run(cfg, n, EmptyLists(g1, g2, g3), trace).1
  {
    EmptyHierarchy(g1, g2, g3);
    AnswersOfLists(cfg, start, EmptyLists(g1, g2, g3), n, trace);
  }
}
