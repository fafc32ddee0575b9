/**
 Translation and caches together: every access is translated and then requested from the caches, and the
 translation drops the cached lines of a frame it takes from a page.
 */
module MemorySystem {
  import opened Common
  import Mmu
  import MmuRuns
  import CacheModel
  import opened CacheContents

  /** A line a level may hold: level 1, 2 or 3, and the number of its block. */
  datatype Slot = Slot(level: nat, block: nat)

  /** For which page, and when, the data of a line was fetched from memory. */
  datatype Origin = Origin(page: int, time: nat)

  /** `origin` is a history of the run; the hardware does not store it. */
  datatype System = System(mmu: Mmu.State, caches: CacheModel.Hierarchy, origin: Slot -> Origin)

  function LevelOf(h: CacheModel.Hierarchy, level: nat): CacheModel.Level {
    if level == 1 then h.l1 else if level == 2 then h.l2 else h.l3
  }

  /** The hierarchy holds a valid line of the block at that level. */
  ghost predicate Holds(h: CacheModel.Hierarchy, s: Slot)
    requires CacheModel.AllShaped(h)
  {
    1 <= s.level <= 3 && CacheModel.Contains(LevelOf(h, s.level), s.block)
  }

  function FrameOf(h: CacheModel.Hierarchy, s: Slot): nat {
    s.block * LevelOf(h, s.level).blockSize / PAGE_SIZE
  }

  /** The frame that the translation takes from another page. */
  ghost function TakenFrame(cfg: Mmu.Config, s: Mmu.State, a: Mmu.Access): Option<nat>
    requires Mmu.Inv(s)
  {
    var s1 := Mmu.Charge(Mmu.Tick(s));
    if Mmu.Admitted(cfg, a) && Mmu.PageOf(a) !in s.pages && Mmu.Full(s1) then Some(Mmu.Victim(cfg.policy, s1)) else None
  }

  ghost predicate Sound(sys: System) {
    && Mmu.Inv(sys.mmu) && |sys.mmu.frames| > 0 && CacheModel.AllOk(sys.caches)
    && Divides(sys.caches.l1) && Divides(sys.caches.l2) && Divides(sys.caches.l3)
  }

  /** The line lies in a mapped frame and holds what was fetched for the present page, since that was loaded. */
  ghost predicate Current(m: Mmu.State, frame: nat, o: Origin) {
    && frame < |m.frames| && m.frames[frame] == o.page
    && o.page in m.pages && m.pages[o.page].loaded <= o.time <= m.clock
  }

  ghost predicate NoStaleLine(sys: System)
    requires CacheModel.AllShaped(sys.caches)
  {
    forall s :: Holds(sys.caches, s) ==> Current(sys.mmu, FrameOf(sys.caches, s), sys.origin(s))
  }

  ghost function Swept(h: CacheModel.Hierarchy, frame: Option<nat>): (h': CacheModel.Hierarchy)
    requires CacheModel.AllShaped(h)
    ensures CacheModel.AllSameShape(h, h')
  {
    if frame.Some? then CacheModel.InvalidateFrame(h, frame.value * PAGE_SIZE, PAGE_SIZE) else h
  }

  /** The line that a request takes its data from; None if the data comes from memory. */
  ghost function Source(h: CacheModel.Hierarchy, p: nat, write: bool): Option<Slot>
    requires CacheModel.AllShaped(h)
  {
    match CacheModel.Request(h, p, write).1
    case L1Hit => Some(Slot(1, CacheModel.BlockOf(h.l1, p)))
    case L2Hit => Some(Slot(2, CacheModel.BlockOf(h.l2, p)))
    case L3Hit => Some(Slot(3, CacheModel.BlockOf(h.l3, p)))
    case RamMiss => None
  }

  /** A new line holds what its source held; a line that stays keeps its origin. */
  ghost function Tracked(sys: System, h: CacheModel.Hierarchy, source: Option<Slot>, fetched: Origin): Slot -> Origin
    requires CacheModel.AllShaped(h)
  {
    (s: Slot) =>
      if Holds(h, s) then sys.origin(s) else if source.Some? then sys.origin(source.value) else fetched
  }

  /**
   One access: translate, drop the lines of a frame that changes hands, then request the physical address.
   Lines filled from a lower level inherit the origin of the line they are copied from.
   */
  ghost function Step(cfg: Mmu.Config, sys: System, a: Mmu.Access): System
    requires Sound(sys)
  {
    AllOkShaped(sys.caches);
    var m := Mmu.Step(cfg, sys.mmu, a);
    var h := Swept(sys.caches, TakenFrame(cfg, sys.mmu, a));
    match Mmu.Result(cfg, m, a)
    case None => System(m, h, sys.origin)
    case Some(p) =>
      System(m, CacheModel.Request(h, p, a.write).0,
             Tracked(sys, h, Source(h, p, a.write), Origin(Mmu.PageOf(a), m.clock)))
  }

  /** What the caches answer to the access: where the data was found; None if there is no physical address. */
  ghost function Answer(cfg: Mmu.Config, sys: System, a: Mmu.Access): Option<CacheModel.Outcome>
    requires Sound(sys)
  {
    AllOkShaped(sys.caches);
    var h := Swept(sys.caches, TakenFrame(cfg, sys.mmu, a));
    match Mmu.Result(cfg, Mmu.Step(cfg, sys.mmu, a), a)
    case None => None
    case Some(p) => Some(CacheModel.Request(h, p, a.write).1)
  }

  lemma SweptHolds(h: CacheModel.Hierarchy, frame: nat)
    requires CacheModel.AllOk(h) && Divides(h.l1) && Divides(h.l2) && Divides(h.l3)
    ensures CacheModel.AllShaped(h) && CacheModel.AllOk(Swept(h, Some(frame)))
    ensures forall s :: Holds(Swept(h, Some(frame)), s) <==> Holds(h, s) && FrameOf(h, s) != frame
  {
    AllOkShaped(h);
    SweepClearsFrame(h.l1, frame);
    SweepClearsFrame(h.l2, frame);
    SweepClearsFrame(h.l3, frame);
    hide CacheModel.Contains, CacheModel.Ok, CacheModel.InvalidateRange;
    assert frame * PAGE_SIZE + PAGE_SIZE == (frame * PAGE_SIZE) + PAGE_SIZE;
  }

  /** A translation leaves alone what the frames hold, except the frame it takes. */
  lemma OthersStayCurrent(cfg: Mmu.Config, m: Mmu.State, a: Mmu.Access, frame: nat, o: Origin)
    requires Mmu.Inv(m) && Current(m, frame, o) && TakenFrame(cfg, m, a) != Some(frame)
    ensures Current(Mmu.Step(cfg, m, a), frame, o)
  {
    var page := Mmu.PageOf(a);
    if Mmu.Admitted(cfg, a) && page !in m.pages {
      Mmu.TickInv(m);
      var c := Mmu.Charge(Mmu.Tick(m));
      if c.free != [] {
        assert c.frames[c.free[0]] == -1;
      } else {
        Mmu.EvictInv(cfg.policy, c);
        assert Mmu.MappingOf(c, Mmu.Victim(cfg.policy, c)).frame == Mmu.Victim(cfg.policy, c);
      }
    }
  }

  /** A frame that held a page holds another one afterwards exactly when it is the frame taken. */
  lemma TakenIsLost(cfg: Mmu.Config, m: Mmu.State, a: Mmu.Access, frame: nat)
    requires Mmu.Inv(m) && frame < |m.frames| && m.frames[frame] >= 0
    ensures var m' := Mmu.Step(cfg, m, a);
      frame < |m'.frames| && (m'.frames[frame] == m.frames[frame] <==> TakenFrame(cfg, m, a) != Some(frame))
  {
    var page := Mmu.PageOf(a);
    Mmu.StepInv(cfg, m, a);
    if Mmu.Admitted(cfg, a) && page !in m.pages {
      Mmu.TickInv(m);
      var c := Mmu.Charge(Mmu.Tick(m));
      assert m.frames[frame] in m.pages;
      if c.free != [] {
        assert c.frames[c.free[0]] == -1;
      } else {
        Mmu.EvictInv(cfg.policy, c);
      }
    }
    hide Mmu.Inv, Mmu.Victim;
  }

  /** A translation drops exactly the lines in a frame that loses its page: every other line stays. */
  lemma SweepsLostFrame(cfg: Mmu.Config, sys: System, a: Mmu.Access, slot: Slot)
    requires Sound(sys) && CacheModel.AllShaped(sys.caches) && NoStaleLine(sys) && Holds(sys.caches, slot)
    ensures var h := Swept(sys.caches, TakenFrame(cfg, sys.mmu, a));
      var (m, m', f) := (sys.mmu, Mmu.Step(cfg, sys.mmu, a), FrameOf(sys.caches, slot));
      f < |m.frames| && f < |m'.frames| && (Holds(h, slot) <==> m'.frames[f] == m.frames[f])
  {
    var taken, f := TakenFrame(cfg, sys.mmu, a), FrameOf(sys.caches, slot);
    assert Current(sys.mmu, f, sys.origin(slot));
    TakenIsLost(cfg, sys.mmu, a, f);
    if taken.Some? {
      SweptHolds(sys.caches, taken.value);
    }
    hide Mmu.Step, TakenFrame, CacheModel.Ok, CacheModel.Contains, CacheModel.InvalidateFrame;
  }

  /** What the access itself fetches is current. */
  lemma FetchedIsCurrent(cfg: Mmu.Config, m: Mmu.State, a: Mmu.Access, p: nat)
    requires Mmu.Inv(m) && |m.frames| > 0
    requires Mmu.Result(cfg, Mmu.Step(cfg, m, a), a) == Some(p)
    ensures var m' := Mmu.Step(cfg, m, a);
      Mmu.Inv(m') && Current(m', p / PAGE_SIZE, Origin(Mmu.PageOf(a), m'.clock))
  {
    Mmu.StepInv(cfg, m, a);
    MmuRuns.TranslationCorrect(cfg, m, a);
  }

  /** The block of an address lies in the frame of the address. */
  lemma BlockInFrame(l: CacheModel.Level, p: nat)
    requires Divides(l)
    ensures InFrame(l, CacheModel.BlockOf(l, p), p / PAGE_SIZE)
  {
    var f := p / PAGE_SIZE;
    var q := FrameStartsBlock(l, f);
    var r := FrameStartsBlock(l, f + 1);
    var b := CacheModel.BlockOf(l, p);
    assert b * l.blockSize <= p < (b + 1) * l.blockSize by { BlockBounds(p, l.blockSize); }
    BlockOrder(b + 1, q + 1, l.blockSize);
    BlockOrder(b + 1, q, l.blockSize);
    BlockOrder(b, q, l.blockSize);
    FrameRange(l, b, f);
  }

  lemma BlockBounds(p: nat, n: nat)
    requires n > 0
    ensures (p / n) * n <= p < (p / n + 1) * n
  {
    assert (p / n + 1) * n == (p / n) * n + n;
  }

  /** The data comes from the highest level that holds the block. */
  lemma SourceIs(h: CacheModel.Hierarchy, p: nat, write: bool)
    requires CacheModel.AllOk(h)
    ensures CacheModel.AllShaped(h)
    ensures Source(h, p, write) ==
      if CacheModel.Contains(h.l1, CacheModel.BlockOf(h.l1, p)) then Some(Slot(1, CacheModel.BlockOf(h.l1, p)))
      else if CacheModel.Contains(h.l2, CacheModel.BlockOf(h.l2, p)) then Some(Slot(2, CacheModel.BlockOf(h.l2, p)))
      else if CacheModel.Contains(h.l3, CacheModel.BlockOf(h.l3, p)) then Some(Slot(3, CacheModel.BlockOf(h.l3, p)))
      else None
  {
    RequestCases(h, p, write);
    hide CacheModel.Ok, CacheModel.Contains, CacheModel.Request, CacheModel.BlockOf, Probed;
    hide CacheModel.FromL2, CacheModel.FromL3, CacheModel.FromRam;
  }

  /** The source of a request is a valid line in the frame of the address. */
  lemma SourceHeld(h: CacheModel.Hierarchy, p: nat, write: bool)
    requires CacheModel.AllOk(h) && Divides(h.l1) && Divides(h.l2) && Divides(h.l3)
    ensures CacheModel.AllShaped(h)
    ensures var source := Source(h, p, write);
      source.Some? ==> Holds(h, source.value) && FrameOf(h, source.value) == p / PAGE_SIZE
  {
    SourceIs(h, p, write);
    hide CacheModel.Ok, CacheModel.Contains, CacheModel.BlockOf, Source, Divides;
    var source := Source(h, p, write);
    if source.Some? {
      BlockInFrame(LevelOf(h, source.value.level), p);
    }
  }

  lemma StepSound(cfg: Mmu.Config, sys: System, a: Mmu.Access)
    requires Sound(sys) && CacheModel.AllShaped(sys.caches) && NoStaleLine(sys)
    ensures Sound(Step(cfg, sys, a)) && CacheModel.AllShaped(Step(cfg, sys, a).caches)
    ensures NoStaleLine(Step(cfg, sys, a))
  {
    hide Mmu.Inv, Mmu.Step, Mmu.Result, TakenFrame, Current;
    hide CacheModel.Ok, CacheModel.Contains, CacheModel.Request, Swept, Source;
    AllOkShaped(sys.caches);
    var m := Mmu.Step(cfg, sys.mmu, a);
    Mmu.StepInv(cfg, sys.mmu, a);
    var taken := TakenFrame(cfg, sys.mmu, a);
    var h := Swept(sys.caches, taken);
    SweptCurrent(cfg, sys, a);
    match Mmu.Result(cfg, m, a)
    case None =>
    case Some(p) =>
      RequestContents(h, p, a.write);
      FetchedIsCurrent(cfg, sys.mmu, a, p);
      SourceHeld(h, p, a.write);
      forall s | Holds(Step(cfg, sys, a).caches, s)
        ensures Current(m, FrameOf(h, s), Step(cfg, sys, a).origin(s))
      {
        if !Holds(h, s) {
          BlockInFrame(LevelOf(h, s.level), p);
        }
      }
  }

  lemma SweptCurrent(cfg: Mmu.Config, sys: System, a: Mmu.Access)
    requires Sound(sys) && CacheModel.AllShaped(sys.caches) && NoStaleLine(sys)
    ensures var h := Swept(sys.caches, TakenFrame(cfg, sys.mmu, a));
      && CacheModel.AllOk(h)
      && forall s :: Holds(h, s) ==> Current(Mmu.Step(cfg, sys.mmu, a), FrameOf(h, s), sys.origin(s))
  {
    hide Mmu.Step, TakenFrame, Current, CacheModel.Ok, CacheModel.Contains, CacheModel.InvalidateFrame;
    var taken := TakenFrame(cfg, sys.mmu, a);
    if taken.Some? {
      SweptHolds(sys.caches, taken.value);
    }
    var h := Swept(sys.caches, taken);
    forall s | Holds(h, s)
      ensures Current(Mmu.Step(cfg, sys.mmu, a), FrameOf(h, s), sys.origin(s))
    {
      assert Holds(sys.caches, s) && FrameOf(h, s) == FrameOf(sys.caches, s);
      OthersStayCurrent(cfg, sys.mmu, a, FrameOf(sys.caches, s), sys.origin(s));
    }
  }

  /** A machine of n frames just started: nothing mapped, nothing cached. */
  ghost predicate Initial(sys: System, n: nat) {
    && Sound(sys) && sys.mmu == Mmu.Fresh(n)
    && CacheModel.AllShaped(sys.caches) && forall s :: !Holds(sys.caches, s)
  }

  ghost function Run(cfg: Mmu.Config, start: System, n: nat, trace: seq<Mmu.Access>): (sys: System)
    requires Initial(start, n)
    ensures Sound(sys) && CacheModel.AllShaped(sys.caches) && NoStaleLine(sys)
  {
    if trace == [] then start
    else
      var before := Run(cfg, start, n, trace[..|trace| - 1]);
      StepSound(cfg, before, trace[|trace| - 1]);
      Step(cfg, before, trace[|trace| - 1])
  }

  ghost function Answers(cfg: Mmu.Config, start: System, n: nat, trace: seq<Mmu.Access>):
    seq<Option<CacheModel.Outcome>>
    requires Initial(start, n)
  {
    if trace == [] then []
    else
      var before, a := trace[..|trace| - 1], trace[|trace| - 1];
      Answers(cfg, start, n, before) + [Answer(cfg, Run(cfg, start, n, before), a)]
  }

  /**
   No stale cached data: after any run, every valid line of any level lies in a mapped frame, and its data was
   fetched from memory, directly or through lower levels, for the page now in that frame since that page was last
   loaded.
   */
  lemma NoStaleData(cfg: Mmu.Config, start: System, n: nat, trace: seq<Mmu.Access>, slot: Slot)
    requires Initial(start, n)
    ensures var sys := Run(cfg, start, n, trace);
      && CacheModel.AllShaped(sys.caches)
      && (Holds(sys.caches, slot) ==>
            var frame, o := FrameOf(sys.caches, slot), sys.origin(slot);
            && frame < n && sys.mmu.frames[frame] == o.page && o.page in sys.mmu.pages
            && sys.mmu.pages[o.page].frame == frame
            && sys.mmu.pages[o.page].loaded <= o.time <= sys.mmu.clock)
  {
    var sys := Run(cfg, start, n, trace);
    RunFollowsMmu(cfg, start, n, trace);
    assert Holds(sys.caches, slot) ==> Current(sys.mmu, FrameOf(sys.caches, slot), sys.origin(slot));
  }

  /** The caches have no influence on the translation. */
  lemma {:induction false} RunFollowsMmu(cfg: Mmu.Config, start: System, n: nat, trace: seq<Mmu.Access>)
    requires Initial(start, n)
    ensures Run(cfg, start, n, trace).mmu == MmuRuns.Run(cfg, n, trace)
  {
    if trace != [] {
      RunFollowsMmu(cfg, start, n, trace[..|trace| - 1]);
    }
  }
}
