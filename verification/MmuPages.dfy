/** The page table over whole runs: which accesses get an address, and when the bits and times of a page change. */
module MmuPages {
  import opened Common
  import opened Mmu
  import opened MmuRuns
  import opened MmuClock

  /**
   Which accesses get an address: below the limit all that no region denies, from the limit on only those that a
   region allows, in multi-level mode. The others change nothing.
   */
  lemma AddressGiven(cfg: Config, s: State, a: Access)
    requires Inv(s) && |s.frames| > 0
    ensures var s' := Step(cfg, s, a);
      && (Result(cfg, s', a).Some? <==>
            a.verdict != Denied && (a.vaddr < cfg.limit || (cfg.multiLevel && a.verdict == Allowed)))
      && (Result(cfg, s', a).None? ==> s' == s)
  {
    TranslationCorrect(cfg, s, a);
  }

  /** Without frames nothing gets an address. */
  lemma NoAddress(cfg: Config, s: State, a: Access)
    requires Inv(s) && |s.frames| == 0
    ensures Result(cfg, Step(cfg, s, a), a).None? && Step(cfg, s, a).pages == map[]
  {
    assert forall p :: p in s.pages ==> s.pages[p].frame < |s.frames|;
    assert s.pages == map[];
  }

  // ---------- one translation ----------

  /** The access is translated, and page p is the one it uses. */
  ghost predicate Uses(cfg: Config, s: State, a: Access, p: int)
    requires Inv(s)
  {
    Result(cfg, Step(cfg, s, a), a).Some? && p == a.vaddr / 64
  }

  /** A translated page is referenced, and used now; dirty from the first write after its load; loaded now or before. */
  lemma StepPage(cfg: Config, s: State, a: Access, p: int)
    requires Inv(s) && Uses(cfg, s, a, p)
    ensures var s', was := Step(cfg, s, a), p in s.pages;
      && s'.clock == s.clock + 1 && p in s'.pages
      && s'.pages[p].referenced && s'.pages[p].lastAccess == s'.clock
      && s'.pages[p].loaded == (if was then s.pages[p].loaded else s'.clock)
      && (s'.pages[p].dirty <==> a.write || (was && s.pages[p].dirty))
      && (was ==> s'.pages[p].frame == s.pages[p].frame)
  {
    TickInv(s);
    hide Inv, Evict;
    if p !in s.pages && s.free == [] && |s.frames| > 0 {
      EvictInv(cfg.policy, Charge(Tick(s)));
    }
  }

  /** The page gets a frame of its own; what held that frame before, if anything did, is the one page that goes. */
  lemma StepPages(cfg: Config, s: State, a: Access, p: int)
    requires Inv(s) && Uses(cfg, s, a, p)
    ensures var s' := Step(cfg, s, a);
      && p in s'.pages && Result(cfg, s', a) == Some(s'.pages[p].frame * 64 + a.vaddr % 64)
      && var f := s'.pages[p].frame;
         && f < |s.frames|
         && (p in s.pages ==> s.frames[f] == p && s'.pages.Keys == s.pages.Keys)
         && (p !in s.pages ==> s.frames[f] != p && s'.pages.Keys == s.pages.Keys - {s.frames[f]} + {p})
  {
    StepPage(cfg, s, a, p);
    if p in s.pages {
      assert s.frames[s.pages[p].frame] == p;
      hide Inv;
    } else {
      if |s.frames| == 0 {
        NoAddress(cfg, s, a);
      }
      TickInv(s);
      FaultPages(cfg.policy, Tick(s), p, a.write);
      hide Inv, Fault;
    }
  }

  lemma FaultPages(policy: Policy, s: State, page: nat, write: bool)
    requires Inv(s) && page !in s.pages && |s.frames| > 0
    ensures var s' := Fault(policy, s, page, write);
      && page in s'.pages && var f := s'.pages[page].frame;
      && f < |s.frames| && s.frames[f] != page && s'.pages.Keys == s.pages.Keys - {s.frames[f]} + {page}
  {
    var c := Charge(s);
    if s.free == [] {
      ChargeInv(s);
      EvictInv(policy, c);
    } else {
      assert s.frames[s.free[0]] == -1 && -1 !in s.pages;
    }
    hide Evict, Victim, Inv;
  }

  /** A sweep from the hand on passes the frame: every frame on the way and the frame itself hold referenced pages. */
  ghost predicate Passes(s: State, f: nat)
    requires Full(s) && f < |s.frames|
  {
    forall g: nat :: g < |s.frames| && Offset(s, g) <= Offset(s, f) ==> ReferencedFrame(s, g)
  }

  /** The access makes CLOCK sweep, because its page is absent and no frame is free, and the sweep passes page p. */
  ghost predicate Swept(cfg: Config, s: State, a: Access, p: int)
    requires Inv(s)
  {
    && cfg.policy == Clock && Result(cfg, Step(cfg, s, a), a).Some? && a.vaddr / 64 !in s.pages
    && s.free == [] && Full(s) && p in s.pages && Passes(s, s.pages[p].frame)
  }

  lemma EvictedBit(s: State, p: int)
    requires Full(s) && p in Evict(Clock, s).pages && p in s.pages && s.pages[p].frame < |s.frames|
    ensures Evict(Clock, s).pages[p].referenced <==> s.pages[p].referenced && !Passes(s, s.pages[p].frame)
  {
    EvictInv(Clock, s);
    var v, f := Victim(Clock, s), s.pages[p].frame;
    assert MappingOf(s, f) == s.pages[p] && s.frames[f] == p;
    ClockSweep(s, p);
    ClockVictim(s);
    OffsetInverse(s, f);
    OffsetInverse(s, v);
    hide Inv, Victim, Evict, FromHand;
    if !ReferencedFrame(s, v) && Offset(s, f) > Offset(s, v) {
      assert !Passes(s, f);
    }
  }

  /** A page that an access does not use keeps everything; its reference bit goes exactly if a sweep passes it. */
  lemma StepOthers(cfg: Config, s: State, a: Access, q: int)
    requires Inv(s) && !Uses(cfg, s, a, q) && q in Step(cfg, s, a).pages
    ensures var s' := Step(cfg, s, a);
      && q in s.pages && s'.pages[q].(referenced := s.pages[q].referenced) == s.pages[q]
      && (s'.pages[q].referenced <==> s.pages[q].referenced && !Swept(cfg, s, a, q))
  {
    if |s.frames| == 0 {
      NoAddress(cfg, s, a);
      assert false;
    }
    AddressGiven(cfg, s, a);
    TickInv(s);
    var c := Charge(Tick(s));
    if Uses(cfg, s, a, a.vaddr / 64) && a.vaddr / 64 !in s.pages && c.free == [] {
      EvictInv(cfg.policy, c);
      if cfg.policy == Clock {
        EvictedBit(c, q);
        SamePasses(s, c, s.pages[q].frame);
      }
    }
    hide Inv, Victim, Passes;
  }

  lemma SamePasses(s: State, c: State, f: nat)
    requires Full(s) && Full(c) && f < |s.frames|
    requires c.pages == s.pages && c.frames == s.frames && c.hand == s.hand
    ensures Passes(s, f) <==> Passes(c, f)
  {
    assert forall g: nat :: g < |s.frames| ==> MappingOf(s, g) == MappingOf(c, g);
    hide Full;
    assert forall g: nat :: g < |s.frames| ==> Offset(s, g) == Offset(c, g);
  }

  // ---------- whole runs ----------

  /** The run has used page p since the sweep last passed it. */
  ghost predicate UsedSinceSwept(cfg: Config, n: nat, trace: seq<Access>, p: int) {
    trace != [] &&
      var before, a := trace[..|trace| - 1], trace[|trace| - 1];
      || Uses(cfg, Run(cfg, n, before), a, p)
      || (UsedSinceSwept(cfg, n, before, p) && !Swept(cfg, Run(cfg, n, before), a, p))
  }

  /** The run has written to page p since its last load. */
  ghost predicate WrittenSinceLoad(cfg: Config, n: nat, trace: seq<Access>, p: int) {
    trace != [] &&
      var before, a := trace[..|trace| - 1], trace[|trace| - 1];
      var s := Run(cfg, n, before);
      if Uses(cfg, s, a, p) then a.write || (p in s.pages && WrittenSinceLoad(cfg, n, before, p))
      else WrittenSinceLoad(cfg, n, before, p)
  }

  /** A resident page is referenced exactly when it was used since the sweep last passed it. */
  lemma {:induction false} ReferencedBit(cfg: Config, n: nat, trace: seq<Access>, p: int)
    requires p in Run(cfg, n, trace).pages
    ensures Run(cfg, n, trace).pages[p].referenced <==> UsedSinceSwept(cfg, n, trace, p)
  {
    hide Inv, Step, Uses, Swept;
    if trace != [] {
      var before, a := trace[..|trace| - 1], trace[|trace| - 1];
      var s := Run(cfg, n, before);
      if Uses(cfg, s, a, p) {
        StepPage(cfg, s, a, p);
      } else {
        StepOthers(cfg, s, a, p);
        ReferencedBit(cfg, n, before, p);
      }
    }
  }

  /** A resident page is dirty exactly when it was written to since its last load. */
  lemma {:induction false} DirtyBit(cfg: Config, n: nat, trace: seq<Access>, p: int)
    requires p in Run(cfg, n, trace).pages
    ensures Run(cfg, n, trace).pages[p].dirty <==> WrittenSinceLoad(cfg, n, trace, p)
  {
    hide Inv, Step, Uses;
    if trace != [] {
      var before, a := trace[..|trace| - 1], trace[|trace| - 1];
      var s := Run(cfg, n, before);
      if Uses(cfg, s, a, p) {
        StepPage(cfg, s, a, p);
      } else {
        StepOthers(cfg, s, a, p);
      }
      if p in s.pages {
        DirtyBit(cfg, n, before, p);
      }
    }
  }

  // ---------- frames and hand ----------

  /** The frames that no page has used yet are free, in ascending order, and the hand waits at frame 0 until then. */
  lemma {:induction false} FirstFrames(cfg: Config, n: nat, trace: seq<Access>)
    ensures var s := Run(cfg, n, trace);
      s.faults <= n ==>
        s.hand == 0 && |s.free| == n - s.faults && forall i :: 0 <= i < |s.free| ==> s.free[i] == s.faults + i
  {
    if trace != [] {
      var before, a := trace[..|trace| - 1], trace[|trace| - 1];
      FirstFrames(cfg, n, before);
    }
  }

  /** Only a sweep moves the hand, to the frame behind the one that the page gets. */
  lemma StepHand(cfg: Config, s: State, a: Access, p: int)
    requires Inv(s) && Uses(cfg, s, a, p)
    ensures var s', n := Step(cfg, s, a), |s.frames|;
      && n > 0 && p in s'.pages
      && s'.hand ==
        if cfg.policy == Clock && p !in s.pages && s.free == [] then (s'.pages[p].frame + 1) % n else s.hand
  {
    StepPage(cfg, s, a, p);
    if p !in s.pages && s.free == [] {
      if |s.frames| == 0 {
        NoAddress(cfg, s, a);
      }
      TickInv(s);
      VictimFrame(cfg.policy, Charge(Tick(s)), p, a.write);
    } else if p !in s.pages {
      assert s.frames[s.free[0]] == -1;
    }
    hide Inv, Full, Evict, Load, Charge;
  }

  lemma VictimFrame(policy: Policy, c: State, page: nat, write: bool)
    requires Full(c)
    ensures Evict(policy, c).free == [Victim(policy, c)]
    ensures var s', n := Load(Evict(policy, c), page, write), |c.frames|;
      s'.hand == if policy == Clock then (s'.pages[page].frame + 1) % n else c.hand
  {
    hide Inv, Victim, Unreference, Skipped;
  }
}
