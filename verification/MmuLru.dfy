/** Least-recently-used paging: timestamps against the list of pages in order of their last use. */
module MmuLru {
  import opened Common
  import opened Mmu
  import opened MmuRuns
  import opened Recency

  /** Distinct pages of the admitted accesses, most recently used first. */
  ghost function UseOrder(cfg: Config, trace: seq<Access>): seq<int> {
    if trace == [] then []
    else
      var before, a := UseOrder(cfg, trace[..|trace| - 1]), trace[|trace| - 1];
      if Admitted(cfg, a) then MoveToFront(before, PageOf(a)) else before
  }

  function Min(a: nat, b: nat): nat {
    if a <= b then a else b
  }

  /** The resident pages are the first k of r. */
  ghost predicate Residents(s: State, r: seq<int>, k: int) {
    forall p :: p in s.pages <==> IndexOf(r, p) < k
  }

  /** Access times fall along r. */
  ghost predicate Falling(s: State, r: seq<int>) {
    forall p, q :: p in s.pages && q in s.pages && IndexOf(r, p) < IndexOf(r, q) ==>
      s.pages[p].lastAccess > s.pages[q].lastAccess
  }

  /** The resident pages are as many of the first ones of r as there are frames, ordered by access time. */
  ghost predicate Ranked(s: State, r: seq<int>) {
    var k := Min(|s.frames|, |r|);
    Distinct(r) && |s.free| == |s.frames| - k && Residents(s, r, k) && Falling(s, r)
  }

  lemma HitRanked(s: State, r: seq<int>, page: nat, write: bool)
    requires Ranked(s, r) && page in s.pages && AllEarlier(s)
    ensures Ranked(Touch(s, page, write), MoveToFront(r, page))
  {
    MoveToFrontDistinct(r, page);
    MoveToFrontAt(r, page);
    HitFalling(s, r, page, write);
    MovedIndices(r, page);
    hide Distinct, IndexOf, MoveToFront, Falling;
  }

  lemma HitFalling(s: State, r: seq<int>, page: nat, write: bool)
    requires Falling(s, r) && page in s.pages && AllEarlier(s)
    ensures Falling(Touch(s, page, write), MoveToFront(r, page))
  {
    hide IndexOf, MoveToFront;
    var s', r' := Touch(s, page, write), MoveToFront(r, page);
    forall p, q | p in s'.pages && q in s'.pages && IndexOf(r', p) < IndexOf(r', q)
      ensures s'.pages[p].lastAccess > s'.pages[q].lastAccess
    {
      MovedOrder(r, page, p, q);
    }
  }

  lemma LoadResidents(s: State, r: seq<int>, page: nat, write: bool, k: int)
    requires s.free != [] && s.free[0] < |s.frames|
    requires 0 <= k <= |r| && Residents(s, r, k) && IndexOf(r, page) >= k
    ensures Residents(Load(s, page, write), MoveToFront(r, page), k + 1)
  {
    MoveToFrontAt(r, page);
    MovedIndices(r, page);
    hide IndexOf, MoveToFront;
  }

  lemma LoadFalling(s: State, r: seq<int>, page: nat, write: bool)
    requires s.free != [] && s.free[0] < |s.frames| && page !in s.pages
    requires AllEarlier(s) && Falling(s, r)
    ensures Falling(Load(s, page, write), MoveToFront(r, page))
  {
    hide IndexOf, MoveToFront;
    var s', r' := Load(s, page, write), MoveToFront(r, page);
    forall p, q | p in s'.pages && q in s'.pages && IndexOf(r', p) < IndexOf(r', q)
      ensures s'.pages[p].lastAccess > s'.pages[q].lastAccess
    {
      MovedOrder(r, page, p, q);
    }
  }

  /** A page loaded into a free frame goes to the front. */
  lemma LoadRanked(s: State, r: seq<int>, page: nat, write: bool)
    requires page !in s.pages && s.free != [] && s.free[0] < |s.frames|
    requires AllEarlier(s) && Ranked(s, r)
    ensures Ranked(Load(s, page, write), MoveToFront(r, page))
  {
    MoveToFrontDistinct(r, page);
    MoveToFrontAt(r, page);
    IndexAtMost(r, page);
    LoadResidents(s, r, page, write, |r|);
    LoadFalling(s, r, page, write);
    hide Distinct, IndexOf, MoveToFront, Residents, Falling;
  }

  /** With all frames full the n-th page of the ranking is the last resident one. */
  lemma LastRanked(s: State, r: seq<int>)
    requires Full(s) && Ranked(s, r)
    ensures |r| >= |s.frames| && r[|s.frames| - 1] in s.pages
    ensures IndexOf(r, r[|s.frames| - 1]) == |s.frames| - 1
  {
    var n := |s.frames|;
    hide Inv, Falling, IndexOf;
    assert r[n - 1] !in r[..n - 1];
    IndexOfAt(r, r[n - 1], n - 1);
  }

  /** The victim is the last resident page of the ranking. */
  lemma VictimIsLast(s: State, r: seq<int>)
    requires Full(s) && Ranked(s, r)
    ensures |r| >= |s.frames| && IndexOf(r, s.frames[Victim(Lru, s)]) == |s.frames| - 1
  {
    LastRanked(s, r);
    var n, v := |s.frames|, Victim(Lru, s);
    var last, page := r[n - 1], s.frames[v];
    assert MappingOf(s, s.pages[last].frame) == s.pages[last];
    assert page in s.pages && s.pages[page] == MappingOf(s, v);
    hide IndexOf, Distinct;
  }

  /** Without the victim the others are the first ones of the ranking. */
  ghost predicate RankedButLast(e: State, r: seq<int>) {
    && Distinct(r) && |r| >= |e.frames| > 0
    && |e.free| == 1 && e.free[0] < |e.frames|
    && Residents(e, r, |e.frames| - 1) && Falling(e, r)
  }

  lemma EvictRanked(s: State, r: seq<int>)
    requires Full(s) && Ranked(s, r)
    ensures RankedButLast(Evict(Lru, s), r)
    ensures Evict(Lru, s).pages.Keys <= s.pages.Keys && |Evict(Lru, s).frames| == |s.frames|
    ensures Evict(Lru, s).clock == s.clock
    ensures forall p :: p in Evict(Lru, s).pages ==> Evict(Lru, s).pages[p] == s.pages[p]
  {
    VictimIsLast(s, r);
    var n, e, out := |s.frames|, Evict(Lru, s), s.frames[Victim(Lru, s)];
    forall p
      ensures p in e.pages <==> IndexOf(r, p) < n - 1
    {
      assert p in e.pages <==> p in s.pages && p != out;
      if IndexOf(r, p) == n - 1 {
        assert p == r[n - 1] == out;
      }
    }
  }

  /** The page loaded in place of the victim goes to the front, and the ranking is as long as before. */
  lemma ReplaceRanked(e: State, r: seq<int>, page: nat, write: bool)
    requires RankedButLast(e, r) && page !in e.pages && AllEarlier(e)
    ensures Ranked(Load(e, page, write), MoveToFront(r, page))
  {
    MoveToFrontDistinct(r, page);
    MoveToFrontAt(r, page);
    LoadResidents(e, r, page, write, |e.frames| - 1);
    LoadFalling(e, r, page, write);
    hide Distinct, IndexOf, MoveToFront, Residents, Falling;
  }

  lemma StepRanked(cfg: Config, s: State, r: seq<int>, a: Access)
    requires cfg.policy == Lru && Inv(s) && Ranked(s, r)
    ensures Ranked(Step(cfg, s, a), if Admitted(cfg, a) then MoveToFront(r, PageOf(a)) else r)
  {
    var t, page := Tick(s), PageOf(a);
    if Admitted(cfg, a) {
      TickRanked(s, r);
      TickInv(s);
      hide Ranked, AllEarlier, Inv, Touch, Load, Evict, MoveToFront;
      if page in s.pages {
        HitRanked(t, r, page, a.write);
      } else if |s.frames| == 0 {
        NoFramesRanked(Charge(t), r, page);
      } else {
        FaultRanked(Charge(t), r, page, a.write);
      }
    }
  }

  /** Without frames nothing is resident, whatever was used. */
  lemma NoFramesRanked(s: State, r: seq<int>, page: nat)
    requires Inv(s) && Ranked(s, r) && |s.frames| == 0
    ensures s.free == [] && Ranked(s, MoveToFront(r, page))
  {
    MoveToFrontDistinct(r, page);
    assert forall p :: p !in s.pages by {
      assert forall p :: 0 <= IndexOf(r, p);
    }
    assert forall p :: 0 <= IndexOf(MoveToFront(r, page), p);
  }

  lemma TickRanked(s: State, r: seq<int>)
    requires Ranked(s, r)
    ensures Ranked(Tick(s), r) && Ranked(Charge(Tick(s)), r)
  {
    hide IndexOf, Distinct;
    assert Tick(s).pages == s.pages && Charge(Tick(s)).pages == s.pages;
    assert Falling(Tick(s), r) && Falling(Charge(Tick(s)), r);
  }

  lemma FaultRanked(c: State, r: seq<int>, page: nat, write: bool)
    requires Inv(c) && Ranked(c, r) && |c.frames| > 0 && page !in c.pages && AllEarlier(c)
    ensures Ranked(Load(if c.free != [] then c else Evict(Lru, c), page, write), MoveToFront(r, page))
  {
    if c.free != [] {
      LoadRanked(c, r, page, write);
    } else {
      EvictRanked(c, r);
      assert AllEarlier(Evict(Lru, c));
      hide Ranked, AllEarlier, Load, Evict, Inv;
      ReplaceRanked(Evict(Lru, c), r, page, write);
    }
  }

  /**
   The stack property: under LRU the n frames hold exactly the n most recently used pages, or all of them if
   fewer were used.
   */
  lemma {:induction false} LruStack(cfg: Config, n: nat, trace: seq<Access>)
    requires cfg.policy == Lru
    ensures Ranked(Run(cfg, n, trace), UseOrder(cfg, trace))
  {
    if trace == [] {
    } else {
      var before, a := trace[..|trace| - 1], trace[|trace| - 1];
      LruStack(cfg, n, before);
      StepRanked(cfg, Run(cfg, n, before), UseOrder(cfg, before), a);
    }
  }

  lemma ResidentByRank(cfg: Config, n: nat, trace: seq<Access>, p: int)
    requires cfg.policy == Lru
    ensures p in Run(cfg, n, trace).pages <==> IndexOf(UseOrder(cfg, trace), p) < Min(n, |UseOrder(cfg, trace)|)
  {
    LruStack(cfg, n, trace);
  }

  /** The same, with the pages listed. */
  lemma MostRecentResident(cfg: Config, n: nat, trace: seq<Access>, p: int)
    requires cfg.policy == Lru
    ensures var r := UseOrder(cfg, trace);
      p in Run(cfg, n, trace).pages <==> p in r[..Min(n, |r|)]
  {
    ResidentByRank(cfg, n, trace, p);
    var r := UseOrder(cfg, trace);
    PrefixByIndex(r, p, Min(n, |r|));
  }

  /** More frames keep every page that fewer frames keep. */
  lemma Inclusion(cfg: Config, n: nat, m: nat, trace: seq<Access>)
    requires cfg.policy == Lru && n <= m
    ensures Run(cfg, n, trace).pages.Keys <= Run(cfg, m, trace).pages.Keys
  {
    hide Run, UseOrder, IndexOf;
    forall p | p in Run(cfg, n, trace).pages
      ensures p in Run(cfg, m, trace).pages
    {
      ResidentByRank(cfg, n, trace, p);
      ResidentByRank(cfg, m, trace, p);
    }
  }

  /** LRU has no Belady anomaly: more frames never cause more faults. */
  lemma {:induction false} MoreFramesFewerFaults(cfg: Config, n: nat, m: nat, trace: seq<Access>)
    requires cfg.policy == Lru && n <= m
    ensures Run(cfg, m, trace).faults <= Run(cfg, n, trace).faults
  {
    if trace != [] {
      var before, a := trace[..|trace| - 1], trace[|trace| - 1];
      MoreFramesFewerFaults(cfg, n, m, before);
      Inclusion(cfg, n, m, before);
      FaultsWhenAbsent(cfg, Run(cfg, n, before), a);
      FaultsWhenAbsent(cfg, Run(cfg, m, before), a);
    }
  }

}
