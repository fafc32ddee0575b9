/** What a run of translations does to the TLB: services and shootdowns, and which pages the TLB knows at the end. */
module TlbTrace {
  import opened Common
  import opened Recency
  import opened TlbUnit
  import opened TlbLru
  import CacheRecency
  import opened Ways
  import Mmu
  import MmuRuns
  import MmuPages

  /**
   A translated page is served with its frame; before that the page that held the frame is shot down, if there was
   another one. An access without an address leaves the TLB alone.
   */
  ghost function Ops(cfg: Mmu.Config, s: Mmu.State, a: Mmu.Access): seq<Op>
    requires Mmu.Inv(s)
  {
    match Mmu.Result(cfg, Mmu.Step(cfg, s, a), a)
    case None => []
    case Some(p) =>
      var page, f := a.vaddr / 64, p / 64;
      if f < |s.frames| && s.frames[f] >= 0 && s.frames[f] != page
      then [Shoot(s.frames[f]), Serve(page, f)] else [Serve(page, f)]
  }

  /** The TLB went from t to t' by these services and shootdowns. */
  ghost predicate Follows(t: State, t': State, ways: nat, ops: seq<Op>) {
    Shaped(t, ways) && t' == Apply(t, ways, ops)
  }

  /** A service is a lookup of a page that is found, and an insertion of one that is not. */
  lemma ServedAlone(t: State, ways: nat, page: nat, f: nat)
    requires Shaped(t, ways)
    ensures var (now, known) := (t.timer + 1, Find(Tags(t.table[page % |t.table|]), page) < ways);
      Follows(t, State(if known then LookedUp(t.table, page, now) else PutIn(t.table, page, f, now), now), ways,
              [Serve(page, f)])
  {
    StepParts(t, ways, page, f);
    ApplyOne(t, ways, Serve(page, f));
    hide Step, LookedUp, PutIn, Apply, Find;
  }

  lemma StillAbsent(lines: TlbSet, page: nat, out: nat)
    requires Find(Tags(lines), page) == |lines|
    ensures Find(Tags(Dropped(lines, out)), page) == |lines|
  {
    assert forall i :: 0 <= i < |lines| ==> Tags(lines)[i] != Some(page) && Tags(Dropped(lines, out))[i] != Some(page);
    FindUnique(Tags(Dropped(lines, out)), page, |lines|);
  }

  lemma ServedAfterShot(t: State, ways: nat, out: nat, page: nat, f: nat)
    requires Shaped(t, ways) && Find(Tags(t.table[page % |t.table|]), page) == ways
    ensures var now := t.timer + 1;
      Follows(t, State(PutIn(ShotDown(t.table, out), page, f, now), now), ways, [Shoot(out), Serve(page, f)])
  {
    StepParts(t, ways, out, f);
    var t' := Step(t, ways, Shoot(out));
    StillAbsent(t.table[page % |t.table|], page, out);
    assert Find(Tags(t'.table[page % |t'.table|]), page) == ways;
    StepParts(t', ways, page, f);
    ApplyTwo(t, ways, Shoot(out), Serve(page, f));
    hide Step, PutIn, ShotDown, Apply, Find, Dropped;
  }

  lemma ApplyOne(t: State, ways: nat, op: Op)
    requires Shaped(t, ways)
    ensures Apply(t, ways, [op]) == Step(t, ways, op)
  {
    assert [op][..0] == [];
    hide Step;
  }

  lemma ApplyTwo(t: State, ways: nat, op: Op, op': Op)
    requires Shaped(t, ways)
    ensures Apply(t, ways, [op, op']) == Step(Step(t, ways, op), ways, op')
  {
    ApplyOne(t, ways, op);
    assert [op, op'][..1] == [op];
    hide Step;
  }

  ghost function RunOps(cfg: Mmu.Config, n: nat, trace: seq<Mmu.Access>): seq<Op> {
    if trace == [] then []
    else
      var before := trace[..|trace| - 1];
      RunOps(cfg, n, before) + Ops(cfg, MmuRuns.Run(cfg, n, before), trace[|trace| - 1])
  }

  lemma RunOpsExtend(cfg: Mmu.Config, n: nat, trace: seq<Mmu.Access>, i: nat)
    requires i < |trace|
    ensures RunOps(cfg, n, trace[..i + 1]) ==
      RunOps(cfg, n, trace[..i]) + Ops(cfg, MmuRuns.Run(cfg, n, trace[..i]), trace[i])
  {
    assert trace[..i + 1][..i] == trace[..i];
    hide Ops, MmuRuns.Run;
  }

  lemma NoOps(cfg: Mmu.Config, s: Mmu.State, a: Mmu.Access)
    requires Mmu.Inv(s) && Mmu.Result(cfg, Mmu.Step(cfg, s, a), a).None?
    ensures Ops(cfg, s, a) == []
  {
  }

  ghost predicate Resident(s: Mmu.State, i: nat, sets: nat, p: int)
    requires sets > 0
  {
    p in s.pages && p % sets == i
  }

  /** u lists the resident pages of set i. */
  ghost predicate Members(s: Mmu.State, u: seq<int>, i: nat, sets: nat)
    requires sets > 0
  {
    forall p :: 0 <= IndexOf(u, p) < |u| <==> Resident(s, i, sets, p)
  }

  /** Access times fall along u. */
  ghost predicate Falls(s: Mmu.State, u: seq<int>, i: nat, sets: nat)
    requires sets > 0
  {
    forall p, q :: Resident(s, i, sets, p) && Resident(s, i, sets, q) && IndexOf(u, p) < IndexOf(u, q) ==>
      s.pages[p].lastAccess > s.pages[q].lastAccess
  }

  /** u lists the resident pages of set i, most recently used first. */
  ghost predicate Ranks(s: Mmu.State, u: seq<int>, i: nat, sets: nat)
    requires sets > 0
  {
    Distinct(u) && Members(s, u, i, sets) && Falls(s, u, i, sets)
  }

  lemma WithoutIndices(u: seq<int>, p: int)
    requires Distinct(u) && IndexOf(u, p) < |u|
    ensures |Without(u, p)| == |u| - 1
    ensures forall q :: 0 <= IndexOf(u, q) <= |u| && (IndexOf(u, q) == IndexOf(u, p) <==> q == p)
    ensures forall q :: IndexOf(Without(u, p), q) == (
                          if IndexOf(u, q) < IndexOf(u, p) then IndexOf(u, q)
                          else if q == p || IndexOf(u, q) == |u| then |u| - 1 else IndexOf(u, q) - 1)
  {
    forall q
      ensures 0 <= IndexOf(u, q) <= |u| && (IndexOf(u, q) == IndexOf(u, p) <==> q == p)
      ensures IndexOf(Without(u, p), q) == (
                if IndexOf(u, q) < IndexOf(u, p) then IndexOf(u, q)
                else if q == p || IndexOf(u, q) == |u| then |u| - 1 else IndexOf(u, q) - 1)
    {
      RemovedIndex(u, IndexOf(u, p), q);
      IndexAtMost(u, q);
    }
  }

  /** The ranking without a page that goes. */
  lemma WithoutRanks(s: Mmu.State, s': Mmu.State, u: seq<int>, i: nat, sets: nat, p: int)
    requires sets > 0 && Ranks(s, u, i, sets) && s'.pages == s.pages - {p}
    ensures Ranks(s', if p % sets == i then Without(u, p) else u, i, sets)
  {
    if p % sets == i && IndexOf(u, p) < |u| {
      RemoveAtDistinct(u, IndexOf(u, p));
      WithoutIndices(u, p);
      hide IndexOf;
      WithoutMembers(s, s', u, i, sets, p);
      WithoutFalls(s, s', u, i, sets, p);
      hide *;
    } else {
      IndexAtMost(u, p);
      hide IndexOf, Distinct;
      assert !Resident(s, i, sets, p);
      assert forall q :: Resident(s', i, sets, q) ==> Resident(s, i, sets, q);
    }
  }

  lemma WithoutMembers(s: Mmu.State, s': Mmu.State, u: seq<int>, i: nat, sets: nat, p: int)
    requires sets > 0 && Distinct(u) && Members(s, u, i, sets) && s'.pages == s.pages - {p} && IndexOf(u, p) < |u|
    ensures Members(s', Without(u, p), i, sets)
  {
    WithoutIndices(u, p);
    hide IndexOf, Without, Distinct;
  }

  lemma WithoutFalls(s: Mmu.State, s': Mmu.State, u: seq<int>, i: nat, sets: nat, p: int)
    requires sets > 0 && Distinct(u) && Members(s, u, i, sets) && Falls(s, u, i, sets)
    requires s'.pages == s.pages - {p} && IndexOf(u, p) < |u|
    ensures Falls(s', Without(u, p), i, sets)
  {
    WithoutIndices(u, p);
    hide IndexOf, Without, Distinct;
    var r := Without(u, p);
    forall a, b | Resident(s', i, sets, a) && Resident(s', i, sets, b) && IndexOf(r, a) < IndexOf(r, b)
      ensures s'.pages[a].lastAccess > s'.pages[b].lastAccess
    {
      assert Resident(s, i, sets, a) && Resident(s, i, sets, b);
    }
  }

  ghost predicate UsedNow(s: Mmu.State, s': Mmu.State, p: int) {
    && s'.pages.Keys == s.pages.Keys + {p}
    && (forall q :: q in s.pages && q != p ==>
          s'.pages[q].lastAccess == s.pages[q].lastAccess < s'.pages[p].lastAccess)
  }

  /** The ranking after a page is used. */
  lemma UsedRanks(s: Mmu.State, s': Mmu.State, u: seq<int>, i: nat, sets: nat, p: int)
    requires sets > 0 && Ranks(s, u, i, sets) && UsedNow(s, s', p)
    ensures Ranks(s', if p % sets == i then MoveToFront(u, p) else u, i, sets)
  {
    if p % sets == i {
      MoveToFrontDistinct(u, p);
      UsedMembers(s, s', u, i, sets, p);
      UsedFalls(s, s', u, i, sets, p);
      hide Distinct, Members, Falls;
    } else {
      hide IndexOf, Distinct;
    }
  }

  lemma UsedMembers(s: Mmu.State, s': Mmu.State, u: seq<int>, i: nat, sets: nat, p: int)
    requires sets > 0 && Members(s, u, i, sets) && UsedNow(s, s', p) && p % sets == i
    ensures Members(s', MoveToFront(u, p), i, sets)
  {
    MoveToFrontAt(u, p);
    MovedIndices(u, p);
    hide IndexOf, MoveToFront;
  }

  lemma UsedFalls(s: Mmu.State, s': Mmu.State, u: seq<int>, i: nat, sets: nat, p: int)
    requires sets > 0 && Falls(s, u, i, sets) && UsedNow(s, s', p) && p % sets == i
    ensures Falls(s', MoveToFront(u, p), i, sets)
  {
    hide IndexOf, MoveToFront;
    var r := MoveToFront(u, p);
    forall a, b | Resident(s', i, sets, a) && Resident(s', i, sets, b) && IndexOf(r, a) < IndexOf(r, b)
      ensures s'.pages[a].lastAccess > s'.pages[b].lastAccess
    {
      MovedOrder(u, p, a, b);
    }
  }

  lemma UseOrderExtend(i: nat, sets: nat, ops: seq<Op>, op: Op)
    requires sets > 0
    ensures UseOrder(i, sets, ops + [op]) ==
      var u := UseOrder(i, sets, ops);
      if op.vpn % sets != i then u else if op.Serve? then MoveToFront(u, op.vpn) else Without(u, op.vpn)
  {
    assert (ops + [op])[..|ops|] == ops;
    hide MoveToFront, Without;
  }

  lemma StepRanks(cfg: Mmu.Config, s: Mmu.State, a: Mmu.Access, ops: seq<Op>, i: nat, sets: nat)
    requires Mmu.Inv(s) && sets > 0 && Ranks(s, UseOrder(i, sets, ops), i, sets)
    ensures Ranks(Mmu.Step(cfg, s, a), UseOrder(i, sets, ops + Ops(cfg, s, a)), i, sets)
  {
    hide Mmu.Step, Mmu.Result, Mmu.Inv, Ranks, UseOrder;
    if Mmu.Result(cfg, Mmu.Step(cfg, s, a), a).None? {
      RefusedRanks(cfg, s, a, UseOrder(i, sets, ops), i, sets);
      assert ops + [] == ops;
    } else {
      ServedRanks(cfg, s, a, ops, i, sets);
    }
  }

  lemma OpsAre(cfg: Mmu.Config, s: Mmu.State, a: Mmu.Access, page: nat)
    requires Mmu.Inv(s) && MmuPages.Uses(cfg, s, a, page)
    ensures var s' := Mmu.Step(cfg, s, a);
      page in s'.pages && var f := s'.pages[page].frame;
      && f < |s.frames|
      && Ops(cfg, s, a) ==
         if page !in s.pages && s.frames[f] >= 0 then [Shoot(s.frames[f]), Serve(page, f)] else [Serve(page, f)]
  {
    MmuPages.StepPages(cfg, s, a, page);
    hide Mmu.Step, Mmu.Inv, Mmu.Result;
    var f := Mmu.Step(cfg, s, a).pages[page].frame;
    assert (f * 64 + a.vaddr % 64) / 64 == f;
  }

  lemma ServedRanks(cfg: Mmu.Config, s: Mmu.State, a: Mmu.Access, ops: seq<Op>, i: nat, sets: nat)
    requires Mmu.Inv(s) && sets > 0 && Ranks(s, UseOrder(i, sets, ops), i, sets)
    requires MmuPages.Uses(cfg, s, a, a.vaddr / 64)
    ensures Ranks(Mmu.Step(cfg, s, a), UseOrder(i, sets, ops + Ops(cfg, s, a)), i, sets)
  {
    hide *;
    var page, s' := a.vaddr / 64, Mmu.Step(cfg, s, a);
    OpsAre(cfg, s, a, page);
    var f := s'.pages[page].frame;
    var out := s.frames[f];
    if page !in s.pages && out >= 0 {
      var middle := s.(pages := s.pages - {out});
      StepUsesNow(cfg, s, a, page, middle);
      WithoutRanks(s, middle, UseOrder(i, sets, ops), i, sets, out);
      UseOrderExtend(i, sets, ops, Shoot(out));
      UsedRanks(middle, s', UseOrder(i, sets, ops + [Shoot(out)]), i, sets, page);
      UseOrderExtend(i, sets, ops + [Shoot(out)], Serve(page, f));
      assert ops + [Shoot(out), Serve(page, f)] == ops + [Shoot(out)] + [Serve(page, f)];
    } else {
      PagesNatural(s);
      assert page !in s.pages ==> s.pages - {out} == s.pages;
      StepUsesNow(cfg, s, a, page, s);
      UsedRanks(s, s', UseOrder(i, sets, ops), i, sets, page);
      UseOrderExtend(i, sets, ops, Serve(page, f));
    }
  }

  lemma PagesNatural(s: Mmu.State)
    requires Mmu.Inv(s)
    ensures forall p :: p in s.pages ==> p >= 0
  {
  }

  lemma RefusedRanks(cfg: Mmu.Config, s: Mmu.State, a: Mmu.Access, u: seq<int>, i: nat, sets: nat)
    requires Mmu.Inv(s) && sets > 0 && Ranks(s, u, i, sets) && Mmu.Result(cfg, Mmu.Step(cfg, s, a), a).None?
    ensures Ranks(Mmu.Step(cfg, s, a), u, i, sets)
  {
    if |s.frames| == 0 {
      MmuPages.NoAddress(cfg, s, a);
      assert forall p :: p in s.pages ==> s.pages[p].frame < |s.frames|;
    } else {
      MmuPages.AddressGiven(cfg, s, a);
    }
    hide Mmu.Step, Mmu.Inv, IndexOf;
  }

  lemma StepUsesNow(cfg: Mmu.Config, s: Mmu.State, a: Mmu.Access, page: int, middle: Mmu.State)
    requires Mmu.Inv(s) && MmuPages.Uses(cfg, s, a, page)
    requires var s' := Mmu.Step(cfg, s, a);
      page in s'.pages && s'.pages[page].frame < |s.frames|
      && middle.pages == if page in s.pages then s.pages else s.pages - {s.frames[s'.pages[page].frame]}
    ensures UsedNow(middle, Mmu.Step(cfg, s, a), page)
  {
    MmuPages.StepPage(cfg, s, a, page);
    MmuPages.StepPages(cfg, s, a, page);
    var s' := Mmu.Step(cfg, s, a);
    hide Mmu.Step, MmuPages.Uses;
    forall q | q in middle.pages && q != page
      ensures s'.pages[q].lastAccess == middle.pages[q].lastAccess < s'.pages[page].lastAccess
    {
      OnlyOne(cfg, s, a, page, q);
      MmuPages.StepOthers(cfg, s, a, q);
    }
  }

  lemma OnlyOne(cfg: Mmu.Config, s: Mmu.State, a: Mmu.Access, p: int, q: int)
    requires Mmu.Inv(s) && MmuPages.Uses(cfg, s, a, p) && p != q
    ensures !MmuPages.Uses(cfg, s, a, q)
  {
  }

  /** The pages that the TLB ranks in a set are the resident ones that belong there, in order of their last use. */
  lemma {:induction false} RunRanks(cfg: Mmu.Config, n: nat, trace: seq<Mmu.Access>, i: nat, sets: nat)
    requires sets > 0
    ensures Ranks(MmuRuns.Run(cfg, n, trace), UseOrder(i, sets, RunOps(cfg, n, trace)), i, sets)
  {
    hide Mmu.Inv, Mmu.Step, Ops, Ranks;
    if trace == [] {
      EmptyRanks(n, i, sets);
    } else {
      var before := trace[..|trace| - 1];
      RunRanks(cfg, n, before, i, sets);
      StepRanks(cfg, MmuRuns.Run(cfg, n, before), trace[|trace| - 1], RunOps(cfg, n, before), i, sets);
    }
  }

  lemma EmptyRanks(n: nat, i: nat, sets: nat)
    requires sets > 0
    ensures Ranks(Mmu.Fresh(n), [], i, sets)
  {
  }

  /** The page is resident, and one of the pages of its set used last, as far as the valid ways of the set reach. */
  ghost predicate Recent(cfg: Mmu.Config, n: nat, trace: seq<Mmu.Access>, sets: nat, ways: nat, page: nat)
    requires sets > 0
  {
    var i, ops := page % sets, RunOps(cfg, n, trace);
    page in MmuRuns.Run(cfg, n, trace).pages && IndexOf(UseOrder(i, sets, ops), page) < Kept(i, sets, ways, ops)
  }

  /**
   After any run of translations on a new TLB it knows a page exactly when the page is resident and one of the k
   resident pages of its set used last, k being the number of valid ways of the set.
   */
  lemma KnownPages(cfg: Mmu.Config, n: nat, trace: seq<Mmu.Access>, sets: nat, ways: nat, page: nat)
    requires sets > 0 && ways > 0
    ensures var (s, ops, i) := (MmuRuns.Run(cfg, n, trace), RunOps(cfg, n, trace), page % sets);
      && Ranks(s, UseOrder(i, sets, ops), i, sets)
      && Kept(i, sets, ways, ops) == CacheRecency.ValidCount(AsLines(TlbLru.Run(sets, ways, ops).table[i])) <= ways
      && ((exists f :: InTable(TlbLru.Run(sets, ways, ops).table, page, f)) <==>
            Recent(cfg, n, trace, sets, ways, page))
  {
    var i, ops := page % sets, RunOps(cfg, n, trace);
    RunRanks(cfg, n, trace, i, sets);
    MostRecentlyServed(sets, ways, ops, page);
    PrefixByIndex(UseOrder(i, sets, ops), page, Kept(i, sets, ways, ops));
    hide TlbLru.Run, UseOrder, Kept, RunOps, IndexOf, Distinct;
  }

  lemma {:induction false} KeptSome(i: nat, sets: nat, ways: nat, ops: seq<Op>)
    requires sets > 0 && ways > 0 && ops != [] && ops[|ops| - 1].Serve? && ops[|ops| - 1].vpn % sets == i
    ensures Kept(i, sets, ways, ops) > 0 && IndexOf(UseOrder(i, sets, ops), ops[|ops| - 1].vpn) == 0
  {
    var before, op := ops[..|ops| - 1], ops[|ops| - 1];
    var u := UseOrder(i, sets, before);
    IndexAtMost(u, op.vpn);
    MovedIndex(u, op.vpn, op.vpn);
    hide MoveToFront, IndexOf;
  }

  /** A page just translated is known: an immediate repeat is a TLB hit. */
  lemma JustUsed(cfg: Mmu.Config, n: nat, trace: seq<Mmu.Access>, a: Mmu.Access, sets: nat, ways: nat)
    requires sets > 0 && ways > 0 && MmuPages.Uses(cfg, MmuRuns.Run(cfg, n, trace), a, a.vaddr / 64)
    ensures Recent(cfg, n, trace + [a], sets, ways, a.vaddr / 64)
  {
    var s, page := MmuRuns.Run(cfg, n, trace), a.vaddr / 64;
    MmuRuns.RunExtend(cfg, n, trace, a);
    assert (trace + [a])[..|trace|] == trace;
    OpsAre(cfg, s, a, page);
    var ops := RunOps(cfg, n, trace + [a]);
    assert ops == RunOps(cfg, n, trace) + Ops(cfg, s, a);
    assert ops[|ops| - 1] == Serve(page, Mmu.Step(cfg, s, a).pages[page].frame);
    KeptSome(page % sets, sets, ways, ops);
    hide MmuRuns.Run, Mmu.Step, Ops, UseOrder, Kept, IndexOf;
  }

  /** What the TLB knows at the end of these operations. */
  ghost predicate Knows(t: State, ways: nat, ops: seq<Op>, page: nat) {
    Shaped(t, ways) && exists f :: InTable(Apply(t, ways, ops).table, page, f)
  }
}
