/** First-in first-out paging: selection by load time is a true queue, and frames are reused round robin. */
module MmuFifo {
  import opened Bits
  import opened Common
  import opened Mmu
  import opened MmuRuns

  /** The pages loaded by the faults of a run, in order. */
  ghost function Loads(cfg: Config, n: nat, trace: seq<Access>): seq<int> {
    if trace == [] then []
    else
      var before, a := trace[..|trace| - 1], trace[|trace| - 1];
      if Admitted(cfg, a) && PageOf(a) !in Run(cfg, n, before).pages
      then Loads(cfg, n, before) + [PageOf(a)] else Loads(cfg, n, before)
  }

  /** Number of loads whose pages have been thrown out again. */
  function Gone(n: nat, loads: nat): nat {
    if loads <= n then 0 else loads - n
  }

  function LoadTime(s: State, p: int): nat {
    if p in s.pages then s.pages[p].loaded else 0
  }

  /** The page of load i is resident, in frame i mod n. */
  ghost predicate InQueue(s: State, l: seq<int>, i: nat)
    requires i < |l| && |s.frames| > 0
  {
    l[i] in s.pages && s.pages[l[i]].frame == i % |s.frames|
  }

  ghost predicate LoadedSince(l: seq<int>, gone: nat, p: int) {
    exists i: nat :: gone <= i < |l| && l[i] == p
  }

  ghost predicate Rising(s: State, l: seq<int>, gone: nat) {
    forall i, j :: gone <= i < j < |l| ==> LoadTime(s, l[i]) < LoadTime(s, l[j])
  }

  /** The resident pages are those loaded since `gone`, their load times rise, and frames are used in turn. */
  ghost predicate Queue(s: State, l: seq<int>, gone: nat) {
    && |s.frames| > 0 && gone <= |l|
    && (forall i: nat :: gone <= i < |l| ==> InQueue(s, l, i))
    && (forall p :: p in s.pages ==> LoadedSince(l, gone, p))
    && Rising(s, l, gone)
  }

  /** The resident pages are the last n loaded; frames not used yet are free, in order. */
  ghost predicate Queued(s: State, l: seq<int>) {
    var gone := Gone(|s.frames|, |l|);
    && Queue(s, l, gone)
    && |s.free| == |s.frames| - (|l| - gone)
    && (forall i :: 0 <= i < |s.free| ==> s.free[i] == |l| + i)
  }

  lemma WrapAround(i: nat, n: nat)
    requires n > 0
    ensures i < n ==> i % n == i
    ensures (i + n) % n == i % n
  {
    var q, r := i / n, i % n;
    MulMonotonic(q, q, n);
    QuotientUnique(i + n, n, q + 1, r);
  }

  lemma HitQueued(s: State, l: seq<int>, page: nat, write: bool)
    requires Queued(s, l) && page in s.pages
    ensures Queued(Touch(s, page, write), l)
  {
    var s', gone := Touch(s, page, write), Gone(|s.frames|, |l|);
    forall i: nat | gone <= i < |l|
      ensures InQueue(s', l, i)
    {
      assert InQueue(s, l, i);
    }
    assert forall p :: LoadTime(s', p) == LoadTime(s, p);
  }

  /** With all frames full the first page of the queue is resident in the frame whose turn it is, and loaded first. */
  lemma FirstLoaded(s: State, l: seq<int>)
    requires Full(s) && Queued(s, l)
    ensures |l| >= |s.frames|
    ensures var (n, gone) := (|s.frames|, Gone(|s.frames|, |l|));
      && l[gone] in s.pages && s.pages[l[gone]].frame == gone % n
      && forall p :: p in s.pages ==> s.pages[l[gone]].loaded <= s.pages[p].loaded
  {
    hide Inv;
    var gone := Gone(|s.frames|, |l|);
    assert InQueue(s, l, gone);
    forall p | p in s.pages
      ensures s.pages[l[gone]].loaded <= s.pages[p].loaded
    {
      assert LoadedSince(l, gone, p);
      var i: nat :| gone <= i < |l| && l[i] == p;
      assert LoadTime(s, l[gone]) <= LoadTime(s, l[i]);
    }
  }

  /** The oldest page in the queue is the one FIFO selects. */
  lemma VictimIsFirst(s: State, l: seq<int>)
    requires Full(s) && Queued(s, l)
    ensures |l| >= |s.frames| && s.frames[Victim(Fifo, s)] == l[|l| - |s.frames|]
    ensures Victim(Fifo, s) == |l| % |s.frames|
  {
    FirstLoaded(s, l);
    hide Queued;
    var n, gone, v := |s.frames|, Gone(|s.frames|, |l|), Victim(Fifo, s);
    var first, page := l[gone], s.frames[v];
    assert MappingOf(s, s.pages[first].frame) == s.pages[first];
    assert s.pages[page] == MappingOf(s, v);
    WrapAround(gone, n);
  }

  lemma SameTimesRise(s: State, s': State, l: seq<int>, gone: nat, from: nat)
    requires Rising(s, l, gone) && gone <= from
    requires forall i :: from <= i < |l| ==> LoadTime(s', l[i]) == LoadTime(s, l[i])
    ensures Rising(s', l, from)
  {
  }

  /** Without its first page the rest is still a queue. */
  lemma DropFirst(s: State, e: State, l: seq<int>, gone: nat)
    requires Queue(s, l, gone) && gone < |l| && |e.frames| == |s.frames|
    requires e.pages.Keys == s.pages.Keys - {l[gone]}
    requires forall p :: p in e.pages ==> e.pages[p].frame == s.pages[p].frame && e.pages[p].loaded == s.pages[p].loaded
    ensures Queue(e, l, gone + 1)
  {
    assert InQueue(s, l, gone);
    forall i: nat | gone + 1 <= i < |l|
      ensures InQueue(e, l, i) && LoadTime(e, l[i]) == LoadTime(s, l[i])
    {
      assert InQueue(s, l, i);
      assert LoadTime(s, l[gone]) < LoadTime(s, l[i]);
    }
    SameTimesRise(s, e, l, gone, gone + 1);
    forall p | p in e.pages
      ensures LoadedSince(l, gone + 1, p)
    {
      assert LoadedSince(l, gone, p) && p != l[gone];
    }
  }

  lemma EvictQueue(s: State, l: seq<int>)
    requires Full(s) && Queued(s, l)
    ensures Queue(Evict(Fifo, s), l, |l| - |s.frames| + 1)
    ensures Evict(Fifo, s).free == [|l| % |s.frames|] && |Evict(Fifo, s).frames| == |s.frames|
  {
    VictimIsFirst(s, l);
    EvictInv(Fifo, s);
    hide Evict, Inv, Victim, Queue;
    DropFirst(s, Evict(Fifo, s), l, |l| - |s.frames|);
  }

  lemma LoadQueue(s: State, l: seq<int>, page: nat, write: bool, gone: nat)
    requires Queue(s, l, gone) && page !in s.pages && AllEarlier(s)
    requires forall p :: p in s.pages ==> s.pages[p].loaded <= s.pages[p].lastAccess
    requires s.free != [] && s.free[0] == |l| % |s.frames|
    ensures Queue(Load(s, page, write), l + [page], gone)
  {
    var s', l' := Load(s, page, write), l + [page];
    forall i: nat | gone <= i < |l'|
      ensures InQueue(s', l', i)
      ensures i < |l| ==> LoadTime(s', l'[i]) == LoadTime(s, l[i]) < s.clock
    {
      if i < |l| {
        assert InQueue(s, l, i);
      }
    }
    forall p | p in s'.pages
      ensures LoadedSince(l', gone, p)
    {
      if p == page {
        assert l'[|l|] == p;
      } else {
        var i: nat :| gone <= i < |l| && l[i] == p;
        assert l'[i] == p;
      }
    }
  }

  lemma FaultQueued(c: State, l: seq<int>, page: nat, write: bool)
    requires Inv(c) && Queued(c, l) && page !in c.pages && AllEarlier(c)
    ensures var s' := Load(if c.free != [] then c else Evict(Fifo, c), page, write);
      Queued(s', l + [page]) && page in s'.pages && s'.pages[page].frame == |l| % |c.frames|
  {
    assert Queue(c, l, Gone(|c.frames|, |l|));
    if c.free != [] {
      WrapAround(|l|, |c.frames|);
      LoadQueue(c, l, page, write, 0);
    } else {
      ReplaceQueued(c, l, page, write);
      hide Evict, Queue;
    }
  }

  lemma ReplaceQueued(c: State, l: seq<int>, page: nat, write: bool)
    requires Full(c) && Queued(c, l) && page !in c.pages && AllEarlier(c)
    ensures var s', n := Load(Evict(Fifo, c), page, write), |c.frames|;
      && s'.pages.Keys == Evict(Fifo, c).pages.Keys + {page} && s'.pages[page].frame == |l| % n
      && |s'.frames| == n && s'.free == []
      && Queue(s', l + [page], |l| + 1 - n) && |l| >= n
  {
    EvictQueue(c, l);
    EvictInv(Fifo, c);
    VictimIsFirst(c, l);
    hide Queue, Queued, Evict, Victim;
    var e := Evict(Fifo, c);
    assert AllEarlier(e);
    LoadQueue(e, l, page, write, |l| - |c.frames| + 1);
  }

  /** The queue is unaffected by the counters. */
  lemma QueueOnly(s: State, s': State, l: seq<int>, gone: nat)
    requires Queue(s, l, gone) && s'.pages == s.pages && s'.frames == s.frames
    ensures Queue(s', l, gone)
  {
    forall i: nat | gone <= i < |l|
      ensures InQueue(s', l, i)
    {
      assert InQueue(s, l, i);
    }
    assert forall p :: LoadTime(s', p) == LoadTime(s, p);
  }

  lemma StepQueued(cfg: Config, s: State, l: seq<int>, a: Access)
    requires cfg.policy == Fifo && Inv(s) && Queued(s, l)
    ensures var s', loads := Step(cfg, s, a), Admitted(cfg, a) && PageOf(a) !in s.pages;
      && Queued(s', if loads then l + [PageOf(a)] else l)
      && (loads ==> PageOf(a) in s'.pages && s'.pages[PageOf(a)].frame == |l| % |s.frames|)
  {
    var t, page, gone := Tick(s), PageOf(a), Gone(|s.frames|, |l|);
    if Admitted(cfg, a) {
      TickInv(s);
      QueueOnly(s, t, l, gone);
      QueueOnly(s, Charge(t), l, gone);
      hide Queue, Inv, Touch, Load, Evict, AllEarlier;
      if page in s.pages {
        HitQueued(t, l, page, a.write);
      } else {
        FaultQueued(Charge(t), l, page, a.write);
      }
    }
  }

  /** Under FIFO the frames hold exactly the pages loaded last, oldest load first, and every fault is a load. */
  lemma {:induction false} FifoQueue(cfg: Config, n: nat, trace: seq<Access>)
    requires cfg.policy == Fifo && n > 0
    ensures Queued(Run(cfg, n, trace), Loads(cfg, n, trace))
    ensures |Loads(cfg, n, trace)| == Run(cfg, n, trace).faults
  {
    hide Queued, Inv, Step, Admitted;
    if trace == [] {
      FreshQueued(n);
    } else {
      var before, a := trace[..|trace| - 1], trace[|trace| - 1];
      FifoQueue(cfg, n, before);
      StepQueued(cfg, Run(cfg, n, before), Loads(cfg, n, before), a);
      FaultsWhenAbsent(cfg, Run(cfg, n, before), a);
    }
  }

  lemma FreshQueued(n: nat)
    requires n > 0
    ensures Queued(Fresh(n), [])
  {
  }

  /** The k-th fault of a run, counted from 0, always uses frame k mod n. */
  lemma RoundRobin(cfg: Config, n: nat, trace: seq<Access>, a: Access)
    requires cfg.policy == Fifo && n > 0
    requires Admitted(cfg, a) && PageOf(a) !in Run(cfg, n, trace).pages
    ensures var s' := Run(cfg, n, trace + [a]);
      PageOf(a) in s'.pages && s'.pages[PageOf(a)].frame == Run(cfg, n, trace).faults % n
  {
    FifoQueue(cfg, n, trace);
    RunExtend(cfg, n, trace, a);
    StepQueued(cfg, Run(cfg, n, trace), Loads(cfg, n, trace), a);
  }

  // ---------- more frames can fault more ----------

  lemma ResidentInQueue(s: State, l: seq<int>, gone: nat, p: int)
    requires Queue(s, l, gone)
    ensures p in s.pages <==> p in l[gone..]
  {
    hide Rising;
    if p in s.pages {
      assert LoadedSince(l, gone, p);
      var i: nat :| gone <= i < |l| && l[i] == p;
      assert l[gone..][i - gone] == p;
    }
    if p in l[gone..] {
      var i: nat :| i < |l| - gone && l[gone..][i] == p;
      assert InQueue(s, l, gone + i);
    }
  }

  /** Under FIFO the resident pages are the last n loaded. */
  lemma LastLoadedResident(cfg: Config, n: nat, trace: seq<Access>, p: int)
    requires cfg.policy == Fifo && n > 0
    ensures var l := Loads(cfg, n, trace);
      p in Run(cfg, n, trace).pages <==> p in l[Gone(n, |l|)..]
  {
    var l := Loads(cfg, n, trace);
    FifoQueue(cfg, n, trace);
    hide Run, Loads, Queue, Gone;
    ResidentInQueue(Run(cfg, n, trace), l, Gone(n, |l|), p);
  }

  function PagesOf(trace: seq<Access>): seq<int> {
    seq(|trace|, i requires 0 <= i < |trace| => PageOf(trace[i]))
  }

  /** The loads after one more page is used. */
  function Used(n: nat, loads: seq<int>, p: int): seq<int> {
    if p in loads[Gone(n, |loads|)..] then loads else loads + [p]
  }

  /** The loads of a queue of n places, page by page. */
  function QueueLoads(n: nat, loads: seq<int>, pages: seq<int>): seq<int>
    decreases |pages|
  {
    if pages == [] then loads else QueueLoads(n, Used(n, loads, pages[0]), pages[1..])
  }

  lemma {:induction false} QueueExtend(n: nat, loads: seq<int>, pages: seq<int>, p: int)
    ensures QueueLoads(n, loads, pages + [p]) == Used(n, QueueLoads(n, loads, pages), p)
    decreases |pages|
  {
    if pages == [] {
      assert [p][1..] == [];
    } else {
      assert (pages + [p])[1..] == pages[1..] + [p];
      QueueExtend(n, Used(n, loads, pages[0]), pages[1..], p);
    }
  }

  lemma LoadsStep(cfg: Config, n: nat, before: seq<Access>, a: Access)
    requires cfg.policy == Fifo && n > 0 && Admitted(cfg, a)
    ensures Loads(cfg, n, before + [a]) == Used(n, Loads(cfg, n, before), PageOf(a))
  {
    assert (before + [a])[..|before|] == before;
    LastLoadedResident(cfg, n, before, PageOf(a));
    hide Run, Admitted, PageOf;
  }

  lemma PagesExtend(trace: seq<Access>, a: Access)
    ensures PagesOf(trace + [a]) == PagesOf(trace) + [PageOf(a)]
  {
  }

  lemma {:induction false} LoadsOfQueue(cfg: Config, n: nat, trace: seq<Access>)
    requires cfg.policy == Fifo && n > 0 && forall a :: a in trace ==> Admitted(cfg, a)
    ensures Loads(cfg, n, trace) == QueueLoads(n, [], PagesOf(trace))
  {
    hide Run, Admitted, PageOf, Used;
    if trace != [] {
      var before, a := trace[..|trace| - 1], trace[|trace| - 1];
      hide Loads, QueueLoads, PagesOf;
      LoadsOfQueue(cfg, n, before);
      PagesExtend(before, a);
      assert trace == before + [a];
      LoadsStep(cfg, n, before, a);
      QueueExtend(n, [], PagesOf(before), PageOf(a));
    }
  }

  /** FIFO paging is the plain queue: it loads what the queue loads, so it faults as often. */
  lemma FaultsOfQueue(cfg: Config, n: nat, trace: seq<Access>)
    requires cfg.policy == Fifo && n > 0 && forall a :: a in trace ==> Admitted(cfg, a)
    ensures Loads(cfg, n, trace) == QueueLoads(n, [], PagesOf(trace))
    ensures Run(cfg, n, trace).faults == |QueueLoads(n, [], PagesOf(trace))|
  {
    hide *;
    FifoQueue(cfg, n, trace);
    LoadsOfQueue(cfg, n, trace);
  }

  /** A read of each page. */
  function Reads(pages: seq<nat>): seq<Access> {
    seq(|pages|, i requires 0 <= i < |pages| => Access(pages[i] * PAGE_SIZE, false, Allowed))
  }

  lemma ReadsPages(pages: seq<nat>)
    ensures PagesOf(Reads(pages)) == pages
  {
  }

  /** The queue goes through the given states. */
  lemma {:induction false} Trail(n: nat, pages: seq<int>, states: seq<seq<int>>)
    requires |states| == |pages| + 1
    requires forall i :: 0 <= i < |pages| ==> states[i + 1] == Used(n, states[i], pages[i])
    ensures QueueLoads(n, states[0], pages) == states[|pages|]
    decreases |pages|
  {
    hide Used;
    if pages != [] {
      var after := states[1..];
      assert after[|pages| - 1] == states[|pages|];
      Trail(n, pages[1..], after);
    }
  }

  const BELADY: seq<nat> := [1, 2, 3, 4, 1, 2, 5, 1, 2, 3, 4, 5]

  lemma ThreeFrames()
    ensures QueueLoads(3, [], BELADY) == [1, 2, 3, 4, 1, 2, 5, 3, 4]
  {
    hide QueueLoads;
    Trail(3, BELADY, [
      [], [1], [1, 2], [1, 2, 3], [1, 2, 3, 4], [1, 2, 3, 4, 1], [1, 2, 3, 4, 1, 2], [1, 2, 3, 4, 1, 2, 5],
      [1, 2, 3, 4, 1, 2, 5], [1, 2, 3, 4, 1, 2, 5], [1, 2, 3, 4, 1, 2, 5, 3], [1, 2, 3, 4, 1, 2, 5, 3, 4],
      [1, 2, 3, 4, 1, 2, 5, 3, 4]]);
  }

  lemma FourFrames()
    ensures QueueLoads(4, [], BELADY) == [1, 2, 3, 4, 5, 1, 2, 3, 4, 5]
  {
    hide QueueLoads;
    Trail(4, BELADY, [
      [], [1], [1, 2], [1, 2, 3], [1, 2, 3, 4], [1, 2, 3, 4], [1, 2, 3, 4], [1, 2, 3, 4, 5], [1, 2, 3, 4, 5, 1],
      [1, 2, 3, 4, 5, 1, 2], [1, 2, 3, 4, 5, 1, 2, 3], [1, 2, 3, 4, 5, 1, 2, 3, 4], [1, 2, 3, 4, 5, 1, 2, 3, 4, 5]]);
  }

  /** Belady's anomaly: on these twelve reads three frames fault nine times and four frames ten times. */
  lemma FourFramesFaultMore(cfg: Config)
    requires cfg.policy == Fifo && cfg.limit >= 6 * PAGE_SIZE
    ensures Run(cfg, 3, Reads(BELADY)).faults == 9 && Run(cfg, 4, Reads(BELADY)).faults == 10
  {
    ReadsPages(BELADY);
    assert forall p :: p in BELADY ==> p <= 5;
    forall a | a in Reads(BELADY)
      ensures Admitted(cfg, a)
    {
    }
    hide Run, QueueLoads, Reads;
    ThreeFrames();
    FourFrames();
    FaultsOfQueue(cfg, 3, Reads(BELADY));
    FaultsOfQueue(cfg, 4, Reads(BELADY));
  }
}
