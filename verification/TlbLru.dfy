/** The TLB over whole runs: every set holds the pages it served last, as far as its ways reach. */
module TlbLru {
  import opened Common
  import opened Ways
  import opened Recency
  import opened CacheRecency
  import C = CacheModel
  import opened TlbUnit

  // ---------- one set ----------

  /** A TLB set seen as a cache set: page numbers are tags, and nothing is dirty. */
  function AsLines(lines: TlbSet): C.CacheSet {
    seq(|lines|, i requires 0 <= i < |lines| =>
      C.Line(lines[i].valid, false, lines[i].vpn, lines[i].lastAccess, lines[i].lastAccess, 0))
  }

  lemma AsLinesAgree(lines: TlbSet)
    ensures C.Tags(AsLines(lines)) == Tags(lines) && C.Keys(C.Lru, AsLines(lines)) == Stamps(lines)
  {
  }

  /** The set after a page is served: found and stamped, or missed and put in. */
  function Served(lines: TlbSet, vpn: nat, pfn: nat, now: nat): TlbSet
    requires lines != []
  {
    if Find(Tags(lines), vpn) < |lines| then Stamped(lines, vpn, now) else Placed(lines, vpn, pfn, now)
  }

  /** The list after a page is served: it goes to the front, and the last one leaves a full list. */
  function ServedList(r: RSet, vpn: nat, ways: nat): RSet {
    if vpn in r.dirty then TouchR(r, vpn, false) else FillR(r, vpn, false, ways)
  }

  /** The valid entries are the pages of the list, and their stamps fall along it. */
  ghost predicate InStep(lines: TlbSet, r: RSet, now: nat) {
    Realises(AsLines(lines), r) && Earlier(AsLines(lines), now + 1)
  }

  /** The list has the pages that a scan of the set finds. */
  lemma ListFinds(lines: TlbSet, r: RSet, vpn: nat)
    requires Realises(AsLines(lines), r)
    ensures vpn in r.dirty <==> Find(Tags(lines), vpn) < |lines|
    ensures vpn in r.dirty <==> C.Has(AsLines(lines), vpn)
  {
    AsLinesAgree(lines);
    C.FindHas(AsLines(lines), vpn);
    hide Find, NoDuplicates;
  }

  lemma StampedInStep(lines: TlbSet, r: RSet, vpn: nat, now: nat)
    requires InStep(lines, r, now) && Find(Tags(lines), vpn) < |lines|
    ensures vpn in r.dirty && InStep(Stamped(lines, vpn, now + 1), TouchR(r, vpn, false), now + 1)
  {
    ListFinds(lines, r, vpn);
    var l, w := AsLines(lines), Find(Tags(lines), vpn);
    FoundTag(lines, vpn, w);
    StampedAlike(lines, w, now + 1);
    hide Realises, TouchR, AsLines, Tags, Find, C.Has, Alike, Earlier;
    TouchRealises(l, r, w, false, now + 1);
    AlikeRealises(l[w := C.Touched(l[w], false, now + 1)], AsLines(lines[w := lines[w].(lastAccess := now + 1)]),
                  TouchR(r, vpn, false));
  }

  lemma StampedAlike(lines: TlbSet, w: nat, now: nat)
    requires w < |lines| && lines[w].valid && Earlier(AsLines(lines), now)
    ensures var (l, l') := (AsLines(lines), AsLines(lines[w := lines[w].(lastAccess := now)]));
      && |l| == |lines| && l[w].valid && l[w].tag == lines[w].vpn
      && Alike(l[w := C.Touched(l[w], false, now)], l') && Earlier(l', now + 1)
  {
  }

  lemma PlacedInStep(lines: TlbSet, r: RSet, vpn: nat, pfn: nat, now: nat)
    requires InStep(lines, r, now) && lines != [] && Find(Tags(lines), vpn) == |lines|
    ensures vpn !in r.dirty && InStep(Placed(lines, vpn, pfn, now + 1), FillR(r, vpn, false, |lines|), now + 1)
  {
    ListFinds(lines, r, vpn);
    AsLinesAgree(lines);
    var l, v := AsLines(lines), VictimWay(Stamps(lines));
    PlacedAlike(lines, v, vpn, pfn, now + 1);
    hide Realises, FillR, C.Has, AsLines, Tags, Stamps, Find, C.Tags, C.Keys, VictimWay, Alike, Earlier;
    FillRealises(l, r, vpn, false, now + 1);
    AlikeRealises(l[v := C.Filled(vpn, false, now + 1)], AsLines(lines[v := TlbEntry(true, vpn, pfn, now + 1)]),
                  FillR(r, vpn, false, |lines|));
  }

  lemma PlacedAlike(lines: TlbSet, w: nat, vpn: nat, pfn: nat, now: nat)
    requires w < |lines| && Earlier(AsLines(lines), now)
    ensures var (l, l') := (AsLines(lines), AsLines(lines[w := TlbEntry(true, vpn, pfn, now)]));
      && |l| == |lines| && Alike(l[w := C.Filled(vpn, false, now)], l') && Earlier(l', now + 1)
  {
  }

  lemma ServedInStep(lines: TlbSet, r: RSet, vpn: nat, pfn: nat, now: nat)
    requires InStep(lines, r, now) && lines != []
    ensures InStep(Served(lines, vpn, pfn, now + 1), ServedList(r, vpn, |lines|), now + 1)
  {
    hide InStep, Stamped, Placed, FillR, TouchR;
    if Find(Tags(lines), vpn) < |lines| {
      StampedInStep(lines, r, vpn, now);
    } else {
      PlacedInStep(lines, r, vpn, pfn, now);
    }
  }

  lemma DroppedInStep(lines: TlbSet, r: RSet, vpn: nat, now: nat)
    requires InStep(lines, r, now)
    ensures InStep(Dropped(lines, vpn), DropR(r, vpn), now)
  {
    AsLinesAgree(lines);
    var l, w := AsLines(lines), Find(Tags(lines), vpn);
    C.FindHas(l, vpn);
    if w < |lines| {
      assert l[w].valid && l[w].tag == vpn;
      hide Realises, DropR;
      ClearRealises(l, r, w);
      AlikeRealises(l[w := l[w].(valid := false)], AsLines(Dropped(lines, vpn)), DropR(r, vpn));
    } else {
      assert vpn !in r.dirty;
      IndexAtMost(r.order, vpn);
    }
  }

  lemma InStepHolds(lines: TlbSet, r: RSet, now: nat, vpn: nat)
    requires InStep(lines, r, now)
    ensures (exists p :: Holds(lines, vpn, p)) <==> vpn in r.order
  {
    var l := AsLines(lines);
    PrefixByIndex(r.order, vpn, |r.order|);
    assert r.order[..|r.order|] == r.order;
    if C.Has(l, vpn) {
      var i :| 0 <= i < |l| && l[i].valid && l[i].tag == vpn;
      assert Holds(lines, vpn, lines[i].pfn);
    }
    if p :| Holds(lines, vpn, p) {
      var i :| 0 <= i < |lines| && lines[i].valid && lines[i].vpn == vpn && lines[i].pfn == p;
      assert l[i].valid && l[i].tag == vpn;
    }
  }

  // ---------- lists that never forget ----------

  /** Serve: a lookup, and an insertion if it missed. Shoot: the page's translation is withdrawn. */
  datatype Op = Serve(vpn: nat, pfn: nat) | Shoot(vpn: nat)

  function Without(s: seq<int>, p: int): seq<int> {
    var i := IndexOf(s, p);
    if i < |s| then RemoveAt(s, i) else s
  }

  /** The pages of set i served and not shot down since, most recently served first. */
  function UseOrder(i: nat, sets: nat, ops: seq<Op>): seq<int>
    requires sets > 0
  {
    if ops == [] then []
    else
      var before, op := UseOrder(i, sets, ops[..|ops| - 1]), ops[|ops| - 1];
      if op.vpn % sets != i then before
      else if op.Serve? then MoveToFront(before, op.vpn) else Without(before, op.vpn)
  }

  lemma {:induction false} UseOrderDistinct(i: nat, sets: nat, ops: seq<Op>)
    requires sets > 0
    ensures Distinct(UseOrder(i, sets, ops))
  {
    if ops != [] {
      var before, op := UseOrder(i, sets, ops[..|ops| - 1]), ops[|ops| - 1];
      UseOrderDistinct(i, sets, ops[..|ops| - 1]);
      MoveToFrontDistinct(before, op.vpn);
      if IndexOf(before, op.vpn) < |before| {
        RemoveAtDistinct(before, IndexOf(before, op.vpn));
      }
      hide Distinct, MoveToFront, RemoveAt;
    }
  }

  /** k first pages of u after a page is served; the list of a set with that many valid ways. */
  function Reach(u: seq<int>, k: nat, vpn: int, ways: nat): nat {
    if IndexOf(u, vpn) < k || k == ways then k else k + 1
  }

  lemma PrefixIndex(u: seq<int>, k: nat, p: int)
    requires k <= |u|
    ensures IndexOf(u[..k], p) == if IndexOf(u, p) < k then IndexOf(u, p) else k
  {
    var i := IndexOf(u, p);
    if i < k {
      assert u[..k][..i] == u[..i];
      IndexOfAt(u[..k], p, i);
    } else {
      assert forall j :: 0 <= j < k ==> u[j] in u[..i];
      IndexOfAbsent(u[..k], p);
    }
  }

  lemma ServedPrefix(u: seq<int>, k: nat, r: RSet, vpn: nat, ways: nat)
    requires k <= |u| && k <= ways && ways > 0 && Listed(r) && r.order == u[..k]
    ensures Reach(u, k, vpn, ways) <= |MoveToFront(u, vpn)|
    ensures ServedList(r, vpn, ways).order == MoveToFront(u, vpn)[..Reach(u, k, vpn, ways)]
  {
    PrefixIndex(u, k, vpn);
    assert vpn in r.dirty <==> IndexOf(u, vpn) < k;
    MoveToFrontAt(u, vpn);
    MoveToFrontAt(u[..k], vpn);
    IndexAtMost(u, vpn);
    hide MoveToFront, IndexOf;
    assert ServedList(r, vpn, ways).order == MoveToFront(u, vpn)[..Reach(u, k, vpn, ways)];
  }

  lemma RemovePrefix(u: seq<int>, k: nat, i: nat)
    requires k <= |u| && i < |u|
    ensures |RemoveAt(u, i)| == |u| - 1
    ensures i < k ==> RemoveAt(u[..k], i) == RemoveAt(u, i)[..k - 1]
    ensures k <= i ==> u[..k] == RemoveAt(u, i)[..k]
  {
  }

  lemma DroppedPrefix(u: seq<int>, k: nat, r: RSet, vpn: nat)
    requires k <= |u| && r.order == u[..k]
    ensures var k' := if IndexOf(u, vpn) < k then k - 1 else k;
      k' <= |Without(u, vpn)| && DropR(r, vpn).order == Without(u, vpn)[..k']
  {
    PrefixIndex(u, k, vpn);
    IndexAtMost(u, vpn);
    if IndexOf(u, vpn) < |u| {
      RemovePrefix(u, k, IndexOf(u, vpn));
    }
    hide IndexOf, RemoveAt;
  }

  // ---------- whole runs ----------

  datatype State = State(table: seq<TlbSet>, timer: nat)

  function Empty(sets: nat, ways: nat): State {
    State(seq(sets, _ => seq(ways, _ => TlbEntry(false, 0, 0, 0))), 0)
  }

  predicate Shaped(s: State, ways: nat) {
    |s.table| > 0 && ways > 0 && forall i :: 0 <= i < |s.table| ==> |s.table[i]| == ways
  }

  function Step(s: State, ways: nat, op: Op): (s': State)
    requires Shaped(s, ways)
    ensures Shaped(s', ways) && |s'.table| == |s.table|
  {
    var i := op.vpn % |s.table|;
    match op
    case Serve(v, p) => State(s.table[i := Served(s.table[i], v, p, s.timer + 1)], s.timer + 1)
    case Shoot(v) => State(s.table[i := Dropped(s.table[i], v)], s.timer)
  }

  function Apply(s: State, ways: nat, ops: seq<Op>): (s': State)
    requires Shaped(s, ways)
    ensures Shaped(s', ways) && |s'.table| == |s.table|
  {
    if ops == [] then s else Step(Apply(s, ways, ops[..|ops| - 1]), ways, ops[|ops| - 1])
  }

  function Run(sets: nat, ways: nat, ops: seq<Op>): (s: State)
    requires sets > 0 && ways > 0
    ensures Shaped(s, ways) && |s.table| == sets
  {
    Apply(Empty(sets, ways), ways, ops)
  }

  lemma {:induction false} ApplyAll(s: State, ways: nat, ops: seq<Op>, more: seq<Op>)
    requires Shaped(s, ways)
    ensures Apply(s, ways, ops + more) == Apply(Apply(s, ways, ops), ways, more)
    decreases |more|
  {
    hide Step, Shaped;
    if more == [] {
      assert ops + more == ops;
    } else {
      var n := |more| - 1;
      ApplyAll(s, ways, ops, more[..n]);
      assert (ops + more)[..|ops| + n] == ops + more[..n] && (ops + more)[|ops| + n] == more[n];
      ApplyLast(s, ways, ops + more);
      ApplyLast(Apply(s, ways, ops), ways, more);
      hide Apply;
    }
  }

  lemma ApplyLast(s: State, ways: nat, ops: seq<Op>)
    requires Shaped(s, ways) && ops != []
    ensures Apply(s, ways, ops) == Step(Apply(s, ways, ops[..|ops| - 1]), ways, ops[|ops| - 1])
  {
  }

  /** A service is a lookup if the page is in its set, and otherwise an insertion. */
  lemma StepParts(s: State, ways: nat, vpn: nat, pfn: nat)
    requires Shaped(s, ways)
    ensures var now := s.timer + 1;
      Step(s, ways, Serve(vpn, pfn)) ==
        State(if Find(Tags(s.table[vpn % |s.table|]), vpn) < ways then LookedUp(s.table, vpn, now)
              else PutIn(s.table, vpn, pfn, now), now)
    ensures Step(s, ways, Shoot(vpn)) == State(ShotDown(s.table, vpn), s.timer)
  {
  }

  /** The set holds the first k pages of its use order, and stamps fall along them. */
  ghost predicate SetFollows(lines: TlbSet, now: nat, u: seq<int>, k: nat) {
    k <= |u| && k <= |lines| && exists r :: InStep(lines, r, now) && r.order == u[..k]
  }

  lemma SetLater(lines: TlbSet, now: nat, u: seq<int>, k: nat)
    requires SetFollows(lines, now, u, k)
    ensures SetFollows(lines, now + 1, u, k)
  {
    var r :| InStep(lines, r, now) && r.order == u[..k];
    assert InStep(lines, r, now + 1) by { hide Realises; }
    hide InStep;
  }

  lemma SetServed(lines: TlbSet, now: nat, u: seq<int>, k: nat, vpn: nat, pfn: nat)
    requires SetFollows(lines, now, u, k) && lines != []
    ensures SetFollows(Served(lines, vpn, pfn, now + 1), now + 1, MoveToFront(u, vpn), Reach(u, k, vpn, |lines|))
  {
    var r :| InStep(lines, r, now) && r.order == u[..k];
    assert Listed(r);
    ServedInStep(lines, r, vpn, pfn, now);
    ServedPrefix(u, k, r, vpn, |lines|);
    hide InStep, ServedList, MoveToFront;
  }

  lemma SetDropped(lines: TlbSet, now: nat, u: seq<int>, k: nat, vpn: nat)
    requires SetFollows(lines, now, u, k)
    ensures SetFollows(Dropped(lines, vpn), now, Without(u, vpn), if IndexOf(u, vpn) < k then k - 1 else k)
  {
    var r :| InStep(lines, r, now) && r.order == u[..k];
    DroppedInStep(lines, r, vpn, now);
    DroppedPrefix(u, k, r, vpn);
    hide InStep, DropR, Without;
  }

  /** How many pages of its use order set i holds: a service may add one, the shootdown of one of them takes one. */
  function Kept(i: nat, sets: nat, ways: nat, ops: seq<Op>): nat
    requires sets > 0
  {
    if ops == [] then 0
    else
      var before, op := ops[..|ops| - 1], ops[|ops| - 1];
      var k, u := Kept(i, sets, ways, before), UseOrder(i, sets, before);
      if op.vpn % sets != i then k
      else if op.Serve? then Reach(u, k, op.vpn, ways)
      else if IndexOf(u, op.vpn) < k && k > 0 then k - 1 else k
  }

  lemma EmptyFollows(ways: nat)
    ensures SetFollows(seq(ways, _ => TlbEntry(false, 0, 0, 0)), 0, [], 0)
  {
    var lines, r := seq(ways, _ => TlbEntry(false, 0, 0, 0)), RSet([], map[]);
    assert InStep(lines, r, 0) && r.order == [];
  }

  lemma {:induction false} RunFollows(i: nat, sets: nat, ways: nat, ops: seq<Op>)
    requires i < sets && ways > 0
    ensures var s := Run(sets, ways, ops);
      SetFollows(s.table[i], s.timer, UseOrder(i, sets, ops), Kept(i, sets, ways, ops))
  {
    hide SetFollows, Served, Dropped, Reach, MoveToFront, Without;
    if ops == [] {
      EmptyFollows(ways);
    } else {
      var before, op := ops[..|ops| - 1], ops[|ops| - 1];
      RunFollows(i, sets, ways, before);
      var s, u, k := Run(sets, ways, before), UseOrder(i, sets, before), Kept(i, sets, ways, before);
      if op.vpn % sets != i {
        if op.Serve? { SetLater(s.table[i], s.timer, u, k); }
      } else if op.Serve? {
        SetServed(s.table[i], s.timer, u, k, op.vpn, op.pfn);
      } else {
        SetDropped(s.table[i], s.timer, u, k, op.vpn);
      }
    }
  }

  /**
   After any run, a page is in the TLB exactly when it is among the k most recently served pages of its set that were
   not shot down since, where k is the number of valid ways of the set.
   */
  lemma MostRecentlyServed(sets: nat, ways: nat, ops: seq<Op>, vpn: nat)
    requires sets > 0 && ways > 0
    ensures var (s, i) := (Run(sets, ways, ops), vpn % sets);
      var (u, k) := (UseOrder(i, sets, ops), Kept(i, sets, ways, ops));
      && k == ValidCount(AsLines(s.table[i])) <= ways && k <= |u|
      && ((exists p :: InTable(s.table, vpn, p)) <==> vpn in u[..k])
  {
    var s, i := Run(sets, ways, ops), vpn % sets;
    var u, k := UseOrder(i, sets, ops), Kept(i, sets, ways, ops);
    RunFollows(i, sets, ways, ops);
    hide Run, UseOrder, Kept;
    var r :| InStep(s.table[i], r, s.timer) && r.order == u[..k];
    ListLength(AsLines(s.table[i]), r);
    InStepHolds(s.table[i], r, s.timer, vpn);
    hide InStep;
    assert forall p :: InTable(s.table, vpn, p) <==> Holds(s.table[i], vpn, p);
  }

  /** A set that loses no page to a shootdown holds as many of its most recently served pages as it has ways. */
  lemma {:induction false} KeptWithoutShootdowns(i: nat, sets: nat, ways: nat, ops: seq<Op>)
    requires i < sets && ways > 0
    requires forall op :: op in ops && op.Shoot? ==> op.vpn % sets != i
    ensures var u := UseOrder(i, sets, ops); Kept(i, sets, ways, ops) == if |u| <= ways then |u| else ways
  {
    if ops != [] {
      var before, op := ops[..|ops| - 1], ops[|ops| - 1];
      KeptWithoutShootdowns(i, sets, ways, before);
      MoveToFrontAt(UseOrder(i, sets, before), op.vpn);
      IndexAtMost(UseOrder(i, sets, before), op.vpn);
      hide MoveToFront, IndexOf;
    }
  }

  /** After a shootdown the set may hold fewer: page 0 was displaced by page 2, and does not come back. */
  lemma ShootdownLeavesGap()
    ensures var ops := [Serve(0, 0), Serve(1, 1), Serve(2, 2), Shoot(2)];
      UseOrder(0, 1, ops) == [1, 0] && !exists p :: InTable(Run(1, 2, ops).table, 0, p)
  {
    var ops := [Serve(0, 0), Serve(1, 1), Serve(2, 2), Shoot(2)];
    assert ops[..3] == [Serve(0, 0), Serve(1, 1), Serve(2, 2)];
    assert ops[..3][..2] == [Serve(0, 0), Serve(1, 1)];
    assert ops[..3][..2][..1] == [Serve(0, 0)];
    assert ops[..3][..2][..1][..0] == [];
    assert UseOrder(0, 1, ops[..3][..2][..1]) == [0] && Kept(0, 1, 2, ops[..3][..2][..1]) == 1;
    assert UseOrder(0, 1, ops[..3][..2]) == [1, 0] && Kept(0, 1, 2, ops[..3][..2]) == 2;
    assert UseOrder(0, 1, ops[..3]) == [2, 1, 0] && Kept(0, 1, 2, ops[..3]) == 2;
    assert UseOrder(0, 1, ops) == [1, 0] && Kept(0, 1, 2, ops) == 1;
    MostRecentlyServed(1, 2, ops, 0);
    hide Run;
  }

  // ---------- the object ----------

  /** A lookup, and an insertion if it missed. */
  method ServePage(tlb: Tlb, vpn: nat, pfn: nat)
    requires tlb.Valid() && Shaped(StateOf(tlb), tlb.ways)
    modifies tlb
    ensures tlb.Valid() && StateOf(tlb) == Step(old(StateOf(tlb)), tlb.ways, Serve(vpn, pfn))
  {
    KnownIsFound(tlb, vpn);
    StepParts(StateOf(tlb), tlb.ways, vpn, pfn);
    hide Tlb.Valid, Tlb.Cached, Find, LookedUp, PutIn, Step;
    var found := tlb.Lookup(vpn);
    if found < 0 {
      tlb.Insert(vpn, pfn);
    }
  }

  ghost function StateOf(tlb: Tlb): State
    reads tlb
  {
    State(tlb.table, tlb.timer)
  }

  lemma ValidShaped(tlb: Tlb)
    requires tlb.Valid()
    ensures Shaped(StateOf(tlb), tlb.ways) && tlb.sets == |tlb.table|
  {
    forall i | 0 <= i < |tlb.table|
      ensures |tlb.table[i]| == tlb.ways
    {
      assert SetOk(tlb.table[i], tlb.ways, |tlb.table|, i);
    }
  }

  /** The TLB knows the pages that a scan of their set finds. */
  lemma KnownIsFound(tlb: Tlb, vpn: nat)
    requires tlb.Valid()
    ensures tlb.sets > 0 && |tlb.table| == tlb.sets
    ensures tlb.Knows(vpn) <==> Find(Tags(tlb.table[vpn % tlb.sets]), vpn) < tlb.ways
  {
    var lines := tlb.table[vpn % tlb.sets];
    assert SetOk(lines, tlb.ways, tlb.sets, vpn % tlb.sets);
    FoundIsCached(lines, vpn);
    var w := Find(Tags(lines), vpn);
    if w < |lines| {
      assert tlb.Cached(vpn, lines[w].pfn);
    }
  }

  /** The run on a TLB object: each service is a lookup, and an insertion if that missed. */
  method ServeAll(tlb: Tlb, ops: seq<Op>)
    requires tlb.Valid() && tlb.sets > 0 && tlb.ways > 0 && StateOf(tlb) == Empty(tlb.sets, tlb.ways)
    modifies tlb
    ensures tlb.Valid() && StateOf(tlb) == Run(tlb.sets, tlb.ways, ops)
  {
    for n := 0 to |ops|
      invariant tlb.Valid() && StateOf(tlb) == Run(tlb.sets, tlb.ways, ops[..n])
    {
      ValidShaped(tlb);
      assert ops[..n + 1][..n] == ops[..n];
      hide Served, Dropped, Tlb.Valid;
      match ops[n]
      case Serve(v, p) => ServePage(tlb, v, p);
      case Shoot(v) => tlb.Invalidate(v);
    }
    assert ops[..|ops|] == ops;
  }
}
