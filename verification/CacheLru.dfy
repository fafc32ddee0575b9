/**
 The hierarchy under LRU as three levels of move-to-front lists without any timestamps, and the proof that
 the timestamped hierarchy behaves exactly like it on every run of requests and frame invalidations.
 */
module CacheLru {
  import opened Common
  import opened Ways
  import opened CacheModel
  import opened CacheRecency

  datatype RLevel = RLevel(blockSize: nat, ways: nat, sets: seq<RSet>)

  predicate ShapedR(l: RLevel) {
    l.blockSize > 0 && l.ways > 0 && |l.sets| > 0
  }

  predicate SameShapeR(l: RLevel, l': RLevel) {
    l'.blockSize == l.blockSize && l'.ways == l.ways && |l'.sets| == |l.sets|
  }

  function BlockR(l: RLevel, address: nat): nat
    requires l.blockSize > 0
  {
    address / l.blockSize
  }

  function StartR(l: RLevel, ev: Evicted): nat {
    ev.block * l.blockSize
  }

  function PutR(l: RLevel, block: nat, r: RSet): (l': RLevel)
    requires ShapedR(l)
    ensures SameShapeR(l, l')
  {
    l.(sets := l.sets[block % |l.sets| := r])
  }

  function AccessR(l: RLevel, block: nat, write: bool): (r: (RLevel, bool))
    requires ShapedR(l)
    ensures SameShapeR(l, r.0)
  {
    var s, tag := l.sets[block % |l.sets|], block / |l.sets|;
    if tag in s.dirty then (PutR(l, block, TouchR(s, tag, write)), true) else (l, false)
  }

  function InsertR(l: RLevel, block: nat, write: bool): (r: (RLevel, Option<Evicted>))
    requires ShapedR(l)
    ensures SameShapeR(l, r.0)
  {
    var i, tag := block % |l.sets|, block / |l.sets|;
    var s := l.sets[i];
    var last := LastR(s, l.ways);
    (PutR(l, block, FillR(s, tag, write, l.ways)),
     if last.Some? && last.value >= 0 && last.value in s.dirty
     then Some(Evicted(last.value * |l.sets| + i, s.dirty[last.value])) else None)
  }

  function InvalidateR(l: RLevel, block: nat): (r: (RLevel, bool))
    requires ShapedR(l)
    ensures SameShapeR(l, r.0)
  {
    var s, tag := l.sets[block % |l.sets|], block / |l.sets|;
    if tag in s.dirty then (PutR(l, block, DropR(s, tag)), s.dirty[tag]) else (l, false)
  }

  function RangeR(l: RLevel, from: nat, to: nat): (l': RLevel)
    requires ShapedR(l)
    ensures SameShapeR(l, l')
    decreases if from < to then to - from else 0
  {
    if from >= to then l else RangeR(InvalidateR(l, BlockR(l, from)).0, from + l.blockSize, to)
  }

  // ---------- one level ----------

  /** Every set realises its list. */
  ghost predicate RealisesL(l: Level, r: RLevel) {
    && l.policy == Lru && Ok(l)
    && r.blockSize == l.blockSize && r.ways == l.ways && |r.sets| == |l.sets|
    && forall i: nat :: i < |l.sets| ==> Realises(l.sets[i], r.sets[i])
  }

  /** No line carries a stamp from `now` on. */
  ghost predicate Before(l: Level, now: nat) {
    forall i: nat :: i < |l.sets| ==> Earlier(l.sets[i], now)
  }

  /** No two valid lines of the level carry the same access time. */
  ghost predicate TimesDistinct(l: Level) {
    forall i: nat, a: nat, j: nat, b: nat ::
      ValidAt(l, i, a) && ValidAt(l, j, b) && l.sets[i][a].lastAccess == l.sets[j][b].lastAccess ==> i == j && a == b
  }

  ghost predicate ValidAt(l: Level, i: nat, a: nat) {
    i < |l.sets| && a < |l.sets[i]| && l.sets[i][a].valid
  }

  /** A level and its lists, with distinct stamps up to the present. */
  ghost predicate InStep(l: Level, r: RLevel) {
    RealisesL(l, r) && Before(l, l.counter + 1) && TimesDistinct(l)
  }

  /** The level has just been probed for the block and missed. */
  ghost predicate Missed(l: Level, block: nat) {
    |l.sets| > 0 && Before(l, l.counter) && !Contains(l, block)
  }

  lemma PutTimes(l: Level, block: nat, w: nat, line: Line)
    requires Shaped(l) && TimesDistinct(l) && w < l.ways && (line.valid ==> Before(l, line.lastAccess))
    ensures TimesDistinct(Put(l, block, w, line))
  {
    var l' := Put(l, block, w, line);
    forall i: nat, a: nat | ValidAt(l', i, a)
      ensures (i == block % |l.sets| && a == w) || (ValidAt(l, i, a) && l'.sets[i][a] == l.sets[i][a])
    {
    }
    assert line.valid ==> forall i: nat, a: nat :: ValidAt(l, i, a) ==>
      Earlier(l.sets[i], line.lastAccess) && l.sets[i][a].lastAccess < line.lastAccess;
  }

  lemma PutRealises(l: Level, r: RLevel, block: nat, w: nat, line: Line, s: RSet)
    requires RealisesL(l, r) && w < l.ways
    requires Realises(l.sets[block % |l.sets|][w := line], s)
    ensures Shaped(l) && RealisesL(Put(l, block, w, line), PutR(r, block, s))
  {
    hide Realises;
    assert NoDuplicates(Tags(l.sets[block % |l.sets|][w := line]))
      by { RealisesDistinct(l.sets[block % |l.sets|][w := line], s); }
  }

  lemma RealisesDistinct(lines: CacheSet, r: RSet)
    requires Realises(lines, r)
    ensures NoDuplicates(Tags(lines))
  {
  }

  lemma PutBefore(l: Level, block: nat, w: nat, line: Line, now: nat)
    requires Shaped(l) && Before(l, now) && w < l.ways && (line.valid ==> line.lastAccess < now)
    ensures Before(Put(l, block, w, line), now)
  {
    var l' := Put(l, block, w, line);
    forall i: nat | i < |l'.sets|
      ensures Earlier(l'.sets[i], now)
    {
      assert Earlier(l.sets[i], now);
    }
  }

  /** A found way is the line with the tag, and then the list has the tag too. */
  lemma FoundWay(lines: CacheSet, r: RSet, tag: nat)
    requires Realises(lines, r)
    ensures var w := Find(Tags(lines), tag);
      && (w < |lines| <==> tag in r.dirty)
      && (w < |lines| <==> Has(lines, tag))
      && (w < |lines| ==> lines[w].valid && lines[w].tag == tag && lines[w].dirty == r.dirty[tag])
  {
    FindHas(lines, tag);
    var w := Find(Tags(lines), tag);
    if w < |lines| {
      assert Tags(lines)[w] == Some(tag);
    }
    if Has(lines, tag) {
      var i :| 0 <= i < |lines| && lines[i].valid && lines[i].tag == tag;
    }
  }

  lemma SameTimes(l: Level, l': Level)
    requires TimesDistinct(l) && l'.sets == l.sets
    ensures TimesDistinct(l')
  {
    assert forall i: nat, a: nat :: ValidAt(l', i, a) ==> ValidAt(l, i, a);
  }

  lemma AccessHit(l: Level, block: nat, write: bool)
    requires Shaped(l) && WayOf(l, block) < l.ways
    ensures var c, w := l.(counter := l.counter + 1), WayOf(l, block);
      && WayOf(c, block) == w
      && Access(l, block, write) ==
        (Put(c, block, w, Touched(c.sets[block % |c.sets|][w], write, c.counter)).(hits := l.hits + 1), true)
  {
  }

  lemma AccessHitR(r: RLevel, block: nat, write: bool)
    requires ShapedR(r) && block / |r.sets| in r.sets[block % |r.sets|].dirty
    ensures AccessR(r, block, write) ==
      (PutR(r, block, TouchR(r.sets[block % |r.sets|], block / |r.sets|, write)), true)
  {
  }

  lemma HitRealises(l: Level, r: RLevel, block: nat, write: bool)
    requires InStep(l, r) && Shaped(l) && WayOf(l, block) < l.ways
    ensures ShapedR(r)
    ensures Access(l, block, write).1 && AccessR(r, block, write).1
    ensures InStep(Access(l, block, write).0, AccessR(r, block, write).0)
  {
    var c, w := l.(counter := l.counter + 1), WayOf(l, block);
    TickedLevel(l, r);
    SetOf(l, r, block);
    AccessHit(l, block, write);
    hide *;
    TouchLevel(c, r, block, w, write);
    AccessHitR(r, block, write);
    var t := Put(c, block, w, Touched(c.sets[block % |c.sets|][w], write, c.counter));
    Recounted(t, t.(hits := l.hits + 1), AccessR(r, block, write).0);
  }

  lemma MissRealises(l: Level, r: RLevel, block: nat, write: bool)
    requires InStep(l, r) && Shaped(l) && WayOf(l, block) == l.ways
    ensures ShapedR(r)
    ensures !Access(l, block, write).1 && !AccessR(r, block, write).1
    ensures InStep(Access(l, block, write).0, AccessR(r, block, write).0) && Missed(Access(l, block, write).0, block)
  {
    var c := l.(counter := l.counter + 1);
    TickedLevel(l, r);
    SetOf(l, r, block);
    hide InStep, Before, Has, Find, Tags, Put, PutR;
    Recounted(c, c.(misses := l.misses + 1), r);
  }

  lemma AccessRealises(l: Level, r: RLevel, block: nat, write: bool)
    requires InStep(l, r)
    ensures Shaped(l) && ShapedR(r)
    ensures var ((l', hit), (r', hit')) := (Access(l, block, write), AccessR(r, block, write));
      InStep(l', r') && hit == hit' && (!hit ==> Missed(l', block))
  {
    SetOf(l, r, block);
    hide *;
    WayAtMost(l, block);
    if WayOf(l, block) < l.ways {
      HitRealises(l, r, block, write);
    } else {
      MissRealises(l, r, block, write);
    }
  }

  lemma WayAtMost(l: Level, block: nat)
    requires Shaped(l)
    ensures WayOf(l, block) <= l.ways
  {
  }

  /** The statistics play no part. */
  lemma Recounted(l: Level, l': Level, r: RLevel)
    requires InStep(l, r) && l' == l.(hits := l'.hits, misses := l'.misses)
    ensures InStep(l', r) && (Before(l, l.counter) ==> Before(l', l'.counter))
  {
    SameTimes(l, l');
  }

  lemma SetOf(l: Level, r: RLevel, block: nat)
    requires InStep(l, r)
    ensures Shaped(l) && ShapedR(r) && |r.sets| == |l.sets|
    ensures var lines, tag, w := l.sets[block % |l.sets|], block / |l.sets|, WayOf(l, block);
      && (w < l.ways <==> tag in r.sets[block % |l.sets|].dirty)
      && (w < l.ways <==> Has(lines, tag))
      && (w < l.ways ==> lines[w].valid && lines[w].tag == tag && lines[w].dirty == r.sets[block % |l.sets|].dirty[tag])
  {
    var i := block % |l.sets|;
    assert Realises(l.sets[i], r.sets[i]);
    FoundWay(l.sets[i], r.sets[i], block / |l.sets|);
  }

  /** Counting a probe makes the present later than every stamp. */
  lemma TickedLevel(l: Level, r: RLevel)
    requires InStep(l, r)
    ensures var c := l.(counter := l.counter + 1); InStep(c, r) && Before(c, c.counter)
  {
    var c := l.(counter := l.counter + 1);
    SameTimes(l, c);
    assert Before(c, c.counter);
    BeforeLater(c, c.counter);
  }

  lemma TouchLevel(c: Level, r: RLevel, block: nat, w: nat, write: bool)
    requires InStep(c, r) && Before(c, c.counter)
    requires w < c.ways && c.sets[block % |c.sets|][w].valid && c.sets[block % |c.sets|][w].tag == block / |c.sets|
    ensures Shaped(c) && block / |c.sets| in r.sets[block % |c.sets|].dirty
    ensures var line := Touched(c.sets[block % |c.sets|][w], write, c.counter);
      InStep(Put(c, block, w, line), PutR(r, block, TouchR(r.sets[block % |c.sets|], block / |c.sets|, write)))
  {
    var i := block % |c.sets|;
    var line := Touched(c.sets[i][w], write, c.counter);
    assert Realises(c.sets[i], r.sets[i]) && Earlier(c.sets[i], c.counter);
    TouchRealises(c.sets[i], r.sets[i], w, write, c.counter);
    hide Realises, Earlier, TimesDistinct;
    PutTimes(c, block, w, line);
    PutRealises(c, r, block, w, line, TouchR(r.sets[i], block / |c.sets|, write));
    PutBefore(c, block, w, line, c.counter + 1);
  }

  lemma BeforeLater(l: Level, now: nat)
    requires Before(l, now)
    ensures Before(l, now + 1)
  {
    forall i: nat | i < |l.sets|
      ensures Earlier(l.sets[i], now + 1)
    {
      assert Earlier(l.sets[i], now);
    }
  }

  lemma InsertRealises(l: Level, r: RLevel, block: nat, write: bool)
    requires InStep(l, r) && Missed(l, block)
    ensures Shaped(l) && ShapedR(r)
    ensures var ((l', ev), (r', ev')) := (Insert(l, block, write), InsertR(r, block, write));
      InStep(l', r') && ev == ev'
  {
    var i, tag := block % |l.sets|, block / |l.sets|;
    assert Realises(l.sets[i], r.sets[i]) && Earlier(l.sets[i], l.counter);
    var w, line := VictimOf(l, block), Filled(tag, write, l.counter);
    FillRealises(l.sets[i], r.sets[i], tag, write, l.counter);
    hide Realises, Earlier, TimesDistinct;
    PutTimes(l, block, w, line);
    PutRealises(l, r, block, w, line, FillR(r.sets[i], tag, write, l.ways));
    BeforeLater(l, l.counter);
    PutBefore(l, block, w, line, l.counter + 1);
  }

  lemma InvalidateRealises(l: Level, r: RLevel, block: nat)
    requires InStep(l, r)
    ensures Shaped(l) && ShapedR(r)
    ensures var ((l', dirty), (r', dirty')) := (Invalidate(l, block), InvalidateR(r, block));
      InStep(l', r') && dirty == dirty' && (Before(l, l.counter) ==> Before(l', l'.counter))
  {
    var i, tag := block % |l.sets|, block / |l.sets|;
    assert Realises(l.sets[i], r.sets[i]);
    FoundWay(l.sets[i], r.sets[i], tag);
    var w := WayOf(l, block);
    hide Realises, Earlier, TimesDistinct;
    if w < l.ways {
      PutTimes(l, block, w, l.sets[i][w].(valid := false));
      ClearRealises(l.sets[i], r.sets[i], w);
      var line := l.sets[i][w].(valid := false);
      PutRealises(l, r, block, w, line, DropR(r.sets[i], tag));
      PutBefore(l, block, w, line, l.counter + 1);
      if Before(l, l.counter) {
        PutBefore(l, block, w, line, l.counter);
      }
    }
  }

  lemma DropStep(l: Level, r: RLevel, from: nat)
    requires InStep(l, r)
    ensures Shaped(l) && ShapedR(r) && r.blockSize == l.blockSize
    ensures InStep(Invalidate(l, BlockOf(l, from)).0, InvalidateR(r, BlockR(r, from)).0)
  {
    InvalidateRealises(l, r, BlockOf(l, from));
  }

  lemma {:induction false} RangeRealises(l: Level, r: RLevel, from: nat, to: nat)
    requires InStep(l, r)
    ensures Shaped(l) && ShapedR(r)
    ensures InStep(InvalidateRange(l, from, to), RangeR(r, from, to))
    decreases if from < to then to - from else 0
  {
    hide InStep, Shaped, Invalidate, InvalidateR;
    DropStep(l, r, from);
    if from < to {
      RangeRealises(Invalidate(l, BlockOf(l, from)).0, InvalidateR(r, BlockR(r, from)).0, from + l.blockSize, to);
    }
  }

  // ---------- the hierarchy ----------

  datatype RHierarchy = RHierarchy(l1: RLevel, l2: RLevel, l3: RLevel)

  predicate AllShapedR(h: RHierarchy) {
    ShapedR(h.l1) && ShapedR(h.l2) && ShapedR(h.l3)
  }

  predicate AllSameShapeR(h: RHierarchy, h': RHierarchy) {
    SameShapeR(h.l1, h'.l1) && SameShapeR(h.l2, h'.l2) && SameShapeR(h.l3, h'.l3)
  }

  function WritebackR(h: RHierarchy, address: nat, level: nat): (h': RHierarchy)
    requires AllShapedR(h)
    ensures AllSameShapeR(h, h')
  {
    if level == 1 then h.(l2 := AccessR(h.l2, BlockR(h.l2, address), true).0)
    else if level == 2 then h.(l3 := AccessR(h.l3, BlockR(h.l3, address), true).0)
    else h
  }

  function FromL2R(h: RHierarchy, address: nat, write: bool): (h': RHierarchy)
    requires AllShapedR(h)
    ensures AllSameShapeR(h, h')
  {
    var (l1, ev) := InsertR(h.l1, BlockR(h.l1, address), write);
    var h1 := h.(l1 := l1);
    if ev.Some? && ev.value.dirty then WritebackR(h1, StartR(l1, ev.value), 1) else h1
  }

  function FromL3R(h: RHierarchy, address: nat, write: bool): (h': RHierarchy)
    requires AllShapedR(h)
    ensures AllSameShapeR(h, h')
  {
    var (l2, ev) := InsertR(h.l2, BlockR(h.l2, address), write);
    var h1 := h.(l2 := l2);
    var h2 :=
      if ev.None? then h1
      else
        var out := StartR(l2, ev.value);
        var (l1, dirty) := InvalidateR(h1.l1, BlockR(h1.l1, out));
        var h3 := h1.(l1 := l1);
        if dirty || ev.value.dirty then WritebackR(h3, out, 2) else h3;
    h2.(l1 := InsertR(h2.l1, BlockR(h2.l1, address), write).0)
  }

  function FromRamR(h: RHierarchy, address: nat, write: bool): (h': RHierarchy)
    requires AllShapedR(h)
    ensures AllSameShapeR(h, h')
  {
    var (l3, ev) := InsertR(h.l3, BlockR(h.l3, address), write);
    var h1 := h.(l3 := l3);
    var h2 :=
      if ev.None? then h1
      else
        var out := StartR(l3, ev.value);
        var (l2, dirty) := InvalidateR(h1.l2, BlockR(h1.l2, out));
        if dirty then h1.(l2 := l2) else h1.(l2 := l2, l1 := InvalidateR(h1.l1, BlockR(h1.l1, out)).0);
    h2.(l2 := InsertR(h2.l2, BlockR(h2.l2, address), write).0,
        l1 := InsertR(h2.l1, BlockR(h2.l1, address), write).0)
  }

  function RequestR(h: RHierarchy, address: nat, write: bool): (r: (RHierarchy, Outcome))
    requires AllShapedR(h)
    ensures AllSameShapeR(h, r.0)
  {
    var (l1, hit1) := AccessR(h.l1, BlockR(h.l1, address), write);
    var h1 := h.(l1 := l1);
    if hit1 then (h1, L1Hit)
    else
      var (l2, hit2) := AccessR(h1.l2, BlockR(h1.l2, address), write);
      var h2 := h1.(l2 := l2);
      if hit2 then (FromL2R(h2, address, write), L2Hit)
      else
        var (l3, hit3) := AccessR(h2.l3, BlockR(h2.l3, address), write);
        var h3 := h2.(l3 := l3);
        if hit3 then (FromL3R(h3, address, write), L3Hit) else (FromRamR(h3, address, write), RamMiss)
  }

  function InvalidateFrameR(h: RHierarchy, start: nat, size: nat): (h': RHierarchy)
    requires AllShapedR(h)
    ensures AllSameShapeR(h, h')
  {
    RHierarchy(RangeR(h.l1, start, start + size), RangeR(h.l2, start, start + size), RangeR(h.l3, start, start + size))
  }

  ghost predicate RealisesH(h: Hierarchy, r: RHierarchy) {
    InStep(h.l1, r.l1) && InStep(h.l2, r.l2) && InStep(h.l3, r.l3)
  }

  lemma RealisesShaped(h: Hierarchy, r: RHierarchy)
    requires RealisesH(h, r)
    ensures AllShaped(h) && AllShapedR(r)
    ensures r.l1.blockSize == h.l1.blockSize && r.l2.blockSize == h.l2.blockSize && r.l3.blockSize == h.l3.blockSize
  {
  }

  lemma InsertLevel(l: Level, r: RLevel, address: nat, write: bool)
    requires InStep(l, r) && Missed(l, BlockOf(l, address))
    ensures Shaped(l) && ShapedR(r) && r.blockSize == l.blockSize
    ensures var ((l', ev), (r', ev')) := (Insert(l, BlockOf(l, address), write), InsertR(r, BlockR(r, address), write));
      InStep(l', r') && ev == ev'
  {
    InsertRealises(l, r, BlockOf(l, address), write);
  }

  lemma AccessLevel(l: Level, r: RLevel, address: nat, write: bool)
    requires InStep(l, r)
    ensures Shaped(l) && ShapedR(r) && r.blockSize == l.blockSize
    ensures var ((l', hit), (r', hit')) :=
      (Access(l, BlockOf(l, address), write), AccessR(r, BlockR(r, address), write));
      InStep(l', r') && hit == hit' && (!hit ==> Missed(l', BlockOf(l, address)))
  {
    AccessRealises(l, r, BlockOf(l, address), write);
  }

  lemma DropLevel(l: Level, r: RLevel, out: nat, address: nat)
    requires InStep(l, r)
    ensures Shaped(l) && ShapedR(r) && r.blockSize == l.blockSize
    ensures var ((l', dirty), (r', dirty')) := (Invalidate(l, BlockOf(l, out)), InvalidateR(r, BlockR(r, out)));
      InStep(l', r') && dirty == dirty' && (Missed(l, BlockOf(l, address)) ==> Missed(l', BlockOf(l, address)))
  {
    InvalidateRealises(l, r, BlockOf(l, out));
    InvalidateContains(l, BlockOf(l, out));
  }

  lemma WritebackRealises(h: Hierarchy, r: RHierarchy, address: nat, level: nat)
    requires RealisesH(h, r)
    ensures AllShaped(h) && AllShapedR(r)
    ensures var (h', r') := (Writeback(h, address, level), WritebackR(r, address, level));
      RealisesH(h', r') && h'.l1 == h.l1 && r'.l1 == r.l1
  {
    RealisesShaped(h, r);
    AccessLevel(h.l2, r.l2, address, true);
    AccessLevel(h.l3, r.l3, address, true);
  }

  lemma FromL2Realises(h: Hierarchy, r: RHierarchy, address: nat, write: bool)
    requires RealisesH(h, r) && Missed(h.l1, BlockOf(h.l1, address))
    ensures AllShaped(h) && AllShapedR(r)
    ensures RealisesH(FromL2(h, address, write), FromL2R(r, address, write))
  {
    RealisesShaped(h, r);
    InsertLevel(h.l1, r.l1, address, write);
    hide InStep, Missed, Insert, InsertR, Writeback, WritebackR;
    var (l1, ev) := Insert(h.l1, BlockOf(h.l1, address), write);
    var (l1', ev') := InsertR(r.l1, BlockR(r.l1, address), write);
    if ev.Some? {
      WritebackRealises(h.(l1 := l1), r.(l1 := l1'), Start(l1, ev.value), 1);
    }
  }

  lemma FromL3Realises(h: Hierarchy, r: RHierarchy, address: nat, write: bool)
    requires RealisesH(h, r) && Missed(h.l1, BlockOf(h.l1, address)) && Missed(h.l2, BlockOf(h.l2, address))
    ensures AllShaped(h) && AllShapedR(r)
    ensures RealisesH(FromL3(h, address, write), FromL3R(r, address, write))
  {
    RealisesShaped(h, r);
    InsertLevel(h.l2, r.l2, address, write);
    hide InStep, Missed, Insert, InsertR, Invalidate, InvalidateR, Writeback, WritebackR;
    var (l2, ev) := Insert(h.l2, BlockOf(h.l2, address), write);
    var (l2', ev') := InsertR(r.l2, BlockR(r.l2, address), write);
    if ev.None? {
      InsertLevel(h.l1, r.l1, address, write);
    } else {
      var out := Start(l2, ev.value);
      DropLevel(h.l1, r.l1, out, address);
      var (l1, dirty) := Invalidate(h.l1, BlockOf(h.l1, out));
      var (l1', dirty') := InvalidateR(r.l1, BlockR(r.l1, out));
      WritebackRealises(Hierarchy(l1, l2, h.l3), RHierarchy(l1', l2', r.l3), out, 2);
      InsertLevel(l1, l1', address, write);
    }
  }

  lemma FromRamRealises(h: Hierarchy, r: RHierarchy, address: nat, write: bool)
    requires RealisesH(h, r) && Missed(h.l1, BlockOf(h.l1, address))
    requires Missed(h.l2, BlockOf(h.l2, address)) && Missed(h.l3, BlockOf(h.l3, address))
    ensures AllShaped(h) && AllShapedR(r)
    ensures RealisesH(FromRam(h, address, write), FromRamR(r, address, write))
  {
    RealisesShaped(h, r);
    InsertLevel(h.l3, r.l3, address, write);
    hide InStep, Missed, Insert, InsertR, Invalidate, InvalidateR;
    var (l3, ev) := Insert(h.l3, BlockOf(h.l3, address), write);
    if ev.None? {
      InsertLevel(h.l2, r.l2, address, write);
      InsertLevel(h.l1, r.l1, address, write);
    } else {
      var out := Start(l3, ev.value);
      DropLevel(h.l2, r.l2, out, address);
      DropLevel(h.l1, r.l1, out, address);
      var (l2, dirty) := Invalidate(h.l2, BlockOf(h.l2, out));
      var (l2', dirty') := InvalidateR(r.l2, BlockR(r.l2, out));
      InsertLevel(l2, l2', address, write);
      if dirty {
        InsertLevel(h.l1, r.l1, address, write);
      } else {
        InsertLevel(Invalidate(h.l1, BlockOf(h.l1, out)).0, InvalidateR(r.l1, BlockR(r.l1, out)).0, address, write);
      }
    }
  }

  lemma RequestRealises(h: Hierarchy, r: RHierarchy, address: nat, write: bool)
    requires RealisesH(h, r)
    ensures AllShaped(h) && AllShapedR(r)
    ensures var ((h', o), (r', o')) := (Request(h, address, write), RequestR(r, address, write));
      RealisesH(h', r') && o == o'
  {
    RealisesShaped(h, r);
    AccessLevel(h.l1, r.l1, address, write);
    AccessLevel(h.l2, r.l2, address, write);
    AccessLevel(h.l3, r.l3, address, write);
    hide InStep, Missed, Access, AccessR, FromL2, FromL2R, FromL3, FromL3R, FromRam, FromRamR;
    var (l1, hit1) := Access(h.l1, BlockOf(h.l1, address), write);
    var (l1', hit1') := AccessR(r.l1, BlockR(r.l1, address), write);
    var (l2, hit2) := Access(h.l2, BlockOf(h.l2, address), write);
    var (l2', hit2') := AccessR(r.l2, BlockR(r.l2, address), write);
    var (l3, hit3) := Access(h.l3, BlockOf(h.l3, address), write);
    var (l3', hit3') := AccessR(r.l3, BlockR(r.l3, address), write);
    if !hit1 {
      if hit2 {
        FromL2Realises(Hierarchy(l1, l2, h.l3), RHierarchy(l1', l2', r.l3), address, write);
      } else if hit3 {
        FromL3Realises(Hierarchy(l1, l2, l3), RHierarchy(l1', l2', l3'), address, write);
      } else {
        FromRamRealises(Hierarchy(l1, l2, l3), RHierarchy(l1', l2', l3'), address, write);
      }
    }
  }

  lemma InvalidateFrameRealises(h: Hierarchy, r: RHierarchy, start: nat, size: nat)
    requires RealisesH(h, r)
    ensures AllShaped(h) && AllShapedR(r)
    ensures RealisesH(InvalidateFrame(h, start, size), InvalidateFrameR(r, start, size))
  {
    hide InStep, InvalidateRange, RangeR;
    RangeRealises(h.l1, r.l1, start, start + size);
    RangeRealises(h.l2, r.l2, start, start + size);
    RangeRealises(h.l3, r.l3, start, start + size);
  }

  // ---------- runs ----------

  datatype Op = Read(address: nat) | Write(address: nat) | Drop(start: nat, size: nat)

  function Apply(h: Hierarchy, op: Op): (r: (Hierarchy, Option<Outcome>))
    requires AllShaped(h)
    ensures AllShaped(r.0)
  {
    match op
    case Read(a) => var (h', o) := Request(h, a, false); (h', Some(o))
    case Write(a) => var (h', o) := Request(h, a, true); (h', Some(o))
    case Drop(start, size) => (InvalidateFrame(h, start, size), None)
  }

  function ApplyR(h: RHierarchy, op: Op): (r: (RHierarchy, Option<Outcome>))
    requires AllShapedR(h)
    ensures AllShapedR(r.0)
  {
    match op
    case Read(a) => var (h', o) := RequestR(h, a, false); (h', Some(o))
    case Write(a) => var (h', o) := RequestR(h, a, true); (h', Some(o))
    case Drop(start, size) => (InvalidateFrameR(h, start, size), None)
  }

  function Outcomes(h: Hierarchy, ops: seq<Op>): seq<Option<Outcome>>
    requires AllShaped(h)
    decreases |ops|
  {
    if ops == [] then [] else var (h', o) := Apply(h, ops[0]); [o] + Outcomes(h', ops[1..])
  }

  function OutcomesR(h: RHierarchy, ops: seq<Op>): seq<Option<Outcome>>
    requires AllShapedR(h)
    decreases |ops|
  {
    if ops == [] then [] else var (h', o) := ApplyR(h, ops[0]); [o] + OutcomesR(h', ops[1..])
  }

  lemma ApplyRealises(h: Hierarchy, r: RHierarchy, op: Op)
    requires RealisesH(h, r)
    ensures AllShaped(h) && AllShapedR(r)
    ensures RealisesH(Apply(h, op).0, ApplyR(r, op).0) && Apply(h, op).1 == ApplyR(r, op).1
  {
    hide RealisesH, Request, RequestR, InvalidateFrame, InvalidateFrameR;
    match op
    case Read(a) => RequestRealises(h, r, a, false);
    case Write(a) => RequestRealises(h, r, a, true);
    case Drop(start, size) => InvalidateFrameRealises(h, r, start, size);
  }

  /** On every run the timestamped LRU hierarchy hits and misses exactly where the move-to-front lists do. */
  lemma {:induction false} TimestampsRealiseRecency(h: Hierarchy, r: RHierarchy, ops: seq<Op>)
    requires RealisesH(h, r)
    ensures AllShaped(h) && AllShapedR(r)
    ensures Outcomes(h, ops) == OutcomesR(r, ops)
    decreases |ops|
  {
    hide RealisesH, Apply, ApplyR;
    RealisesShaped(h, r);
    if ops != [] {
      ApplyRealises(h, r, ops[0]);
      TimestampsRealiseRecency(Apply(h, ops[0]).0, ApplyR(r, ops[0]).0, ops[1..]);
    }
  }

  // ---------- the start ----------

  function EmptyR(blockSize: nat, ways: nat, sets: nat): RLevel {
    RLevel(blockSize, ways, seq(sets, _ => RSet([], map[])))
  }

  lemma EmptyRealises(blockSize: nat, ways: nat, sets: nat)
    requires blockSize > 0 && ways > 0 && sets > 0
    ensures InStep(EmptyLevel(blockSize, ways, sets, Lru), EmptyR(blockSize, ways, sets))
  {
    var l, r := EmptyLevel(blockSize, ways, sets, Lru), EmptyR(blockSize, ways, sets);
    forall i: nat | i < sets
      ensures Realises(l.sets[i], r.sets[i]) && NoDuplicates(Tags(l.sets[i])) && Earlier(l.sets[i], 1)
    {
      assert forall j :: 0 <= j < ways ==> !l.sets[i][j].valid;
    }
    assert forall i: nat, a: nat :: !ValidAt(l, i, a);
  }

  /** Block size, ways and sets of a level. */
  datatype Geometry = Geometry(blockSize: nat, ways: nat, sets: nat)

  predicate Usable(g: Geometry) {
    g.blockSize > 0 && g.ways > 0 && g.sets > 0
  }

  function EmptyLru(g1: Geometry, g2: Geometry, g3: Geometry): Hierarchy {
    Hierarchy(EmptyLevel(g1.blockSize, g1.ways, g1.sets, Lru),
              EmptyLevel(g2.blockSize, g2.ways, g2.sets, Lru),
              EmptyLevel(g3.blockSize, g3.ways, g3.sets, Lru))
  }

  function EmptyLists(g1: Geometry, g2: Geometry, g3: Geometry): RHierarchy {
    RHierarchy(EmptyR(g1.blockSize, g1.ways, g1.sets),
               EmptyR(g2.blockSize, g2.ways, g2.sets),
               EmptyR(g3.blockSize, g3.ways, g3.sets))
  }

  lemma EmptyHierarchy(g1: Geometry, g2: Geometry, g3: Geometry)
    requires Usable(g1) && Usable(g2) && Usable(g3)
    ensures RealisesH(EmptyLru(g1, g2, g3), EmptyLists(g1, g2, g3))
  {
    EmptyRealises(g1.blockSize, g1.ways, g1.sets);
    EmptyRealises(g2.blockSize, g2.ways, g2.sets);
    EmptyRealises(g3.blockSize, g3.ways, g3.sets);
    hide InStep, EmptyLevel, EmptyR;
  }

  /** A hierarchy that starts empty under LRU hits and misses on every run exactly where move-to-front lists do. */
  lemma EmptyLruRealises(g1: Geometry, g2: Geometry, g3: Geometry, ops: seq<Op>)
    requires Usable(g1) && Usable(g2) && Usable(g3)
    ensures Outcomes(EmptyLru(g1, g2, g3), ops) == OutcomesR(EmptyLists(g1, g2, g3), ops)
  {
    EmptyHierarchy(g1, g2, g3);
    TimestampsRealiseRecency(EmptyLru(g1, g2, g3), EmptyLists(g1, g2, g3), ops);
  }
}
