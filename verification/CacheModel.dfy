/** The cache hierarchy on values: three set-associative levels and the requests that drive them. */
module CacheModel {
  import opened Bits
  import opened Common
  import opened Ways

  datatype Policy = Lru | Fifo | Lfu

  datatype Line = Line(valid: bool, dirty: bool, tag: nat, lastAccess: nat, insertion: nat, freq: nat)

  const EMPTY := Line(false, false, 0, 0, 0, 0)

  type CacheSet = seq<Line>

  /** A line thrown out to make room: the number of its block, and whether it must be written back. */
  datatype Evicted = Evicted(block: nat, dirty: bool)

  datatype Level = Level(blockSize: nat, ways: nat, policy: Policy, sets: seq<CacheSet>, hits: nat, misses: nat,
                         counter: nat)

  // ---------- one set ----------

  function Tags(lines: CacheSet): seq<Option<nat>> {
    seq(|lines|, i requires 0 <= i < |lines| => if lines[i].valid then Some(lines[i].tag) else None)
  }

  function Key(policy: Policy, line: Line): nat {
    match policy
    case Lru => line.lastAccess
    case Fifo => line.insertion
    case Lfu => line.freq
  }

  function Keys(policy: Policy, lines: CacheSet): seq<Option<nat>> {
    seq(|lines|, i requires 0 <= i < |lines| => if lines[i].valid then Some(Key(policy, lines[i])) else None)
  }

  ghost predicate Has(lines: CacheSet, tag: nat) {
    exists i :: 0 <= i < |lines| && lines[i].valid && lines[i].tag == tag
  }

  function Touched(line: Line, write: bool, now: nat): Line {
    line.(lastAccess := now, freq := line.freq + 1, dirty := line.dirty || write)
  }

  function Filled(tag: nat, write: bool, now: nat): Line {
    Line(true, write, tag, now, now, 1)
  }

  lemma FindHas(lines: CacheSet, tag: nat)
    ensures Find(Tags(lines), tag) < |lines| <==> Has(lines, tag)
  {
    var w := Find(Tags(lines), tag);
    if i :| 0 <= i < |lines| && lines[i].valid && lines[i].tag == tag {
      assert Tags(lines)[i] == Some(tag);
    }
    assert w < |lines| ==> Tags(lines)[w] == Some(tag);
  }

  lemma TouchHas(lines: CacheSet, w: nat, write: bool, now: nat)
    requires w < |lines| && NoDuplicates(Tags(lines))
    ensures var s := lines[w := Touched(lines[w], write, now)];
      NoDuplicates(Tags(s)) && forall t :: Has(s, t) <==> Has(lines, t)
  {
    var s := lines[w := Touched(lines[w], write, now)];
    assert Tags(s) == Tags(lines);
    forall t: nat
      ensures Has(s, t) <==> Has(lines, t)
    {
      FindHas(s, t);
      FindHas(lines, t);
    }
  }

  /** Filling a way with a new tag loses what was there and nothing else. */
  lemma FillHas(lines: CacheSet, w: nat, line: Line)
    requires w < |lines| && NoDuplicates(Tags(lines)) && line.valid && !Has(lines, line.tag)
    ensures var s := lines[w := line];
      && NoDuplicates(Tags(s))
      && forall t :: Has(s, t) <==> t == line.tag || (Has(lines, t) && !(lines[w].valid && lines[w].tag == t))
  {
    var s := lines[w := line];
    assert forall i :: 0 <= i < |lines| ==> Tags(s)[i] == if i == w then Some(line.tag) else Tags(lines)[i];
    assert forall i :: 0 <= i < |lines| ==> Tags(lines)[i] != Some(line.tag);
    assert s[w].valid;
    assert lines[w].valid ==> Tags(lines)[w] == Some(lines[w].tag);
    forall t: nat
      ensures Has(s, t) <==> t == line.tag || (Has(lines, t) && !(lines[w].valid && lines[w].tag == t))
    {
      if i :| 0 <= i < |lines| && lines[i].valid && lines[i].tag == t && i != w {
        assert s[i] == lines[i] && Tags(lines)[i] == Some(t);
      }
      if i :| 0 <= i < |s| && s[i].valid && s[i].tag == t && i != w {
        assert s[i] == lines[i] && Tags(lines)[i] == Some(t);
      }
    }
  }

  lemma ClearHas(lines: CacheSet, w: nat)
    requires w < |lines| && NoDuplicates(Tags(lines)) && lines[w].valid
    ensures var s := lines[w := lines[w].(valid := false)];
      && NoDuplicates(Tags(s))
      && forall t :: Has(s, t) <==> Has(lines, t) && t != lines[w].tag
  {
    var s := lines[w := lines[w].(valid := false)];
    assert forall i :: 0 <= i < |lines| ==> Tags(s)[i] == if i == w then None else Tags(lines)[i];
    assert Tags(lines)[w] == Some(lines[w].tag);
    forall t: nat
      ensures Has(s, t) <==> Has(lines, t) && t != lines[w].tag
    {
      if i :| 0 <= i < |lines| && lines[i].valid && lines[i].tag == t && i != w {
        assert s[i] == lines[i] && Tags(lines)[i] == Some(t);
      }
      if i :| 0 <= i < |s| && s[i].valid && s[i].tag == t {
        assert s[i] == lines[i] && Tags(lines)[i] == Some(t);
      }
    }
  }

  // ---------- one level ----------

  /** Every set has all its ways and at most one valid line per tag. */
  ghost predicate Ok(l: Level) {
    && l.blockSize > 0 && l.ways > 0 && |l.sets| > 0
    && forall i: nat :: i < |l.sets| ==> |l.sets[i]| == l.ways && NoDuplicates(Tags(l.sets[i]))
  }

  predicate Shaped(l: Level) {
    l.blockSize > 0 && l.ways > 0 && |l.sets| > 0 && forall i :: 0 <= i < |l.sets| ==> |l.sets[i]| == l.ways
  }

  /** A level without a valid line. */
  function EmptyLevel(block: nat, ways: nat, sets: nat, policy: Policy): Level {
    Level(block, ways, policy, seq(sets, _ => seq(ways, _ => EMPTY)), 0, 0, 0)
  }

  /** The level holds a valid line of the block. */
  ghost predicate Contains(l: Level, block: nat)
    requires |l.sets| > 0
  {
    Has(l.sets[block % |l.sets|], block / |l.sets|)
  }

  function BlockOf(l: Level, address: nat): nat
    requires l.blockSize > 0
  {
    address / l.blockSize
  }

  function WayOf(l: Level, block: nat): nat
    requires Shaped(l)
  {
    Find(Tags(l.sets[block % |l.sets|]), block / |l.sets|)
  }

  predicate SameShape(l: Level, l': Level) {
    Shaped(l') && l'.blockSize == l.blockSize && l'.ways == l.ways && |l'.sets| == |l.sets| && l'.policy == l.policy
  }

  function Put(l: Level, block: nat, w: nat, line: Line): (l': Level)
    requires Shaped(l) && w < l.ways
    ensures SameShape(l, l')
  {
    var i := block % |l.sets|;
    l.(sets := l.sets[i := l.sets[i][w := line]])
  }

  /** A probe: counts, and on a hit refreshes the line. */
  function Access(l: Level, block: nat, write: bool): (r: (Level, bool))
    requires Shaped(l)
    ensures SameShape(l, r.0)
  {
    var c := l.(counter := l.counter + 1);
    var w := WayOf(c, block);
    if w < l.ways
    then (Put(c, block, w, Touched(l.sets[block % |l.sets|][w], write, c.counter)).(hits := l.hits + 1), true)
    else (c.(misses := l.misses + 1), false)
  }

  function VictimOf(l: Level, block: nat): (w: nat)
    requires Shaped(l)
    ensures w < l.ways
  {
    VictimWay(Keys(l.policy, l.sets[block % |l.sets|]))
  }

  /** Puts a new line in, over an invalid way or the policy's victim. */
  function Insert(l: Level, block: nat, write: bool): (r: (Level, Option<Evicted>))
    requires Shaped(l)
    ensures SameShape(l, r.0)
  {
    var i, w := block % |l.sets|, VictimOf(l, block);
    var out := l.sets[i][w];
    (Put(l, block, w, Filled(block / |l.sets|, write, l.counter)),
     if out.valid then Some(Evicted(out.tag * |l.sets| + i, out.dirty)) else None)
  }

  /** Drops a block's line; tells whether it was dirty. */
  function Invalidate(l: Level, block: nat): (r: (Level, bool))
    requires Shaped(l)
    ensures SameShape(l, r.0)
  {
    var w := WayOf(l, block);
    if w < l.ways
    then var line := l.sets[block % |l.sets|][w]; (Put(l, block, w, line.(valid := false)), line.dirty)
    else (l, false)
  }

  /** Drops the lines of all blocks met from `from` in steps of the block size, up to `to`. */
  function InvalidateRange(l: Level, from: nat, to: nat): (l': Level)
    requires Shaped(l)
    ensures SameShape(l, l')
    decreases if from < to then to - from else 0
  {
    if from >= to then l else InvalidateRange(Invalidate(l, BlockOf(l, from)).0, from + l.blockSize, to)
  }

  lemma SplitBlock(b: nat, c: nat, n: nat)
    requires n > 0
    ensures b == (b / n) * n + b % n
    ensures b % n == c % n && b / n == c / n ==> b == c
  {
    assert b == (b / n) * n + b % n;
    assert c == (c / n) * n + c % n;
  }

  lemma PutContains(l: Level, block: nat, w: nat, line: Line)
    requires Ok(l) && w < l.ways
    requires NoDuplicates(Tags(l.sets[block % |l.sets|][w := line]))
    ensures Ok(Put(l, block, w, line))
    ensures forall b: nat :: Contains(Put(l, block, w, line), b) <==>
      if b % |l.sets| == block % |l.sets| then Has(l.sets[block % |l.sets|][w := line], b / |l.sets|)
        else Contains(l, b)
  {
  }

  /** A probe hits exactly the blocks that are there and changes nothing of what is there. */
  lemma AccessContains(l: Level, block: nat, write: bool)
    requires Ok(l)
    ensures var (l', hit) := Access(l, block, write);
      && Ok(l') && |l'.sets| == |l.sets| && l'.blockSize == l.blockSize
      && (hit <==> Contains(l, block))
      && forall b: nat :: Contains(l', b) <==> Contains(l, b)
  {
    var lines, tag := l.sets[block % |l.sets|], block / |l.sets|;
    var w := WayOf(l, block);
    FindHas(lines, tag);
    if w < l.ways {
      var c := l.(counter := l.counter + 1);
      TouchHas(lines, w, write, c.counter);
      PutContains(c, block, w, Touched(lines[w], write, c.counter));
    }
  }

  /** Inserting an absent block adds it and loses at most the evicted block. */
  lemma InsertContains(l: Level, block: nat, write: bool)
    requires Ok(l) && !Contains(l, block)
    ensures var (l', ev) := Insert(l, block, write);
      && Ok(l') && |l'.sets| == |l.sets| && l'.blockSize == l.blockSize
      && (ev.Some? ==> Contains(l, ev.value.block))
      && forall b: nat :: Contains(l', b) <==> b == block || (Contains(l, b) && !(ev.Some? && ev.value.block == b))
  {
    var n, i, w := |l.sets|, block % |l.sets|, VictimOf(l, block);
    var lines, line := l.sets[i], Filled(block / n, write, l.counter);
    FillHas(lines, w, line);
    PutContains(l, block, w, line);
    forall b: nat
      ensures Contains(Insert(l, block, write).0, b) <==>
        b == block || (Contains(l, b) && !(lines[w].valid && b == lines[w].tag * n + i))
    {
      SplitBlock(b, block, n);
      if b % n == i {
        SameSet(b, lines[w].tag, n);
      }
      QuotientOf(lines[w].tag, n, i);
    }
    QuotientOf(lines[w].tag, n, i);
    if lines[w].valid {
      assert Has(lines, lines[w].tag);
    }
  }

  lemma QuotientOf(tag: nat, n: nat, i: nat)
    requires i < n
    ensures (tag * n + i) / n == tag && (tag * n + i) % n == i
  {
    QuotientUnique(tag * n + i, n, tag, i);
  }

  lemma SameSet(b: nat, tag: nat, n: nat)
    requires n > 0
    ensures b / n == tag <==> b == tag * n + b % n
  {
    SplitBlock(b, b, n);
    QuotientUnique(tag * n + b % n, n, tag, b % n);
  }

  lemma InvalidateContains(l: Level, block: nat)
    requires Ok(l)
    ensures var (l', dirty) := Invalidate(l, block);
      && Ok(l') && |l'.sets| == |l.sets| && l'.blockSize == l.blockSize
      && forall b: nat :: Contains(l', b) <==> Contains(l, b) && b != block
  {
    var n, lines, tag := |l.sets|, l.sets[block % |l.sets|], block / |l.sets|;
    var w := WayOf(l, block);
    FindHas(lines, tag);
    if w < l.ways {
      assert Tags(lines)[w] == Some(tag);
      ClearHas(lines, w);
      PutContains(l, block, w, lines[w].(valid := false));
    }
    forall b: nat
      ensures Contains(Invalidate(l, block).0, b) <==> Contains(l, b) && b != block
    {
      SplitBlock(b, block, n);
    }
  }

  lemma NextBlock(from: nat, n: nat)
    requires n > 0
    ensures (from + n) / n == from / n + 1 && (from + n) % n == from % n
  {
    SplitBlock(from, from, n);
    QuotientUnique(from + n, n, from / n + 1, from % n);
  }

  /** The steps from `from` meet block b before `to`. */
  predicate Met(from: nat, to: nat, n: nat, b: nat)
    requires n > 0
  {
    from / n <= b && b * n + from % n < to
  }

  lemma MetFirst(from: nat, to: nat, n: nat, b: nat)
    requires n > 0
    ensures from < to ==> (Met(from, to, n, b) <==> b == from / n || Met(from + n, to, n, b))
    ensures from >= to ==> !Met(from, to, n, b)
  {
    SplitBlock(from, from, n);
    NextBlock(from, n);
    if from / n <= b {
      MulMonotonic(from / n, b, n);
    }
  }

  /** A range sweep drops exactly the blocks that its steps meet, one step per block from the block of its start. */
  lemma {:induction false} RangeContains(l: Level, from: nat, to: nat)
    requires Ok(l)
    ensures var l' := InvalidateRange(l, from, to);
      && Ok(l') && |l'.sets| == |l.sets| && l'.blockSize == l.blockSize
      && forall b: nat :: Contains(l', b) <==> Contains(l, b) && !Met(from, to, l.blockSize, b)
    decreases if from < to then to - from else 0
  {
    var n := l.blockSize;
    if from < to {
      InvalidateContains(l, BlockOf(l, from));
      var next := Invalidate(l, BlockOf(l, from)).0;
      RangeContains(next, from + n, to);
      hide Contains, Invalidate, Met;
    }
    forall b: nat
      ensures Contains(InvalidateRange(l, from, to), b) <==> Contains(l, b) && !Met(from, to, n, b)
    {
      MetFirst(from, to, n, b);
    }
  }

  // ---------- the hierarchy ----------

  datatype Hierarchy = Hierarchy(l1: Level, l2: Level, l3: Level)

  datatype Outcome = L1Hit | L2Hit | L3Hit | RamMiss

  predicate AllShaped(h: Hierarchy) {
    Shaped(h.l1) && Shaped(h.l2) && Shaped(h.l3)
  }

  ghost predicate AllOk(h: Hierarchy) {
    Ok(h.l1) && Ok(h.l2) && Ok(h.l3)
  }

  predicate AllSameShape(h: Hierarchy, h': Hierarchy) {
    SameShape(h.l1, h'.l1) && SameShape(h.l2, h'.l2) && SameShape(h.l3, h'.l3)
  }

  /** A dirty line thrown out of a level is written through to the next one, if that holds it. */
  function Writeback(h: Hierarchy, address: nat, level: nat): (h': Hierarchy)
    requires AllShaped(h)
    ensures AllSameShape(h, h')
  {
    if level == 1 then h.(l2 := Access(h.l2, BlockOf(h.l2, address), true).0)
    else if level == 2 then h.(l3 := Access(h.l3, BlockOf(h.l3, address), true).0)
    else h
  }

  function Start(l: Level, ev: Evicted): nat {
    ev.block * l.blockSize
  }

  /** L1 missed and L2 hit: the block goes into L1. */
  function FromL2(h: Hierarchy, address: nat, write: bool): (h': Hierarchy)
    requires AllShaped(h)
    ensures AllSameShape(h, h')
  {
    var (l1, ev) := Insert(h.l1, BlockOf(h.l1, address), write);
    var h1 := h.(l1 := l1);
    if ev.Some? && ev.value.dirty then Writeback(h1, Start(l1, ev.value), 1) else h1
  }

  /** L1 and L2 missed and L3 hit: the block goes into L2 and L1. */
  function FromL3(h: Hierarchy, address: nat, write: bool): (h': Hierarchy)
    requires AllShaped(h)
    ensures AllSameShape(h, h')
  {
    var (l2, ev) := Insert(h.l2, BlockOf(h.l2, address), write);
    var h1 := h.(l2 := l2);
    var h2 :=
      if ev.None? then h1
      else
        var (l1, dirty) := Invalidate(h1.l1, BlockOf(h1.l1, Start(l2, ev.value)));
        var h3 := h1.(l1 := l1);
        if dirty || ev.value.dirty then Writeback(h3, Start(l2, ev.value), 2) else h3;
    h2.(l1 := Insert(h2.l1, BlockOf(h2.l1, address), write).0)
  }

  /** All levels missed: the block is fetched into all three. */
  function FromRam(h: Hierarchy, address: nat, write: bool): (h': Hierarchy)
    requires AllShaped(h)
    ensures AllSameShape(h, h')
  {
    var (l3, ev) := Insert(h.l3, BlockOf(h.l3, address), write);
    var h1 := h.(l3 := l3);
    var h2 :=
      if ev.None? then h1
      else
        var (l2, dirty) := Invalidate(h1.l2, BlockOf(h1.l2, Start(l3, ev.value)));
        if dirty then h1.(l2 := l2)
        else h1.(l2 := l2, l1 := Invalidate(h1.l1, BlockOf(h1.l1, Start(l3, ev.value))).0);
    h2.(l2 := Insert(h2.l2, BlockOf(h2.l2, address), write).0,
        l1 := Insert(h2.l1, BlockOf(h2.l1, address), write).0)
  }

  function Request(h: Hierarchy, address: nat, write: bool): (r: (Hierarchy, Outcome))
    requires AllShaped(h)
    ensures AllSameShape(h, r.0)
  {
    var (l1, hit1) := Access(h.l1, BlockOf(h.l1, address), write);
    var h1 := h.(l1 := l1);
    if hit1 then (h1, L1Hit)
    else
      var (l2, hit2) := Access(h1.l2, BlockOf(h1.l2, address), write);
      var h2 := h1.(l2 := l2);
      if hit2 then (FromL2(h2, address, write), L2Hit)
      else
        var (l3, hit3) := Access(h2.l3, BlockOf(h2.l3, address), write);
        var h3 := h2.(l3 := l3);
        if hit3 then (FromL3(h3, address, write), L3Hit) else (FromRam(h3, address, write), RamMiss)
  }

  function InvalidateFrame(h: Hierarchy, start: nat, size: nat): (h': Hierarchy)
    requires AllShaped(h)
    ensures AllSameShape(h, h')
  {
    Hierarchy(InvalidateRange(h.l1, start, start + size),
              InvalidateRange(h.l2, start, start + size),
              InvalidateRange(h.l3, start, start + size))
  }
}
