/** What the fields of a cache line record: a level's lines against the sequence of operations that made them. */
module CacheHistory {
  import opened Bits
  import opened Common
  import opened Ways
  import opened CacheModel

  /** Probe: a level is asked for a block. Fill: a block it lacks is put in. Drop: a block is invalidated. */
  datatype Op = Probe(block: nat, write: bool) | Fill(block: nat, write: bool) | Drop(block: nat)

  function Apply(l: Level, op: Op): (l': Level)
    requires Shaped(l)
    ensures SameShape(l, l')
  {
    match op
    case Probe(b, w) => Access(l, b, w).0
    case Fill(b, w) => Insert(l, b, w).0
    case Drop(b) => Invalidate(l, b).0
  }

  function ApplyAll(l: Level, ops: seq<Op>): (l': Level)
    requires Shaped(l)
    ensures SameShape(l, l')
  {
    if ops == [] then l else Apply(ApplyAll(l, ops[..|ops| - 1]), ops[|ops| - 1])
  }

  /** Blocks are put in only while they are absent. */
  ghost predicate Legal(l: Level, ops: seq<Op>)
    requires Shaped(l)
  {
    ops == [] ||
      var before, op := ops[..|ops| - 1], ops[|ops| - 1];
      Legal(l, before) && (op.Fill? ==> !Contains(ApplyAll(l, before), op.block))
  }

  // ---------- read off the operations ----------

  /** How often a block was used since it was last put in, that counted as the first use. */
  function Uses(ops: seq<Op>, b: nat): nat {
    if ops == [] then 0
    else
      var before, op := ops[..|ops| - 1], ops[|ops| - 1];
      if op.Drop? || op.block != b then Uses(before, b) else if op.Fill? then 1 else Uses(before, b) + 1
  }

  /** A block was written to since it was last put in, or put in by a write. */
  predicate Written(ops: seq<Op>, b: nat) {
    ops != [] &&
      var before, op := ops[..|ops| - 1], ops[|ops| - 1];
      if op.Drop? || op.block != b then Written(before, b)
      else op.write || (op.Probe? && Written(before, b))
  }

  /** The level's clock: how often it was asked. */
  function Asked(ops: seq<Op>): nat {
    if ops == [] then 0 else Asked(ops[..|ops| - 1]) + if ops[|ops| - 1].Probe? then 1 else 0
  }

  /** The clock when a block was last put in. */
  function FilledAt(ops: seq<Op>, b: nat): nat {
    if ops == [] then 0
    else if ops[|ops| - 1] in {Fill(b, false), Fill(b, true)} then Asked(ops)
    else FilledAt(ops[..|ops| - 1], b)
  }

  /** The clock when a block was last put in or asked for. */
  function UsedAt(ops: seq<Op>, b: nat): nat {
    if ops == [] then 0
    else if !ops[|ops| - 1].Drop? && ops[|ops| - 1].block == b then Asked(ops)
    else UsedAt(ops[..|ops| - 1], b)
  }

  // ---------- what lines record ----------

  /** The block of the line in way w of set i. */
  function BlockAt(l: Level, i: nat, w: nat): nat
    requires Shaped(l) && i < |l.sets| && w < l.ways
  {
    l.sets[i][w].tag * |l.sets| + i
  }

  predicate Records(line: Line, ops: seq<Op>, b: nat) {
    && line.freq == Uses(ops, b) && line.dirty == Written(ops, b)
    && line.insertion == FilledAt(ops, b) && line.lastAccess == UsedAt(ops, b)
  }

  ghost predicate ValidAt(l: Level, i: nat, w: nat)
    requires Shaped(l)
  {
    i < |l.sets| && w < l.ways && l.sets[i][w].valid
  }

  ghost predicate Recorded(l: Level, ops: seq<Op>)
    requires Shaped(l)
  {
    forall i: nat, w: nat :: ValidAt(l, i, w) ==> Records(l.sets[i][w], ops, BlockAt(l, i, w))
  }

  /** A valid line is the one that a scan for its block finds. */
  lemma FoundLine(l: Level, i: nat, w: nat, b: nat)
    requires Ok(l) && Shaped(l) && ValidAt(l, i, w)
    ensures BlockAt(l, i, w) == b <==> i == b % |l.sets| && w == WayOf(l, b)
    ensures Contains(l, BlockAt(l, i, w))
  {
    var n, tag := |l.sets|, l.sets[i][w].tag;
    QuotientOf(tag, n, i);
    SplitBlock(b, b, n);
    var lines := l.sets[i];
    assert Tags(lines)[w] == Some(tag);
    if i == b % n && w == WayOf(l, b) {
      assert Tags(lines)[w] == Some(b / n);
    }
    assert Has(lines, tag);
  }

  /** An operation on one block leaves what the operations say of the others. */
  lemma OtherBlocks(ops: seq<Op>, op: Op, line: Line, b: nat)
    requires op.Drop? || op.block != b
    ensures Records(line, ops + [op], b) <==> Records(line, ops, b)
  {
    assert (ops + [op])[..|ops|] == ops;
  }

  lemma ProbeRecords(ops: seq<Op>, b: nat, write: bool, line: Line)
    requires Records(line, ops, b)
    ensures Records(Touched(line, write, Asked(ops) + 1), ops + [Probe(b, write)], b)
  {
    assert (ops + [Probe(b, write)])[..|ops|] == ops;
  }

  lemma FillRecords(ops: seq<Op>, b: nat, write: bool, tag: nat)
    ensures Records(Filled(tag, write, Asked(ops)), ops + [Fill(b, write)], b)
  {
    assert (ops + [Fill(b, write)])[..|ops|] == ops;
  }

  lemma ProbeRecorded(l: Level, ops: seq<Op>, b: nat, write: bool)
    requires Ok(l) && Shaped(l) && Recorded(l, ops) && l.counter == Asked(ops)
    ensures Recorded(Access(l, b, write).0, ops + [Probe(b, write)])
  {
    var l', at := Access(l, b, write).0, WayOf(l, b);
    assert WayOf(l.(counter := l.counter + 1), b) == at;
    forall i: nat, w: nat | ValidAt(l', i, w)
      ensures Records(l'.sets[i][w], ops + [Probe(b, write)], BlockAt(l', i, w))
    {
      assert ValidAt(l, i, w) && BlockAt(l', i, w) == BlockAt(l, i, w);
      FoundLine(l, i, w, b);
      if i == b % |l.sets| && w == at {
        ProbeRecords(ops, b, write, l.sets[i][w]);
      } else {
        OtherBlocks(ops, Probe(b, write), l.sets[i][w], BlockAt(l, i, w));
      }
    }
  }

  lemma FillRecorded(l: Level, ops: seq<Op>, b: nat, write: bool)
    requires Ok(l) && Shaped(l) && Recorded(l, ops) && l.counter == Asked(ops) && !Contains(l, b)
    ensures Recorded(Insert(l, b, write).0, ops + [Fill(b, write)])
  {
    var l', at, n := Insert(l, b, write).0, VictimOf(l, b), |l.sets|;
    forall i: nat, w: nat | ValidAt(l', i, w)
      ensures Records(l'.sets[i][w], ops + [Fill(b, write)], BlockAt(l', i, w))
    {
      if i == b % n && w == at {
        SplitBlock(b, b, n);
        FillRecords(ops, b, write, b / n);
      } else {
        assert ValidAt(l, i, w) && l'.sets[i][w] == l.sets[i][w];
        FoundLine(l, i, w, b);
        OtherBlocks(ops, Fill(b, write), l.sets[i][w], BlockAt(l, i, w));
      }
    }
  }

  lemma DropRecorded(l: Level, ops: seq<Op>, b: nat)
    requires Ok(l) && Shaped(l) && Recorded(l, ops)
    ensures Recorded(Invalidate(l, b).0, ops + [Drop(b)])
  {
    var l' := Invalidate(l, b).0;
    forall i: nat, w: nat | ValidAt(l', i, w)
      ensures Records(l'.sets[i][w], ops + [Drop(b)], BlockAt(l', i, w))
    {
      assert ValidAt(l, i, w) && l'.sets[i][w] == l.sets[i][w];
      OtherBlocks(ops, Drop(b), l.sets[i][w], BlockAt(l, i, w));
    }
  }

  /** The counters of one operation: a probe is a hit exactly if the block is there. */
  lemma OpCounts(l: Level, op: Op)
    requires Ok(l) && Shaped(l)
    ensures var l' := Apply(l, op);
      if op.Probe? then
        && l'.counter == l.counter + 1
        && l'.hits == l.hits + (if Contains(l, op.block) then 1 else 0)
        && l'.misses == l.misses + (if Contains(l, op.block) then 0 else 1)
      else l'.counter == l.counter && l'.hits == l.hits && l'.misses == l.misses
  {
    FindHas(l.sets[op.block % |l.sets|], op.block / |l.sets|);
  }

  lemma ApplyOk(l: Level, op: Op)
    requires Ok(l) && Shaped(l) && (op.Fill? ==> !Contains(l, op.block))
    ensures Ok(Apply(l, op))
  {
    match op
    case Probe(b, w) => AccessContains(l, b, w);
    case Fill(b, w) => InsertContains(l, b, w);
    case Drop(b) => InvalidateContains(l, b);
  }

  /** Hits and misses as the operations and the contents at their time have it. */
  ghost function HitCount(l: Level, ops: seq<Op>): nat
    requires Shaped(l)
  {
    if ops == [] then 0
    else
      var before, op := ops[..|ops| - 1], ops[|ops| - 1];
      HitCount(l, before) + if op.Probe? && Contains(ApplyAll(l, before), op.block) then 1 else 0
  }

  /**
   After any run of operations on an empty level every valid line records its block's history: the uses since it was put
   in, whether it was written to since, and when it was put in and last used. Hits and misses add up to the probes.
   */
  lemma {:induction false} LinesRecord(l: Level, ops: seq<Op>)
    requires Ok(l) && Shaped(l) && l.counter == l.hits == l.misses == 0
    requires (forall i: nat, w: nat :: !ValidAt(l, i, w)) && Legal(l, ops)
    ensures var l' := ApplyAll(l, ops);
      && Ok(l') && Recorded(l', ops)
      && l'.counter == Asked(ops) && l'.hits == HitCount(l, ops) && l'.hits + l'.misses == Asked(ops)
  {
    hide Ok, Apply, Recorded;
    if ops == [] {
      NothingRecorded(l);
    } else {
      var before, op := ops[..|ops| - 1], ops[|ops| - 1];
      LinesRecord(l, before);
      ApplyOk(ApplyAll(l, before), op);
      OpCounts(ApplyAll(l, before), op);
      OpRecorded(ApplyAll(l, before), before, op);
      assert before + [op] == ops;
    }
  }

  lemma NothingRecorded(l: Level)
    requires Shaped(l) && forall i: nat, w: nat :: !ValidAt(l, i, w)
    ensures Recorded(l, [])
  {
  }

  lemma OpRecorded(l: Level, ops: seq<Op>, op: Op)
    requires Ok(l) && Shaped(l) && Recorded(l, ops) && l.counter == Asked(ops)
    requires op.Fill? ==> !Contains(l, op.block)
    ensures Recorded(Apply(l, op), ops + [op])
  {
    hide Recorded, Ok;
    match op
    case Probe(b, w) => ProbeRecorded(l, ops, b, w);
    case Fill(b, w) => FillRecorded(l, ops, b, w);
    case Drop(b) => DropRecorded(l, ops, b);
  }

  // ---------- victims ----------

  /**
   Which block a full set loses, in terms of the history alone: under LRU the one used longest ago, under FIFO the one
   put in first, under LFU one with the fewest uses since it was put in; among equals the one in the first way.
   */
  lemma VictimByHistory(l: Level, ops: seq<Op>, b: nat, write: bool, w: nat)
    requires Ok(l) && Shaped(l) && Recorded(l, ops) && w < l.ways
    ensures var (i, at, ev) := (b % |l.sets|, VictimOf(l, b), Insert(l, b, write).1);
      && (ev.None? <==> exists v: nat :: v < l.ways && !ValidAt(l, i, v))
      && (ev.Some? ==>
            var (out, other) := (ev.value.block, BlockAt(l, i, w));
            && out == BlockAt(l, i, at) && ev.value.dirty == Written(ops, out) && Contains(l, out)
            && (l.policy == Lru ==> UsedAt(ops, out) <= UsedAt(ops, other) - if w < at then 1 else 0)
            && (l.policy == Fifo ==> FilledAt(ops, out) <= FilledAt(ops, other) - if w < at then 1 else 0)
            && (l.policy == Lfu ==> Uses(ops, out) <= Uses(ops, other) - if w < at then 1 else 0))
  {
    var i, at := b % |l.sets|, VictimOf(l, b);
    var lines := l.sets[i];
    var keys := Keys(l.policy, lines);
    assert IsVictim(keys, at);
    if lines[at].valid {
      assert keys[w] != None && keys[at].value <= keys[w].value && ValidAt(l, i, at) && ValidAt(l, i, w);
      FoundLine(l, i, at, b);
      assert Records(lines[at], ops, BlockAt(l, i, at)) && Records(lines[w], ops, BlockAt(l, i, w));
      forall v: nat | v < l.ways
        ensures ValidAt(l, i, v)
      {
        assert keys[v] != None;
      }
    } else {
      assert !ValidAt(l, i, at);
    }
  }

  /** An invalidation tells whether the block was there and written to since it was put in. */
  lemma DropTells(l: Level, ops: seq<Op>, b: nat)
    requires Ok(l) && Shaped(l) && Recorded(l, ops)
    ensures Invalidate(l, b).1 <==> Contains(l, b) && Written(ops, b)
  {
    var i, w := b % |l.sets|, WayOf(l, b);
    FindHas(l.sets[i], b / |l.sets|);
    if w < l.ways {
      assert Tags(l.sets[i])[w] == Some(b / |l.sets|) && ValidAt(l, i, w);
      FoundLine(l, i, w, b);
      assert Records(l.sets[i][w], ops, b);
    }
    hide Recorded, Ok, Has, Find, Tags, Written;
  }

  // ---------- longer runs ----------

  lemma ApplyMore(l: Level, ops: seq<Op>, op: Op)
    requires Shaped(l)
    ensures ApplyAll(l, ops + [op]) == Apply(ApplyAll(l, ops), op)
    ensures Legal(l, ops + [op]) <==> Legal(l, ops) && (op.Fill? ==> !Contains(ApplyAll(l, ops), op.block))
  {
    assert (ops + [op])[..|ops|] == ops;
    hide Apply, Contains;
  }

  lemma ApplyOne(l: Level, op: Op)
    requires Shaped(l)
    ensures ApplyAll(l, [op]) == Apply(l, op)
    ensures Legal(l, [op]) <==> (op.Fill? ==> !Contains(l, op.block))
  {
    ApplyMore(l, [], op);
    assert [] + [op] == [op];
    hide Apply, Contains;
  }

  lemma {:induction false} ApplyBoth(l: Level, ops: seq<Op>, more: seq<Op>)
    requires Shaped(l)
    ensures ApplyAll(l, ops + more) == ApplyAll(ApplyAll(l, ops), more)
    ensures Legal(l, ops + more) <==> Legal(l, ops) && Legal(ApplyAll(l, ops), more)
    decreases |more|
  {
    hide Apply, Contains;
    if more == [] {
      assert ops + more == ops;
    } else {
      var n := |more| - 1;
      ApplyBoth(l, ops, more[..n]);
      assert ops + more == ops + more[..n] + [more[n]] && more == more[..n] + [more[n]];
      ApplyMore(l, ops + more[..n], more[n]);
    }
  }

  /** Level l came from l0 by operations that put in absent blocks only. */
  ghost predicate MadeFrom(l0: Level, l: Level) {
    Shaped(l0) && exists ops :: Legal(l0, ops) && l == ApplyAll(l0, ops)
  }

  lemma MadeOn(l0: Level, l: Level, ops: seq<Op>)
    requires MadeFrom(l0, l) && Shaped(l) && Legal(l, ops)
    ensures MadeFrom(l0, ApplyAll(l, ops))
  {
    var before :| Legal(l0, before) && l == ApplyAll(l0, before);
    ApplyBoth(l0, before, ops);
    hide Legal, ApplyAll;
    assert Legal(l0, before + ops);
  }
}
