/** Requests and sweeps as operations on the three levels: who is asked, what is put in where, and what is dropped. */
module CacheTraffic {
  import opened Common
  import opened CacheModel
  import opened CacheContents
  import opened CacheHistory

  /** The level after the block is asked for, and what the block would push out if it were put in then. */
  function Asking(l: Level, b: nat, write: bool): (l': Level)
    requires Shaped(l)
    ensures SameShape(l, l')
  {
    ApplyAll(l, [Probe(b, write)])
  }

  lemma AskingIs(l: Level, b: nat, write: bool)
    requires Shaped(l)
    ensures Asking(l, b, write) == Access(l, b, write).0
  {
    ApplyOne(l, Probe(b, write));
  }

  lemma AskFill(l: Level, b: nat, write: bool)
    requires Ok(l) && Shaped(l) && !Contains(l, b)
    ensures ApplyAll(l, [Probe(b, write), Fill(b, write)]) == Insert(Asking(l, b, write), b, write).0
    ensures Legal(l, [Probe(b, write), Fill(b, write)])
  {
    AskingIs(l, b, write);
    AccessContains(l, b, write);
    ApplyOne(l, Probe(b, write));
    ApplyMore(l, [Probe(b, write)], Fill(b, write));
    assert [Probe(b, write)] + [Fill(b, write)] == [Probe(b, write), Fill(b, write)];
    hide Access, Insert, Contains, ApplyAll, Legal, Ok;
  }

  lemma AskAsk(l: Level, b: nat, write: bool, c: nat)
    requires Shaped(l)
    ensures ApplyAll(l, [Probe(b, write), Probe(c, true)]) == Access(Asking(l, b, write), c, true).0
    ensures Legal(l, [Probe(b, write), Probe(c, true)]) && Legal(l, [Probe(b, write)])
  {
    ApplyOne(l, Probe(b, write));
    ApplyMore(l, [Probe(b, write)], Probe(c, true));
    assert [Probe(b, write)] + [Probe(c, true)] == [Probe(b, write), Probe(c, true)];
    hide Access, Contains, ApplyAll, Legal;
  }

  lemma AskDropFill(l: Level, b: nat, write: bool, c: nat)
    requires Ok(l) && Shaped(l) && !Contains(l, b)
    ensures ApplyAll(l, [Probe(b, write), Drop(c), Fill(b, write)]) ==
      Insert(Invalidate(Asking(l, b, write), c).0, b, write).0
    ensures Legal(l, [Probe(b, write), Drop(c), Fill(b, write)])
  {
    AskingIs(l, b, write);
    AccessContains(l, b, write);
    InvalidateContains(Asking(l, b, write), c);
    hide Access, Insert, Invalidate, Contains, ApplyAll, Legal, Ok;
    ApplyOne(l, Probe(b, write));
    ApplyMore(l, [Probe(b, write)], Drop(c));
    ApplyMore(l, [Probe(b, write), Drop(c)], Fill(b, write));
    assert [Probe(b, write)] + [Drop(c)] == [Probe(b, write), Drop(c)];
    assert [Probe(b, write), Drop(c)] + [Fill(b, write)] == [Probe(b, write), Drop(c), Fill(b, write)];
  }

  /** The block of level `to` in which block b of level `from` begins. */
  function Facing(from: Level, b: nat, to: Level): nat
    requires to.blockSize > 0
  {
    b * from.blockSize / to.blockSize
  }

  /** A request served by L1 asks L1 and nobody else. */
  lemma ServedByL1(h: Hierarchy, address: nat, write: bool)
    requires AllShaped(h) && AllOk(h) && Contains(h.l1, BlockOf(h.l1, address))
    ensures var b1 := BlockOf(h.l1, address);
      && Request(h, address, write) == (h.(l1 := ApplyAll(h.l1, [Probe(b1, write)])), L1Hit)
      && Legal(h.l1, [Probe(b1, write)])
  {
    RequestCases(h, address, write);
    AskingIs(h.l1, BlockOf(h.l1, address), write);
    AskAsk(h.l1, BlockOf(h.l1, address), write, 0);
    hide Access, Contains, Ok, Request, ApplyAll, Legal;
  }

  /**
   A request served by L2 puts the block into L1 as well. If L1 loses a dirty line for it, L2 is asked to write the
   block at that line's address.
   */
  lemma ServedByL2(h: Hierarchy, address: nat, write: bool)
    requires AllShaped(h) && AllOk(h)
    requires !Contains(h.l1, BlockOf(h.l1, address)) && Contains(h.l2, BlockOf(h.l2, address))
    ensures var ((h', o), b1, b2) := (Request(h, address, write), BlockOf(h.l1, address), BlockOf(h.l2, address));
      var out := Insert(Asking(h.l1, b1, write), b1, write).1;
      var log1 := [Probe(b1, write), Fill(b1, write)];
      var log2 := if out.Some? && out.value.dirty
        then [Probe(b2, write), Probe(Facing(h.l1, out.value.block, h.l2), true)] else [Probe(b2, write)];
      && o == L2Hit && h' == Hierarchy(ApplyAll(h.l1, log1), ApplyAll(h.l2, log2), h.l3)
      && Legal(h.l1, log1) && Legal(h.l2, log2)
  {
    RequestCases(h, address, write);
    var b1, b2 := BlockOf(h.l1, address), BlockOf(h.l2, address);
    AskingIs(h.l1, b1, write);
    AskingIs(h.l2, b2, write);
    AskFill(h.l1, b1, write);
    var out := Insert(Asking(h.l1, b1, write), b1, write).1;
    AskAsk(h.l2, b2, write, if out.Some? then Facing(h.l1, out.value.block, h.l2) else 0);
    hide Access, Insert, Contains, Ok, Request, ApplyAll, Asking, Legal, BlockOf;
  }

  /**
   A request served by L3 puts the block into L2 and L1. What L2 loses for it is dropped from L1 too, and if it was
   dirty in either of them, L3 is asked to write it; what L1 loses is gone.
   */
  lemma ServedByL3(h: Hierarchy, address: nat, write: bool)
    requires AllShaped(h) && AllOk(h)
    requires !Contains(h.l1, BlockOf(h.l1, address)) && !Contains(h.l2, BlockOf(h.l2, address))
    requires Contains(h.l3, BlockOf(h.l3, address))
    ensures var (h', o) := Request(h, address, write);
      var (b1, b2, b3) := (BlockOf(h.l1, address), BlockOf(h.l2, address), BlockOf(h.l3, address));
      var out := Insert(Asking(h.l2, b2, write), b2, write).1;
      var at := if out.Some? then out.value.block else 0;
      var back := Facing(h.l2, at, h.l1);
      var dirty := out.Some? && (out.value.dirty || Invalidate(Asking(h.l1, b1, write), back).1);
      var log1 := if out.Some? then [Probe(b1, write), Drop(back), Fill(b1, write)]
        else [Probe(b1, write), Fill(b1, write)];
      var log2 := [Probe(b2, write), Fill(b2, write)];
      var log3 := if dirty then [Probe(b3, write), Probe(Facing(h.l2, at, h.l3), true)] else [Probe(b3, write)];
      && o == L3Hit && h' == Hierarchy(ApplyAll(h.l1, log1), ApplyAll(h.l2, log2), ApplyAll(h.l3, log3))
      && Legal(h.l1, log1) && Legal(h.l2, log2) && Legal(h.l3, log3)
  {
    RequestCases(h, address, write);
    var b1, b2, b3 := BlockOf(h.l1, address), BlockOf(h.l2, address), BlockOf(h.l3, address);
    AskingIs(h.l1, b1, write);
    AskingIs(h.l2, b2, write);
    AskingIs(h.l3, b3, write);
    AskFill(h.l1, b1, write);
    AskFill(h.l2, b2, write);
    var out := Insert(Asking(h.l2, b2, write), b2, write).1;
    var at := if out.Some? then out.value.block else 0;
    AskDropFill(h.l1, b1, write, Facing(h.l2, at, h.l1));
    AskAsk(h.l3, b3, write, Facing(h.l2, at, h.l3));
    hide Access, Insert, Invalidate, Contains, Ok, Request, ApplyAll, Asking, Legal, BlockOf;
  }

  /**
   A request that no level can serve puts the block into all three. What L3 loses for it is dropped from L2, and from L1
   too unless it was dirty in L2; what L2 and L1 lose is gone.
   */
  lemma ServedByMemory(h: Hierarchy, address: nat, write: bool)
    requires AllShaped(h) && AllOk(h)
    requires !Contains(h.l1, BlockOf(h.l1, address)) && !Contains(h.l2, BlockOf(h.l2, address))
    requires !Contains(h.l3, BlockOf(h.l3, address))
    ensures var (h', o) := Request(h, address, write);
      var (b1, b2, b3) := (BlockOf(h.l1, address), BlockOf(h.l2, address), BlockOf(h.l3, address));
      var out := Insert(Asking(h.l3, b3, write), b3, write).1;
      var at := if out.Some? then out.value.block else 0;
      var dirty := out.Some? && Invalidate(Asking(h.l2, b2, write), Facing(h.l3, at, h.l2)).1;
      var log1 := if out.Some? && !dirty then [Probe(b1, write), Drop(Facing(h.l3, at, h.l1)), Fill(b1, write)]
        else [Probe(b1, write), Fill(b1, write)];
      var log2 := if out.Some? then [Probe(b2, write), Drop(Facing(h.l3, at, h.l2)), Fill(b2, write)]
        else [Probe(b2, write), Fill(b2, write)];
      var log3 := [Probe(b3, write), Fill(b3, write)];
      && o == RamMiss && h' == Hierarchy(ApplyAll(h.l1, log1), ApplyAll(h.l2, log2), ApplyAll(h.l3, log3))
      && Legal(h.l1, log1) && Legal(h.l2, log2) && Legal(h.l3, log3)
  {
    RequestCases(h, address, write);
    var b1, b2, b3 := BlockOf(h.l1, address), BlockOf(h.l2, address), BlockOf(h.l3, address);
    AskingIs(h.l1, b1, write);
    AskingIs(h.l2, b2, write);
    AskingIs(h.l3, b3, write);
    AskFill(h.l1, b1, write);
    AskFill(h.l2, b2, write);
    AskFill(h.l3, b3, write);
    var out := Insert(Asking(h.l3, b3, write), b3, write).1;
    var at := if out.Some? then out.value.block else 0;
    AskDropFill(h.l1, b1, write, Facing(h.l3, at, h.l1));
    AskDropFill(h.l2, b2, write, Facing(h.l3, at, h.l2));
    hide Access, Insert, Invalidate, Contains, Ok, Request, ApplyAll, Asking, Legal, BlockOf;
  }

  // ---------- whole runs ----------

  ghost predicate AllMadeFrom(h0: Hierarchy, h: Hierarchy) {
    MadeFrom(h0.l1, h.l1) && MadeFrom(h0.l2, h.l2) && MadeFrom(h0.l3, h.l3)
  }

  lemma RequestMade(h0: Hierarchy, h: Hierarchy, address: nat, write: bool)
    requires AllShaped(h) && AllOk(h) && AllMadeFrom(h0, h)
    ensures AllMadeFrom(h0, Request(h, address, write).0)
  {
    hide Ok, Contains, Request, MadeFrom, Legal, ApplyAll, BlockOf, Asking, Insert, Invalidate;
    var h', b1, b2, b3 := Request(h, address, write).0, BlockOf(h.l1, address), BlockOf(h.l2, address),
      BlockOf(h.l3, address);
    if Contains(h.l1, b1) {
      ServedByL1(h, address, write);
      MadeOn(h0.l1, h.l1, [Probe(b1, write)]);
    } else if Contains(h.l2, b2) {
      ServedByL2(h, address, write);
      AskFill(h.l1, b1, write);
      AllMadeOn(h0, h, h');
    } else if Contains(h.l3, b3) {
      ServedByL3(h, address, write);
      AllMadeOn(h0, h, h');
    } else {
      ServedByMemory(h, address, write);
      AllMadeOn(h0, h, h');
    }
  }

  ghost predicate Goes(l: Level, l': Level) {
    Shaped(l) && (l' == l || exists ops :: Legal(l, ops) && l' == ApplyAll(l, ops))
  }

  lemma AllMadeOn(h0: Hierarchy, h: Hierarchy, h': Hierarchy)
    requires AllShaped(h) && AllMadeFrom(h0, h) && Goes(h.l1, h'.l1) && Goes(h.l2, h'.l2) && Goes(h.l3, h'.l3)
    ensures AllMadeFrom(h0, h')
  {
    GoesOn(h0.l1, h.l1, h'.l1);
    GoesOn(h0.l2, h.l2, h'.l2);
    GoesOn(h0.l3, h.l3, h'.l3);
    hide *;
  }

  lemma GoesOn(l0: Level, l: Level, l': Level)
    requires MadeFrom(l0, l) && Goes(l, l')
    ensures MadeFrom(l0, l')
  {
    hide MadeFrom, Legal, ApplyAll;
    if l' != l {
      var ops :| Legal(l, ops) && l' == ApplyAll(l, ops);
      MadeOn(l0, l, ops);
    }
  }

  lemma {:induction false} RangeMade(l0: Level, l: Level, from: nat, to: nat)
    requires MadeFrom(l0, l) && Shaped(l)
    ensures MadeFrom(l0, InvalidateRange(l, from, to))
    decreases if from < to then to - from else 0
  {
    if from < to {
      var op := Drop(BlockOf(l, from));
      ApplyOne(l, op);
      MadeOn(l0, l, [op]);
      RangeMade(l0, Apply(l, op), from + l.blockSize, to);
    }
  }
}
