/** What a request brings into the three levels and what it leaves there. */
module CacheContents {
  import opened Bits
  import opened Common
  import opened CacheModel

  /** Nothing is in l' that was not in l, except block b. */
  ghost predicate GrowsBy(l: Level, l': Level, b: nat)
    requires |l.sets| > 0 && |l'.sets| > 0
  {
    forall c: nat :: Contains(l', c) ==> Contains(l, c) || c == b
  }

  lemma OkShaped(l: Level)
    requires Ok(l)
    ensures Shaped(l)
  {
  }

  lemma AllOkShaped(h: Hierarchy)
    requires AllOk(h)
    ensures AllShaped(h)
  {
  }

  /** A write-back touches lines that are there and brings nothing in. */
  lemma WritebackContents(h: Hierarchy, address: nat, level: nat)
    requires AllOk(h)
    ensures AllShaped(h)
    ensures var h' := Writeback(h, address, level);
      && AllOk(h') && h'.l1 == h.l1
      && (forall c: nat :: Contains(h'.l2, c) <==> Contains(h.l2, c))
      && (forall c: nat :: Contains(h'.l3, c) <==> Contains(h.l3, c))
  {
    AllOkShaped(h);
    if level == 1 {
      AccessContains(h.l2, BlockOf(h.l2, address), true);
    } else if level == 2 {
      AccessContains(h.l3, BlockOf(h.l3, address), true);
    }
  }

  /** Afterwards the levels hold only what they held and the requested block, and L1 holds that. */
  ghost predicate Fetched(h: Hierarchy, h': Hierarchy, address: nat)
    requires AllShaped(h) && AllShaped(h')
  {
    && GrowsBy(h.l1, h'.l1, BlockOf(h.l1, address))
    && GrowsBy(h.l2, h'.l2, BlockOf(h.l2, address))
    && GrowsBy(h.l3, h'.l3, BlockOf(h.l3, address))
    && Contains(h'.l1, BlockOf(h.l1, address))
  }

  lemma FromL2Contents(h: Hierarchy, address: nat, write: bool)
    requires AllOk(h) && !Contains(h.l1, BlockOf(h.l1, address))
    ensures AllShaped(h) && AllOk(FromL2(h, address, write)) && Fetched(h, FromL2(h, address, write), address)
  {
    hide Contains, Ok, Insert, Access;
    AllOkShaped(h);
    InsertContains(h.l1, BlockOf(h.l1, address), write);
    var (l1, ev) := Insert(h.l1, BlockOf(h.l1, address), write);
    var h1 := h.(l1 := l1);
    if ev.Some? && ev.value.dirty {
      WritebackContents(h1, Start(l1, ev.value), 1);
    }
  }

  lemma InvalidateShrinks(l: Level, block: nat, b: nat)
    requires Ok(l)
    ensures Shaped(l) && Ok(Invalidate(l, block).0) && |Invalidate(l, block).0.sets| == |l.sets|
    ensures GrowsBy(l, Invalidate(l, block).0, b)
    ensures !Contains(l, b) ==> !Contains(Invalidate(l, block).0, b)
  {
    OkShaped(l);
    InvalidateContains(l, block);
  }

  lemma InsertGrows(l: Level, l': Level, block: nat, write: bool)
    requires Ok(l') && |l.sets| > 0 && GrowsBy(l, l', block) && !Contains(l', block)
    ensures Shaped(l') && Ok(Insert(l', block, write).0)
    ensures GrowsBy(l, Insert(l', block, write).0, block) && Contains(Insert(l', block, write).0, block)
  {
    OkShaped(l');
    InsertContains(l', block, write);
  }

  lemma FromL3Contents(h: Hierarchy, address: nat, write: bool)
    requires AllOk(h)
    requires !Contains(h.l1, BlockOf(h.l1, address)) && !Contains(h.l2, BlockOf(h.l2, address))
    ensures AllShaped(h) && AllOk(FromL3(h, address, write)) && Fetched(h, FromL3(h, address, write), address)
  {
    AllOkShaped(h);
    var b1 := BlockOf(h.l1, address);
    InsertContains(h.l2, BlockOf(h.l2, address), write);
    hide Contains, Ok, Insert, Access, Invalidate, Writeback, Start;
    var (l2, ev) := Insert(h.l2, BlockOf(h.l2, address), write);
    var h1 := h.(l2 := l2);
    if ev.None? {
      InsertGrows(h.l1, h1.l1, b1, write);
    } else {
      var at := Start(l2, ev.value);
      InvalidateShrinks(h1.l1, BlockOf(h1.l1, at), b1);
      var (l1, dirty) := Invalidate(h1.l1, BlockOf(h1.l1, at));
      var h3 := h1.(l1 := l1);
      WritebackContents(h3, at, 2);
      InsertGrows(h.l1, l1, b1, write);
    }
  }

  lemma FromRamContents(h: Hierarchy, address: nat, write: bool)
    requires AllOk(h)
    requires !Contains(h.l1, BlockOf(h.l1, address)) && !Contains(h.l2, BlockOf(h.l2, address))
    requires !Contains(h.l3, BlockOf(h.l3, address))
    ensures AllShaped(h) && AllOk(FromRam(h, address, write)) && Fetched(h, FromRam(h, address, write), address)
  {
    AllOkShaped(h);
    var b1, b2 := BlockOf(h.l1, address), BlockOf(h.l2, address);
    InsertContains(h.l3, BlockOf(h.l3, address), write);
    hide Contains, Ok, Insert, Invalidate, Start;
    var (l3, ev) := Insert(h.l3, BlockOf(h.l3, address), write);
    if ev.None? {
      InsertGrows(h.l1, h.l1, b1, write);
      InsertGrows(h.l2, h.l2, b2, write);
    } else {
      var at := Start(l3, ev.value);
      InvalidateShrinks(h.l2, BlockOf(h.l2, at), b2);
      InvalidateShrinks(h.l1, BlockOf(h.l1, at), b1);
      var (l2, dirty) := Invalidate(h.l2, BlockOf(h.l2, at));
      var l1 := if dirty then h.l1 else Invalidate(h.l1, BlockOf(h.l1, at)).0;
      InsertGrows(h.l2, l2, b2, write);
      InsertGrows(h.l1, l1, b1, write);
    }
  }

  /** The three levels after the probes of a request that reaches all of them. */
  function Probed(h: Hierarchy, address: nat, write: bool): (h': Hierarchy)
    requires AllShaped(h)
    ensures AllSameShape(h, h')
  {
    Hierarchy(Access(h.l1, BlockOf(h.l1, address), write).0,
              Access(h.l2, BlockOf(h.l2, address), write).0,
              Access(h.l3, BlockOf(h.l3, address), write).0)
  }

  /** Probing changes nothing of what is there. */
  lemma ProbedContents(h: Hierarchy, address: nat, write: bool)
    requires AllOk(h)
    ensures AllShaped(h) && AllOk(Probed(h, address, write))
    ensures var h' := Probed(h, address, write);
      && (forall b: nat :: Contains(h'.l1, b) <==> Contains(h.l1, b))
      && (forall b: nat :: Contains(h'.l2, b) <==> Contains(h.l2, b))
      && (forall b: nat :: Contains(h'.l3, b) <==> Contains(h.l3, b))
  {
    AllOkShaped(h);
    AccessContains(h.l1, BlockOf(h.l1, address), write);
    AccessContains(h.l2, BlockOf(h.l2, address), write);
    AccessContains(h.l3, BlockOf(h.l3, address), write);
    hide Contains, Ok, Access;
  }

  /** The outcome of a request is the highest level that holds the block, and the levels below it are not probed. */
  lemma RequestCases(h: Hierarchy, address: nat, write: bool)
    requires AllOk(h)
    ensures AllShaped(h)
    ensures var h' := Probed(h, address, write);
      Request(h, address, write) ==
        if Contains(h.l1, BlockOf(h.l1, address)) then (h.(l1 := h'.l1), L1Hit)
        else if Contains(h.l2, BlockOf(h.l2, address)) then (FromL2(h'.(l3 := h.l3), address, write), L2Hit)
        else if Contains(h.l3, BlockOf(h.l3, address)) then (FromL3(h', address, write), L3Hit)
        else (FromRam(h', address, write), RamMiss)
  {
    AllOkShaped(h);
    AccessContains(h.l1, BlockOf(h.l1, address), write);
    AccessContains(h.l2, BlockOf(h.l2, address), write);
    AccessContains(h.l3, BlockOf(h.l3, address), write);
    hide Contains, Ok, Access, FromL2, FromL3, FromRam;
  }

  /** A request keeps the levels well formed, brings in at most the requested block, and leaves it in L1. */
  lemma RequestContents(h: Hierarchy, address: nat, write: bool)
    requires AllOk(h)
    ensures AllShaped(h)
    ensures var h' := Request(h, address, write).0; AllOk(h') && Fetched(h, h', address)
  {
    AllOkShaped(h);
    ProbedContents(h, address, write);
    RequestCases(h, address, write);
    hide Contains, Ok, Request, FromL2, FromL3, FromRam, Probed, BlockOf;
    var h' := Probed(h, address, write);
    if !Contains(h.l1, BlockOf(h.l1, address)) {
      if Contains(h.l2, BlockOf(h.l2, address)) {
        FromL2Contents(h'.(l3 := h.l3), address, write);
      } else if Contains(h.l3, BlockOf(h.l3, address)) {
        FromL3Contents(h', address, write);
      } else {
        FromRamContents(h', address, write);
      }
    }
  }

  /** An immediate repeat of a request is an L1 hit, whatever the policies. */
  lemma RepeatHitsL1(h: Hierarchy, address: nat, write: bool, again: bool)
    requires AllOk(h)
    ensures AllShaped(h) && Request(Request(h, address, write).0, address, again).1 == L1Hit
  {
    RequestContents(h, address, write);
    var h' := Request(h, address, write).0;
    AccessContains(h'.l1, BlockOf(h'.l1, address), again);
  }

  /** A frame of physical memory, for a level whose block size divides the frame size. */
  ghost predicate Divides(l: Level) {
    l.blockSize > 0 && PAGE_SIZE % l.blockSize == 0
  }

  /** Block b of a level lies in the frame. */
  predicate InFrame(l: Level, b: nat, frame: nat) {
    b * l.blockSize / PAGE_SIZE == frame
  }

  lemma FrameRange(l: Level, b: nat, frame: nat)
    requires Divides(l)
    ensures InFrame(l, b, frame) <==> frame * PAGE_SIZE <= b * l.blockSize < frame * PAGE_SIZE + PAGE_SIZE
  {
  }

  lemma FrameStartsBlock(l: Level, frame: nat) returns (q: nat)
    requires Divides(l)
    ensures q * l.blockSize == frame * PAGE_SIZE
  {
    var k := PAGE_SIZE / l.blockSize;
    assert k * l.blockSize == PAGE_SIZE;
    q := frame * k;
    assert frame * k * l.blockSize == frame * (k * l.blockSize);
  }

  /** Sweeping a frame in block steps drops every line that lies in it and no other. */
  lemma SweepClearsFrame(l: Level, frame: nat)
    requires Ok(l) && Divides(l)
    ensures Shaped(l)
    ensures var l' := InvalidateRange(l, frame * PAGE_SIZE, frame * PAGE_SIZE + PAGE_SIZE);
      && Ok(l') && l'.blockSize == l.blockSize && |l'.sets| == |l.sets|
      && forall b: nat :: Contains(l', b) <==> Contains(l, b) && !InFrame(l, b, frame)
  {
    hide Contains;
    OkShaped(l);
    var q := FrameStartsBlock(l, frame);
    RangeContains(l, frame * PAGE_SIZE, frame * PAGE_SIZE + PAGE_SIZE);
    QuotientUnique(frame * PAGE_SIZE, l.blockSize, q, 0);
    var l' := InvalidateRange(l, frame * PAGE_SIZE, frame * PAGE_SIZE + PAGE_SIZE);
    forall b: nat
      ensures Contains(l', b) <==> Contains(l, b) && !InFrame(l, b, frame)
    {
      FrameRange(l, b, frame);
      BlockOrder(b, q, l.blockSize);
    }
  }

  lemma BlockOrder(b: nat, q: nat, n: nat)
    requires n > 0
    ensures q <= b <==> q * n <= b * n
  {
    if q <= b {
      MulMonotonic(q, b, n);
    } else {
      MulMonotonic(b + 1, q, n);
      MulMonotonic(b, b, n);
    }
  }
}
