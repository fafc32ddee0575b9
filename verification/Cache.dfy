/** The cache levels and the hierarchy as objects, refining the hierarchy on values. */
module Cache {
  import opened Bits
  import opened Common
  import opened Ways
  import M = CacheModel

  class CacheLevel {
    const blockSize: nat
    const associativity: nat
    const numSets: nat
    const offsetBits: nat
    const indexBits: nat
    var policy: M.Policy
    var sets: seq<M.CacheSet>
    var hits: nat
    var misses: nat
    var accessCounter: nat

    ghost predicate Valid()
      reads this
    {
      blockSize == Pow2(offsetBits) && numSets == Pow2(indexBits) && |sets| == numSets && M.Shaped(Level())
    }

    /** The level as a value. */
    ghost function Level(): M.Level
      reads this
    {
      M.Level(blockSize, associativity, policy, sets, hits, misses, accessCounter)
    }

    constructor (size: nat, block: nat, assoc: nat, p: M.Policy)
      requires IsPow2(block) && assoc > 0 && IsPow2(size / (block * assoc))
      ensures Valid() && Level() == M.EmptyLevel(block, assoc, size / (block * assoc), p)
    {
      blockSize, associativity, policy := block, assoc, p;
      numSets := size / (block * assoc);
      offsetBits, indexBits := Log2(block), Log2(size / (block * assoc));
      sets := seq(size / (block * assoc), _ => seq(assoc, _ => M.EMPTY));
      hits, misses, accessCounter := 0, 0, 0;
      Log2OfPow2(block);
      Log2OfPow2(size / (block * assoc));
    }

    method SetPolicy(p: M.Policy)
      requires Valid()
      modifies `policy
      ensures Valid() && Level() == old(Level()).(policy := p)
    {
      policy := p;
    }

    /** Set and tag of an address are those of its block. */
    lemma Split(address: nat)
      requires Valid()
      ensures Shr(address, offsetBits) == M.BlockOf(Level(), address)
      ensures Shr(address, offsetBits + indexBits) == M.BlockOf(Level(), address) / numSets
    {
      ShrIsDivision(address, offsetBits);
      ShrShr(address, offsetBits, indexBits);
      ShrIsDivision(Shr(address, offsetBits), indexBits);
    }

    method Access(address: nat, isWrite: bool) returns (hit: bool)
      requires Valid()
      modifies `sets, `hits, `misses, `accessCounter
      ensures Valid()
      ensures (Level(), hit) == M.Access(old(Level()), M.BlockOf(old(Level()), address), isWrite)
    {
      Split(address);
      var index, tag := Shr(address, offsetBits) % numSets, Shr(address, offsetBits + indexBits);
      accessCounter := accessCounter + 1;
      var w := FindWay(sets[index], tag);
      if w < |sets[index]| {
        hits := hits + 1;
        var line := sets[index][w];
        sets := sets[index :=
          sets[index][w := line.(lastAccess := accessCounter, freq := line.freq + 1, dirty := line.dirty || isWrite)]];
        return true;
      }
      misses := misses + 1;
      return false;
    }

    method Insert(address: nat, isWrite: bool) returns (evicted: bool, evAddr: nat, evDirty: bool)
      requires Valid()
      modifies `sets
      ensures Valid()
      ensures var (l, ev) := M.Insert(old(Level()), M.BlockOf(old(Level()), address), isWrite);
        && Level() == l && evicted == ev.Some?
        && (evicted ==> evAddr == M.Start(l, ev.value) && evDirty == ev.value.dirty)
    {
      Split(address);
      var index, tag := Shr(address, offsetBits) % numSets, Shr(address, offsetBits + indexBits);
      var victim := SelectVictim(policy, sets[index]);
      evicted, evAddr, evDirty := false, 0, false;
      if sets[index][victim].valid {
        evicted := true;
        evAddr := Or(Shl(sets[index][victim].tag, offsetBits + indexBits), Shl(index, offsetBits));
        evDirty := sets[index][victim].dirty;
        Rejoin(sets[index][victim].tag, index);
      }
      sets := sets[index := sets[index][victim := M.Line(true, isWrite, tag, accessCounter, accessCounter, 1)]];
    }

    /** The address rebuilt from tag and set is where the block starts. */
    lemma Rejoin(tag: nat, index: nat)
      requires Valid() && index < numSets
      ensures Or(Shl(tag, offsetBits + indexBits), Shl(index, offsetBits)) == (tag * numSets + index) * blockSize
    {
      OrOfFields(tag, index, indexBits, offsetBits);
    }

    method Invalidate(address: nat) returns (wasDirty: bool)
      requires Valid()
      modifies `sets
      ensures Valid()
      ensures (Level(), wasDirty) == M.Invalidate(old(Level()), M.BlockOf(old(Level()), address))
    {
      Split(address);
      var index, tag := Shr(address, offsetBits) % numSets, Shr(address, offsetBits + indexBits);
      var w := FindWay(sets[index], tag);
      if w < |sets[index]| {
        wasDirty := sets[index][w].dirty;
        sets := sets[index := sets[index][w := sets[index][w].(valid := false)]];
        return;
      }
      return false;
    }

    method InvalidateFrame(start: nat, range: nat)
      requires Valid()
      modifies `sets
      ensures Valid() && Level() == M.InvalidateRange(old(Level()), start, start + range)
    {
      var a := start;
      while a < start + range
        invariant Valid()
        invariant M.InvalidateRange(Level(), a, start + range) == M.InvalidateRange(old(Level()), start, start + range)
        decreases start + range - a
      {
        var dirty := Invalidate(a);
        a := a + blockSize;
      }
    }
  }

  /** The scan of a set for a tag. */
  method FindWay(lines: M.CacheSet, tag: nat) returns (w: nat)
    ensures w == Find(M.Tags(lines), tag)
  {
    w := 0;
    while w < |lines| && !(lines[w].valid && lines[w].tag == tag)
      invariant w <= |lines|
      invariant forall k :: 0 <= k < w ==> M.Tags(lines)[k] != Some(tag)
    {
      w := w + 1;
    }
    FindUnique(M.Tags(lines), tag, w);
  }

  /** The scan for the way to replace. */
  method SelectVictim(policy: M.Policy, lines: M.CacheSet) returns (victim: nat)
    requires lines != []
    ensures victim == VictimWay(M.Keys(policy, lines))
  {
    victim := 0;
    for i := 0 to |lines|
      invariant victim < |lines| && (i > 0 ==> victim < i)
      invariant forall k :: 0 <= k < i ==> lines[k].valid && M.Key(policy, lines[victim]) <= M.Key(policy, lines[k])
      invariant forall k :: 0 <= k < victim ==> M.Key(policy, lines[victim]) < M.Key(policy, lines[k])
    {
      if !lines[i].valid {
        VictimUnique(M.Keys(policy, lines), i);
        return i;
      }
      if i == 0 || M.Key(policy, lines[i]) < M.Key(policy, lines[victim]) {
        victim := i;
      }
    }
    VictimUnique(M.Keys(policy, lines), victim);
  }

  /**
   Builds a level; None stands for the exceptions thrown for a zero parameter or a number of sets that is not
   a power of two.
   */
  method MakeLevel(size: nat, block: nat, assoc: nat, p: M.Policy) returns (level: Option<CacheLevel>)
    requires block > 0 ==> IsPow2(block)
    requires size > 0 ==> block * assoc <= size
    ensures level.None? <==> size == 0 || block == 0 || assoc == 0 || !IsPow2(size / (block * assoc))
    ensures level.Some? ==> fresh(level.value) && level.value.Valid()
    ensures level.Some? ==> level.value.Level() == M.EmptyLevel(block, assoc, size / (block * assoc), p)
  {
    if size == 0 || block == 0 || assoc == 0 {
      return None;
    }
    MulMonotonic(1, block, assoc);
    var numSets := size / (block * assoc);
    QuotientPositive(size, block * assoc);
    AndWithPredecessor(numSets);
    if And(numSets, numSets - 1) != 0 {
      return None;
    }
    var l := new CacheLevel(size, block, assoc, p);
    return Some(l);
  }

  lemma OrOfFields(tag: nat, index: nat, e: nat, d: nat)
    requires index < Pow2(e)
    ensures Or(Shl(tag, d + e), Shl(index, d)) == (tag * Pow2(e) + index) * Pow2(d)
  {
    hide Pow2, Or;
    Pow2Add(e, d);
    FieldFits(index, Pow2(e), Pow2(d));
    OrDisjoint(tag, Shl(index, d), d + e);
    Regroup(tag, index, Pow2(e), Pow2(d));
  }

  lemma FieldFits(index: nat, m: nat, n: nat)
    requires index < m && n >= 1
    ensures index * n < m * n
  {
    MulMonotonic(index + 1, m, n);
    MulMonotonic(index, index, n);
  }

  lemma Regroup(a: nat, b: nat, m: nat, n: nat)
    ensures a * (m * n) + b * n == (a * m + b) * n
  {
    assert a * (m * n) == (a * m) * n;
  }

  class MemoryHierarchy {
    const l1: CacheLevel
    const l2: CacheLevel
    const l3: CacheLevel

    ghost predicate Valid()
      reads l1, l2, l3
    {
      l1 != l2 && l1 != l3 && l2 != l3 && l1.Valid() && l2.Valid() && l3.Valid()
    }

    /** The three levels as a value. */
    ghost function Levels(): M.Hierarchy
      reads l1, l2, l3
    {
      M.Hierarchy(l1.Level(), l2.Level(), l3.Level())
    }

    constructor (a: CacheLevel, b: CacheLevel, c: CacheLevel)
      requires a != b && a != c && b != c && a.Valid() && b.Valid() && c.Valid()
      ensures Valid() && l1 == a && l2 == b && l3 == c
    {
      l1, l2, l3 := a, b, c;
    }

    method InvalidatePhysicalRange(addr: nat, size: nat)
      requires Valid()
      modifies l1`sets, l2`sets, l3`sets
      ensures Valid() && Levels() == M.InvalidateFrame(old(Levels()), addr, size)
    {
      l1.InvalidateFrame(addr, size);
      l2.InvalidateFrame(addr, size);
      l3.InvalidateFrame(addr, size);
    }

    method HandleWriteback(addr: nat, fromLevel: nat)
      requires Valid()
      modifies l2, l3
      ensures Valid() && Levels() == M.Writeback(old(Levels()), addr, fromLevel)
    {
      if fromLevel == 1 {
        var hit := l2.Access(addr, true);
      } else if fromLevel == 2 {
        var hit := l3.Access(addr, true);
      }
    }

    method Request(address: nat, isWrite: bool) returns (outcome: M.Outcome)
      requires Valid()
      modifies l1, l2, l3
      ensures Valid() && (Levels(), outcome) == M.Request(old(Levels()), address, isWrite)
    {
      hide M.Access, M.Insert, M.Invalidate, M.Writeback, M.Shaped;
      var hit1 := l1.Access(address, isWrite);
      if hit1 {
        return M.L1Hit;
      }
      var hit2 := l2.Access(address, isWrite);
      if hit2 {
        FillFromL2(address, isWrite);
        return M.L2Hit;
      }
      var hit3 := l3.Access(address, isWrite);
      if hit3 {
        FillFromL3(address, isWrite);
        return M.L3Hit;
      }
      FillFromRam(address, isWrite);
      return M.RamMiss;
    }

    method FillFromL2(address: nat, isWrite: bool)
      requires Valid()
      modifies l1, l2, l3
      ensures Valid() && Levels() == M.FromL2(old(Levels()), address, isWrite)
    {
      hide M.Insert, M.Writeback, M.Shaped;
      var evicted, evAddr, evDirty := l1.Insert(address, isWrite);
      if evicted && evDirty {
        HandleWriteback(evAddr, 1);
      }
    }

    method FillFromL3(address: nat, isWrite: bool)
      requires Valid()
      modifies l1, l2, l3
      ensures Valid() && Levels() == M.FromL3(old(Levels()), address, isWrite)
    {
      hide M.Insert, M.Invalidate, M.Writeback, M.Shaped;
      var evicted, evAddr, evDirty := l2.Insert(address, isWrite);
      if evicted {
        var dirty1 := l1.Invalidate(evAddr);
        if dirty1 {
          evDirty := true;
        }
        if evDirty {
          HandleWriteback(evAddr, 2);
        }
      }
      evicted, evAddr, evDirty := l1.Insert(address, isWrite);
    }

    method FillFromRam(address: nat, isWrite: bool)
      requires Valid()
      modifies l1, l2, l3
      ensures Valid() && Levels() == M.FromRam(old(Levels()), address, isWrite)
    {
      hide M.Insert, M.Invalidate, M.Shaped;
      var evicted, evAddr, evDirty := l3.Insert(address, isWrite);
      if evicted {
        var dirty := l2.Invalidate(evAddr);
        if !dirty {
          dirty := l1.Invalidate(evAddr);
        }
        if dirty {
          evDirty := true;
        }
        if evDirty {
          HandleWriteback(evAddr, 3);
        }
      }
      evicted, evAddr, evDirty := l2.Insert(address, isWrite);
      evicted, evAddr, evDirty := l1.Insert(address, isWrite);
    }
  }
}
