/** The linear allocator on values: the list of blocks in address order. */
module LinearModel {
  import opened Common

  datatype Strategy = FirstFit | BestFit | WorstFit

  datatype Block = Block(start: nat, size: nat, id: int, req: nat, free: bool)

  datatype State = State(total: nat, blocks: seq<Block>, nextId: int, attempts: nat, successes: nat)

  // ---------- the invariant ----------

  function End(b: Block): nat {
    b.start + b.size
  }

  /** The blocks fill [0, total) one after the other. */
  ghost predicate Tiled(blocks: seq<Block>, total: nat) {
    && blocks != [] && blocks[0].start == 0 && End(blocks[|blocks| - 1]) == total
    && (forall i :: 0 <= i < |blocks| ==> blocks[i].size > 0)
    && (forall i, j :: 0 <= i && j == i + 1 < |blocks| ==> End(blocks[i]) == blocks[j].start)
  }

  ghost predicate NoFreeNeighbours(blocks: seq<Block>) {
    forall i, j :: 0 <= i && j == i + 1 < |blocks| ==> !(blocks[i].free && blocks[j].free)
  }

  /** Used blocks carry ids given out, each its own, and are exactly as large as requested; free blocks carry none. */
  ghost predicate Labelled(blocks: seq<Block>, nextId: int) {
    && (forall i :: 0 <= i < |blocks| ==>
          if blocks[i].free then blocks[i].id == 0 && blocks[i].req == 0
          else 1 <= blocks[i].id < nextId && blocks[i].req == blocks[i].size)
    && (forall i, j :: 0 <= i < j < |blocks| && !blocks[i].free ==> blocks[i].id != blocks[j].id)
  }

  /** An allocator without a pool has no blocks at all. */
  ghost predicate Inv(s: State) {
    && Labelled(s.blocks, s.nextId) && NoFreeNeighbours(s.blocks) && s.nextId >= 1
    && (s.blocks != [] ==> Tiled(s.blocks, s.total))
  }

  /** Byte x belongs to a free block. */
  ghost predicate FreeAt(blocks: seq<Block>, x: nat) {
    exists i :: 0 <= i < |blocks| && blocks[i].free && blocks[i].start <= x < End(blocks[i])
  }

  /** All `size` bytes from a on are free. */
  ghost predicate FreeRun(blocks: seq<Block>, a: nat, size: nat) {
    forall x: nat :: a <= x < a + size ==> FreeAt(blocks, x)
  }

  // ---------- operations ----------

  function Initial(): State {
    State(0, [], 1, 0, 0)
  }

  /** A request for an empty pool drops the old one but keeps its size and counters. */
  function Init(s: State, size: nat): State {
    if size == 0 then s.(blocks := [])
    else State(size, [Block(0, size, 0, 0, true)], 1, 0, 0)
  }

  predicate Fits(b: Block, size: nat) {
    b.free && b.size >= size
  }

  /** Block i is taken over block j by the strategy, i being met after j. */
  predicate Beats(algo: Strategy, i: Block, j: Block) {
    match algo
    case FirstFit => false
    case BestFit => i.size < j.size
    case WorstFit => i.size > j.size
  }

  /** The choice among the first n blocks. */
  function Choice(algo: Strategy, blocks: seq<Block>, size: nat, n: nat): (c: Option<nat>)
    requires n <= |blocks|
    ensures c.Some? ==> c.value < n && Fits(blocks[c.value], size)
    ensures c.None? <==> forall i :: 0 <= i < n ==> !Fits(blocks[i], size)
  {
    if n == 0 then None
    else
      var c := Choice(algo, blocks, size, n - 1);
      if Fits(blocks[n - 1], size) && (c.None? || Beats(algo, blocks[n - 1], blocks[c.value])) then Some(n - 1) else c
  }

  /** The chosen block after the allocation, and what is left of it. */
  function Split(b: Block, size: nat, id: int): seq<Block>
    requires size <= b.size
  {
    if b.size > size
    then [Block(b.start, size, id, size, false), Block(b.start + size, b.size - size, 0, 0, true)]
    else [Block(b.start, b.size, id, size, false)]
  }

  /** The list with other blocks in the place of block k. */
  function Replaced(blocks: seq<Block>, k: nat, parts: seq<Block>): seq<Block>
    requires k < |blocks|
  {
    blocks[..k] + parts + blocks[k + 1..]
  }

  function Allocate(s: State, size: nat, algo: Strategy): (State, int) {
    if size == 0 then (s, -1)
    else
      match Choice(algo, s.blocks, size, |s.blocks|)
      case None => (s.(attempts := s.attempts + 1), -1)
      case Some(k) =>
        (s.(blocks := Replaced(s.blocks, k, Split(s.blocks[k], size, s.nextId)),
            nextId := s.nextId + 1, attempts := s.attempts + 1, successes := s.successes + 1),
         s.nextId)
  }

  /** Position of the used block with an id; the number of blocks if there is none. */
  function Find(blocks: seq<Block>, id: int): (k: nat)
    ensures k <= |blocks| && (k < |blocks| ==> !blocks[k].free && blocks[k].id == id)
    ensures forall i :: 0 <= i < k ==> blocks[i].free || blocks[i].id != id
  {
    if blocks == [] then 0
    else if !blocks[0].free && blocks[0].id == id then 0
    else
      var k := 1 + Find(blocks[1..], id);
      assert forall i :: 1 <= i < k ==> blocks[i] == blocks[1..][i - 1];
      k
  }

  /** Block k swallows its right neighbour if that is free. */
  function Join(blocks: seq<Block>, k: nat): seq<Block>
    requires k < |blocks|
  {
    if k + 1 < |blocks| && blocks[k + 1].free
    then blocks[..k] + [blocks[k].(size := blocks[k].size + blocks[k + 1].size)] + blocks[k + 2..]
    else blocks
  }

  function Released(blocks: seq<Block>, k: nat): seq<Block>
    requires k < |blocks|
  {
    var freed := blocks[k := Block(blocks[k].start, blocks[k].size, 0, 0, true)];
    var joined := Join(freed, k);
    if k > 0 && joined[k - 1].free then Join(joined, k - 1) else joined
  }

  function Deallocate(s: State, id: int): State {
    var k := Find(s.blocks, id);
    if k < |s.blocks| then s.(blocks := Released(s.blocks, k)) else s
  }

  // ---------- geometry of a tiled list ----------

  lemma {:induction false} StartsIncrease(blocks: seq<Block>, total: nat, i: nat, j: nat)
    requires Tiled(blocks, total) && i < j < |blocks|
    ensures End(blocks[i]) <= blocks[j].start
  {
    if i + 1 < j {
      StartsIncrease(blocks, total, i, j - 1);
    }
  }

  lemma EndsInPool(blocks: seq<Block>, total: nat, i: nat)
    requires Tiled(blocks, total) && i < |blocks|
    ensures End(blocks[i]) <= total
  {
    if i < |blocks| - 1 {
      StartsIncrease(blocks, total, i, |blocks| - 1);
    }
  }

  /** Two blocks share a byte only if they are the same. */
  lemma Disjoint(blocks: seq<Block>, total: nat, i: nat, j: nat, x: nat)
    requires Tiled(blocks, total) && i < |blocks| && j < |blocks|
    requires blocks[i].start <= x < End(blocks[i]) && blocks[j].start <= x < End(blocks[j])
    ensures i == j
  {
    if i < j {
      StartsIncrease(blocks, total, i, j);
    } else if j < i {
      StartsIncrease(blocks, total, j, i);
    }
  }

  /** A contiguous free run lies inside one block, because free blocks never touch. */
  lemma {:induction false} RunInOneBlock(blocks: seq<Block>, total: nat, a: nat, size: nat, i: nat)
    requires Tiled(blocks, total) && NoFreeNeighbours(blocks)
    requires size > 0 && FreeRun(blocks, a, size)
    requires i < |blocks| && blocks[i].free && blocks[i].start <= a < End(blocks[i])
    ensures a + size <= End(blocks[i])
    decreases size
  {
    if size > 1 {
      assert FreeRun(blocks, a, size - 1);
      RunInOneBlock(blocks, total, a, size - 1, i);
      var x := a + size - 1;
      assert FreeAt(blocks, x);
      var j :| 0 <= j < |blocks| && blocks[j].free && blocks[j].start <= x < End(blocks[j]);
      if x == End(blocks[i]) {
        EndsInPool(blocks, total, j);
        if i + 1 < |blocks| {
          Disjoint(blocks, total, i + 1, j, x);
        }
        assert false;
      }
    }
  }

  /** Some free block is large enough exactly when some run of that many bytes is free. */
  lemma FitsIffFreeRun(s: State, size: nat)
    requires Inv(s) && size > 0
    ensures (exists i :: 0 <= i < |s.blocks| && Fits(s.blocks[i], size)) <==>
      exists a: nat :: FreeRun(s.blocks, a, size)
  {
    if i :| 0 <= i < |s.blocks| && Fits(s.blocks[i], size) {
      assert FreeRun(s.blocks, s.blocks[i].start, size);
    }
    if a: nat :| FreeRun(s.blocks, a, size) {
      assert FreeAt(s.blocks, a);
      var i :| 0 <= i < |s.blocks| && s.blocks[i].free && s.blocks[i].start <= a < End(s.blocks[i]);
      RunInOneBlock(s.blocks, s.total, a, size, i);
      assert Fits(s.blocks[i], size);
    }
  }

  // ---------- allocation ----------

  ghost function Used(blocks: seq<Block>): set<Block> {
    set i | 0 <= i < |blocks| && !blocks[i].free :: blocks[i]
  }

  /** A maximal free run. */
  ghost predicate Gap(blocks: seq<Block>, a: nat, n: nat) {
    n > 0 && FreeRun(blocks, a, n) && (a == 0 || !FreeAt(blocks, a - 1)) && !FreeAt(blocks, a + n)
  }

  lemma NotFreeInUsed(blocks: seq<Block>, total: nat, i: nat, x: nat)
    requires Tiled(blocks, total) && i < |blocks| && !blocks[i].free && blocks[i].start <= x < End(blocks[i])
    ensures !FreeAt(blocks, x)
  {
    if FreeAt(blocks, x) {
      var j :| 0 <= j < |blocks| && blocks[j].free && blocks[j].start <= x < End(blocks[j]);
      Disjoint(blocks, total, i, j, x);
    }
  }

  lemma NotFreeOutside(blocks: seq<Block>, total: nat, x: nat)
    requires Tiled(blocks, total) && x >= total
    ensures !FreeAt(blocks, x)
  {
    forall i | 0 <= i < |blocks|
      ensures End(blocks[i]) <= x
    {
      EndsInPool(blocks, total, i);
    }
  }

  lemma BlockIsGap(s: State, i: nat)
    requires Inv(s) && i < |s.blocks| && s.blocks[i].free
    ensures Gap(s.blocks, s.blocks[i].start, s.blocks[i].size)
  {
    var b := s.blocks[i];
    if i > 0 {
      var j := i - 1;
      assert s.blocks[j].size > 0 && End(s.blocks[j]) == b.start && !s.blocks[j].free;
      NotFreeInUsed(s.blocks, s.total, j, b.start - 1);
    }
    if i + 1 < |s.blocks| {
      NotFreeInUsed(s.blocks, s.total, i + 1, End(b));
    } else {
      NotFreeOutside(s.blocks, s.total, End(b));
    }
  }

  /** The gaps are exactly the free blocks. */
  lemma GapIsBlock(s: State, a: nat, n: nat) returns (i: nat)
    requires Inv(s) && Gap(s.blocks, a, n)
    ensures i < |s.blocks| && s.blocks[i].free && s.blocks[i].start == a && s.blocks[i].size == n
  {
    assert FreeAt(s.blocks, a);
    i :| 0 <= i < |s.blocks| && s.blocks[i].free && s.blocks[i].start <= a < End(s.blocks[i]);
    RunInOneBlock(s.blocks, s.total, a, n, i);
    assert forall x: nat :: s.blocks[i].start <= x < End(s.blocks[i]) ==> FreeAt(s.blocks, x);
  }

  /** Gap (a, n) is at least as good as gap (b, m) for a strategy; ties go to the lower address. */
  predicate Preferred(algo: Strategy, a: nat, n: nat, b: nat, m: nat) {
    match algo
    case FirstFit => a <= b
    case BestFit => n < m || (n == m && a <= b)
    case WorstFit => n > m || (n == m && a <= b)
  }

  /** A fitting block at the end of the scan is not preferred to the choice. */
  lemma LastScanned(algo: Strategy, s: State, size: nat, n: nat)
    requires Tiled(s.blocks, s.total) && 0 < n <= |s.blocks| && Fits(s.blocks[n - 1], size)
    ensures var (c, b) := (Choice(algo, s.blocks, size, n), s.blocks[n - 1]);
      c.Some? && Preferred(algo, s.blocks[c.value].start, s.blocks[c.value].size, b.start, b.size)
  {
    var before := Choice(algo, s.blocks, size, n - 1);
    if before.Some? {
      StartsIncrease(s.blocks, s.total, before.value, n - 1);
    }
    hide Tiled;
  }

  /** Scanning one more block keeps the choice preferred to what was scanned before. */
  lemma EarlierScanned(algo: Strategy, s: State, size: nat, n: nat, i: nat)
    requires Tiled(s.blocks, s.total) && n <= |s.blocks| && i < n - 1
    requires var c := Choice(algo, s.blocks, size, n - 1);
      c.Some? && Preferred(algo, s.blocks[c.value].start, s.blocks[c.value].size, s.blocks[i].start, s.blocks[i].size)
    ensures var c := Choice(algo, s.blocks, size, n);
      c.Some? && Preferred(algo, s.blocks[c.value].start, s.blocks[c.value].size, s.blocks[i].start, s.blocks[i].size)
  {
    StartsIncrease(s.blocks, s.total, Choice(algo, s.blocks, size, n - 1).value, n - 1);
    StartsIncrease(s.blocks, s.total, i, n - 1);
    hide Tiled;
  }

  /** What a scan chooses is preferred to every fitting block it has seen. */
  lemma {:induction false} ChoicePreferred(algo: Strategy, s: State, size: nat, n: nat, i: nat)
    requires Inv(s) && n <= |s.blocks| && i < n && Fits(s.blocks[i], size)
    ensures var c := Choice(algo, s.blocks, size, n);
      c.Some? && Preferred(algo, s.blocks[c.value].start, s.blocks[c.value].size, s.blocks[i].start, s.blocks[i].size)
    decreases n
  {
    assert Tiled(s.blocks, s.total);
    hide Inv, Tiled, Preferred, Choice;
    if i == n - 1 {
      LastScanned(algo, s, size, n);
    } else {
      ChoicePreferred(algo, s, size, n - 1, i);
      EarlierScanned(algo, s, size, n, i);
    }
  }

  /** The block list with one block replaced by one or two that fill its place. */
  lemma ReplaceTiled(blocks: seq<Block>, total: nat, k: nat, parts: seq<Block>)
    requires Tiled(blocks, total) && k < |blocks| && 1 <= |parts| <= 2
    requires forall i :: 0 <= i < |parts| ==> parts[i].size > 0
    requires parts[0].start == blocks[k].start && End(parts[|parts| - 1]) == End(blocks[k])
    requires |parts| == 2 ==> End(parts[0]) == parts[1].start
    ensures Tiled(Replaced(blocks, k, parts), total)
  {
    var r := Replaced(blocks, k, parts);
    var d := |parts| - 1;
    assert forall i :: 0 <= i < k ==> r[i] == blocks[i];
    assert forall i :: k <= i < k + |parts| ==> r[i] == parts[i - k];
    assert forall i :: k + |parts| <= i < |r| ==> r[i] == blocks[i - d];
    forall i, j | 0 <= i && j == i + 1 < |r|
      ensures End(r[i]) == r[j].start
    {
      if j < k {
        assert End(blocks[i]) == blocks[j].start;
      } else if i >= k + d {
        assert End(blocks[i - d]) == blocks[j - d].start;
      } else if j == k {
        assert End(blocks[i]) == blocks[j].start;
      }
    }
  }

  ghost predicate SplitInv(s: State, k: nat, size: nat) {
    && Inv(s) && k < |s.blocks| && s.blocks[k].free && 0 < size <= s.blocks[k].size
  }

  /** Element i of the list after block k was split. */
  lemma SplitAt(s: State, k: nat, size: nat, i: nat)
    requires SplitInv(s, k, size)
    ensures var parts := Split(s.blocks[k], size, s.nextId);
      var r := Replaced(s.blocks, k, parts);
      && |r| == |s.blocks| + |parts| - 1
      && (i < |r| ==>
            r[i] == (if i < k then s.blocks[i]
                     else if i < k + |parts| then parts[i - k]
                     else s.blocks[i + 1 - |parts|]))
  {
  }

  lemma SplitLabelled(s: State, k: nat, size: nat)
    requires SplitInv(s, k, size)
    ensures var r := Replaced(s.blocks, k, Split(s.blocks[k], size, s.nextId));
      Labelled(r, s.nextId + 1) && NoFreeNeighbours(r)
  {
    var parts := Split(s.blocks[k], size, s.nextId);
    var r := Replaced(s.blocks, k, parts);
    forall i | 0 <= i < |r|
      ensures if r[i].free then r[i].id == 0 && r[i].req == 0 else 1 <= r[i].id < s.nextId + 1 && r[i].req == r[i].size
    {
      SplitAt(s, k, size, i);
    }
    forall i, j | 0 <= i < j < |r| && !r[i].free
      ensures r[i].id != r[j].id
    {
      SplitAt(s, k, size, i);
      SplitAt(s, k, size, j);
    }
    forall i, j | 0 <= i && j == i + 1 < |r|
      ensures !(r[i].free && r[j].free)
    {
      SplitAt(s, k, size, i);
      SplitAt(s, k, size, j);
    }
  }

  lemma SplitKeepsInv(s: State, k: nat, size: nat)
    requires SplitInv(s, k, size)
    ensures Inv(s.(blocks := Replaced(s.blocks, k, Split(s.blocks[k], size, s.nextId)), nextId := s.nextId + 1))
  {
    SplitLabelled(s, k, size);
    ReplaceTiled(s.blocks, s.total, k, Split(s.blocks[k], size, s.nextId));
    hide Tiled, Labelled, NoFreeNeighbours, Replaced;
  }

  lemma AllocateInv(s: State, size: nat, algo: Strategy)
    requires Inv(s)
    ensures Inv(Allocate(s, size, algo).0)
  {
    var c := Choice(algo, s.blocks, size, |s.blocks|);
    if size > 0 && c.Some? {
      SplitKeepsInv(s, c.value, size);
    }
    hide Tiled, Labelled, NoFreeNeighbours, Replaced, Split;
  }

  lemma SplitTakes(s: State, k: nat, size: nat, x: nat)
    requires SplitInv(s, k, size)
    requires FreeAt(Replaced(s.blocks, k, Split(s.blocks[k], size, s.nextId)), x)
    ensures FreeAt(s.blocks, x) && !(s.blocks[k].start <= x < s.blocks[k].start + size)
  {
    var b, parts := s.blocks[k], Split(s.blocks[k], size, s.nextId);
    var r := Replaced(s.blocks, k, parts);
    var i :| 0 <= i < |r| && r[i].free && r[i].start <= x < End(r[i]);
    SplitAt(s, k, size, i);
    hide Replaced;
    if k <= i < k + |parts| {
      assert b.start <= x < End(b) && x >= b.start + size;
    } else {
      var j := if i < k then i else i + 1 - |parts|;
      if b.start <= x < End(b) {
        Disjoint(s.blocks, s.total, j, k, x);
      }
    }
  }

  lemma SplitLeaves(s: State, k: nat, size: nat, x: nat)
    requires SplitInv(s, k, size)
    requires FreeAt(s.blocks, x) && !(s.blocks[k].start <= x < s.blocks[k].start + size)
    ensures FreeAt(Replaced(s.blocks, k, Split(s.blocks[k], size, s.nextId)), x)
  {
    var parts := Split(s.blocks[k], size, s.nextId);
    var r := Replaced(s.blocks, k, parts);
    var j :| 0 <= j < |s.blocks| && s.blocks[j].free && s.blocks[j].start <= x < End(s.blocks[j]);
    var i := if j < k then j else j + |parts| - 1;
    SplitAt(s, k, size, i);
    hide Replaced;
    assert r[i].free && r[i].start <= x < End(r[i]);
  }

  /** A split takes from the free bytes just the allocated ones. */
  lemma SplitFree(s: State, k: nat, size: nat, x: nat)
    requires SplitInv(s, k, size)
    ensures FreeAt(Replaced(s.blocks, k, Split(s.blocks[k], size, s.nextId)), x) <==>
      FreeAt(s.blocks, x) && !(s.blocks[k].start <= x < s.blocks[k].start + size)
  {
    hide FreeAt, Replaced, Split, Inv;
    if FreeAt(Replaced(s.blocks, k, Split(s.blocks[k], size, s.nextId)), x) {
      SplitTakes(s, k, size, x);
    } else if FreeAt(s.blocks, x) && !(s.blocks[k].start <= x < s.blocks[k].start + size) {
      SplitLeaves(s, k, size, x);
    }
  }

  lemma SplitUsed(s: State, k: nat, size: nat)
    requires SplitInv(s, k, size)
    ensures Used(Replaced(s.blocks, k, Split(s.blocks[k], size, s.nextId))) ==
      Used(s.blocks) + {Block(s.blocks[k].start, size, s.nextId, size, false)}
  {
    var parts := Split(s.blocks[k], size, s.nextId);
    var r := Replaced(s.blocks, k, parts);
    forall b | b in Used(r)
      ensures b in Used(s.blocks) || b == parts[0]
    {
      var i :| 0 <= i < |r| && !r[i].free && r[i] == b;
      SplitAt(s, k, size, i);
    }
    forall b | b in Used(s.blocks)
      ensures b in Used(r)
    {
      var j :| 0 <= j < |s.blocks| && !s.blocks[j].free && s.blocks[j] == b;
      SplitAt(s, k, size, if j < k then j else j + |parts| - 1);
    }
    SplitAt(s, k, size, k);
    assert r[k] == parts[0];
  }

  /**
   An allocation fails exactly when no contiguous run of the size is free. Otherwise it gives the start of the
   gap that the strategy prefers, exactly the requested bytes of it, under a new id, and touches nothing else.
   */
  lemma AllocateCorrect(s: State, size: nat, algo: Strategy, a: nat, n: nat)
    requires Inv(s)
    ensures var (s', id) := Allocate(s, size, algo);
      && (id == -1 <==> size == 0 || !exists f: nat :: FreeRun(s.blocks, f, size))
      && (id == -1 ==> s'.blocks == s.blocks && s'.nextId == s.nextId)
      && (id != -1 ==> id == s.nextId == s'.nextId - 1)
    ensures var (s', id) := Allocate(s, size, algo);
      id != -1 ==>
        var c := Choice(algo, s.blocks, size, |s.blocks|);
        && c.Some? && var b := s.blocks[c.value];
        && Gap(s.blocks, b.start, b.size) && size <= b.size
        && (Gap(s.blocks, a, n) && size <= n ==> Preferred(algo, b.start, b.size, a, n))
        && Used(s'.blocks) == Used(s.blocks) + {Block(b.start, size, id, size, false)}
        && (FreeAt(s'.blocks, a) <==> FreeAt(s.blocks, a) && !(b.start <= a < b.start + size))
  {
    var c := Choice(algo, s.blocks, size, |s.blocks|);
    if size > 0 {
      FitsIffFreeRun(s, size);
      if c.Some? {
        var k := c.value;
        BlockIsGap(s, k);
        SplitUsed(s, k, size);
        SplitFree(s, k, size, a);
        if Gap(s.blocks, a, n) && size <= n {
          var i := GapIsBlock(s, a, n);
          ChoicePreferred(algo, s, size, |s.blocks|, i);
        }
      }
    }
  }

  // ---------- deallocation ----------

  /** Free neighbours, if any, include block k. */
  ghost predicate FreeNeighboursOnlyAt(blocks: seq<Block>, k: int) {
    forall i, j :: 0 <= i && j == i + 1 < |blocks| && blocks[i].free && blocks[j].free ==> i == k || j == k
  }

  function FreeBlock(b: Block): Block {
    Block(b.start, b.size, 0, 0, true)
  }

  lemma FreedOk(blocks: seq<Block>, total: nat, nextId: int, k: nat)
    requires Tiled(blocks, total) && Labelled(blocks, nextId) && NoFreeNeighbours(blocks)
    requires k < |blocks| && !blocks[k].free
    ensures var f := blocks[k := FreeBlock(blocks[k])];
      && Tiled(f, total) && Labelled(f, nextId) && FreeNeighboursOnlyAt(f, k)
      && Used(f) == Used(blocks) - {blocks[k]}
  {
    var f := blocks[k := FreeBlock(blocks[k])];
    forall b | b in Used(blocks) && b != blocks[k]
      ensures b in Used(f)
    {
      var i :| 0 <= i < |blocks| && !blocks[i].free && blocks[i] == b;
      assert f[i] == b;
    }
    forall b | b in Used(f)
      ensures b in Used(blocks) && b != blocks[k]
    {
      var i :| 0 <= i < |f| && !f[i].free && f[i] == b;
      assert blocks[i] == b;
    }
  }

  lemma FreedBytes(blocks: seq<Block>, k: nat, x: nat)
    requires k < |blocks|
    ensures FreeAt(blocks[k := FreeBlock(blocks[k])], x) <==> FreeAt(blocks, x) || blocks[k].start <= x < End(blocks[k])
  {
    var f := blocks[k := FreeBlock(blocks[k])];
    if i :| 0 <= i < |blocks| && blocks[i].free && blocks[i].start <= x < End(blocks[i]) {
      assert f[i].free && f[i].start <= x < End(f[i]);
    }
    if blocks[k].start <= x < End(blocks[k]) {
      assert f[k].free && f[k].start <= x < End(f[k]);
    }
  }

  /** Element i of the list after block k has swallowed its right neighbour. */
  lemma JoinAt(blocks: seq<Block>, k: nat, i: nat)
    requires k + 1 < |blocks| && blocks[k + 1].free
    ensures var r := Join(blocks, k);
      && |r| == |blocks| - 1
      && (i < |r| ==>
            r[i] == (if i < k then blocks[i]
                     else if i == k then blocks[k].(size := blocks[k].size + blocks[k + 1].size)
                     else blocks[i + 1]))
  {
  }

  /** r is the list with block k + 1 merged into block k. */
  ghost predicate Joined(blocks: seq<Block>, r: seq<Block>, k: nat) {
    && k + 1 < |blocks| && |r| == |blocks| - 1
    && (forall i :: 0 <= i < k ==> r[i] == blocks[i])
    && r[k] == blocks[k].(size := blocks[k].size + blocks[k + 1].size)
    && (forall i :: k < i < |r| ==> r[i] == blocks[i + 1])
  }

  lemma JoinIs(blocks: seq<Block>, k: nat)
    requires k + 1 < |blocks| && blocks[k + 1].free
    ensures Joined(blocks, Join(blocks, k), k)
  {
    JoinAt(blocks, k, k);
    hide Join;
    var r := Join(blocks, k);
    forall i | 0 <= i < k
      ensures r[i] == blocks[i]
    {
      JoinAt(blocks, k, i);
    }
    forall i | k < i < |r|
      ensures r[i] == blocks[i + 1]
    {
      JoinAt(blocks, k, i);
    }
  }

  lemma JoinedTiled(blocks: seq<Block>, r: seq<Block>, total: nat, k: nat)
    requires Tiled(blocks, total) && Joined(blocks, r, k)
    ensures Tiled(r, total)
  {
    assert End(blocks[k]) == blocks[k + 1].start;
    forall i, j | 0 <= i && j == i + 1 < |r|
      ensures End(r[i]) == r[j].start
    {
      var i', j' := if i < k then i else i + 1, if j <= k then j else j + 1;
      assert End(blocks[i']) == End(r[i]) && blocks[j'].start == r[j].start && j' == i' + 1;
    }
  }

  lemma JoinedLabelled(blocks: seq<Block>, r: seq<Block>, nextId: int, k: nat)
    requires Labelled(blocks, nextId) && Joined(blocks, r, k) && blocks[k].free
    ensures Labelled(r, nextId)
  {
  }

  lemma JoinTiled(blocks: seq<Block>, total: nat, nextId: int, k: nat)
    requires Tiled(blocks, total) && Labelled(blocks, nextId) && k < |blocks| && blocks[k].free
    ensures Tiled(Join(blocks, k), total) && Labelled(Join(blocks, k), nextId)
  {
    if k + 1 < |blocks| && blocks[k + 1].free {
      JoinIs(blocks, k);
      hide Tiled, Labelled, Joined, Join;
      JoinedTiled(blocks, Join(blocks, k), total, k);
      JoinedLabelled(blocks, Join(blocks, k), nextId, k);
    }
  }

  lemma JoinClears(blocks: seq<Block>, k: nat)
    requires k < |blocks| && blocks[k].free && FreeNeighboursOnlyAt(blocks, k)
    ensures var r := Join(blocks, k);
      forall i, j :: 0 <= i && j == i + 1 < |r| && r[i].free && r[j].free ==> j == k
    ensures Join(blocks, k)[k].free && (k > 0 ==> Join(blocks, k)[k - 1] == blocks[k - 1])
  {
    var r := Join(blocks, k);
    if k + 1 < |blocks| && blocks[k + 1].free {
      forall i: nat | i < |r|
        ensures r[i].free == (if i <= k then blocks[i].free else blocks[i + 1].free)
      {
        JoinAt(blocks, k, i);
      }
      forall i, j | 0 <= i && j == i + 1 < |r|
        ensures r[i].free && r[j].free ==> j == k
      {
        var i', j' := if i < k then i else i + 1, if j <= k then j else j + 1;
        assert r[i].free == blocks[i'].free && r[j].free == blocks[j'].free && j' == i' + 1;
      }
    }
  }

  lemma JoinUsed(blocks: seq<Block>, k: nat)
    requires k < |blocks| && blocks[k].free
    ensures Used(Join(blocks, k)) == Used(blocks)
  {
    var r := Join(blocks, k);
    if k + 1 < |blocks| && blocks[k + 1].free {
      forall b | b in Used(blocks)
        ensures b in Used(r)
      {
        var i :| 0 <= i < |blocks| && !blocks[i].free && blocks[i] == b;
        JoinAt(blocks, k, if i < k then i else i - 1);
      }
      forall b | b in Used(r)
        ensures b in Used(blocks)
      {
        var i :| 0 <= i < |r| && !r[i].free && r[i] == b;
        JoinAt(blocks, k, i);
      }
    }
  }

  lemma JoinBytes(blocks: seq<Block>, total: nat, k: nat, x: nat)
    requires Tiled(blocks, total) && k < |blocks| && blocks[k].free
    ensures FreeAt(Join(blocks, k), x) <==> FreeAt(blocks, x)
  {
    if k + 1 < |blocks| && blocks[k + 1].free {
      assert End(blocks[k]) == blocks[k + 1].start;
      JoinAt(blocks, k, k);
      hide Tiled, Join, FreeAt;
      if FreeAt(blocks, x) {
        FreeIntoJoin(blocks, k, x);
      }
      if FreeAt(Join(blocks, k), x) {
        FreeFromJoin(blocks, k, x);
      }
    }
  }

  lemma FreeIntoJoin(blocks: seq<Block>, k: nat, x: nat)
    requires k + 1 < |blocks| && blocks[k].free && blocks[k + 1].free && End(blocks[k]) == blocks[k + 1].start
    requires FreeAt(blocks, x)
    ensures FreeAt(Join(blocks, k), x)
  {
    hide Join;
    var r := Join(blocks, k);
    var i :| 0 <= i < |blocks| && blocks[i].free && blocks[i].start <= x < End(blocks[i]);
    var j := if i <= k then i else i - 1;
    JoinAt(blocks, k, j);
    assert r[j].free && r[j].start <= x < End(r[j]);
  }

  lemma FreeFromJoin(blocks: seq<Block>, k: nat, x: nat)
    requires k + 1 < |blocks| && blocks[k].free && blocks[k + 1].free && End(blocks[k]) == blocks[k + 1].start
    requires FreeAt(Join(blocks, k), x)
    ensures FreeAt(blocks, x)
  {
    hide Join;
    var r := Join(blocks, k);
    var i :| 0 <= i < |r| && r[i].free && r[i].start <= x < End(r[i]);
    JoinAt(blocks, k, i);
    var j := if i < k || (i == k && x < End(blocks[k])) then i else i + 1;
    assert blocks[j].free && blocks[j].start <= x < End(blocks[j]);
  }

  lemma ReleasedList(s: State, k: nat)
    requires Inv(s) && k < |s.blocks| && !s.blocks[k].free
    ensures var r := Released(s.blocks, k);
      && r != [] && Tiled(r, s.total) && Labelled(r, s.nextId) && NoFreeNeighbours(r)
      && Used(r) == Used(s.blocks) - {s.blocks[k]}
  {
    var freed := s.blocks[k := FreeBlock(s.blocks[k])];
    var joined := Join(freed, k);
    FreedOk(s.blocks, s.total, s.nextId, k);
    JoinTiled(freed, s.total, s.nextId, k);
    JoinClears(freed, k);
    JoinUsed(freed, k);
    hide Tiled, Labelled, Used, FreeAt, Join, Inv;
    JoinLength(freed, k);
    if k > 0 && joined[k - 1].free {
      JoinTiled(joined, s.total, s.nextId, k - 1);
      JoinUsed(joined, k - 1);
      JoinClearsLast(joined, k);
      JoinLength(joined, k - 1);
    }
  }

  lemma ReleasedBytes(s: State, k: nat, x: nat)
    requires Inv(s) && k < |s.blocks| && !s.blocks[k].free
    ensures FreeAt(Released(s.blocks, k), x) <==> FreeAt(s.blocks, x) || s.blocks[k].start <= x < End(s.blocks[k])
  {
    var freed := s.blocks[k := FreeBlock(s.blocks[k])];
    var joined := Join(freed, k);
    FreedOk(s.blocks, s.total, s.nextId, k);
    FreedBytes(s.blocks, k, x);
    hide Tiled, Labelled, Used, FreeAt, Join, Inv, FreeNeighboursOnlyAt;
    JoinTiled(freed, s.total, s.nextId, k);
    JoinBytes(freed, s.total, k, x);
    JoinLength(freed, k);
    if k > 0 && joined[k - 1].free {
      JoinBytes(joined, s.total, k - 1, x);
    }
  }

  /** A released block: its bytes are free, the other used blocks are untouched, and no free blocks touch. */
  lemma ReleasedCorrect(s: State, k: nat, x: nat)
    requires Inv(s) && k < |s.blocks| && !s.blocks[k].free
    ensures var r := Released(s.blocks, k);
      && Inv(s.(blocks := r)) && r != []
      && Used(r) == Used(s.blocks) - {s.blocks[k]}
      && (FreeAt(r, x) <==> FreeAt(s.blocks, x) || s.blocks[k].start <= x < End(s.blocks[k]))
  {
    ReleasedList(s, k);
    ReleasedBytes(s, k, x);
    hide Tiled, Labelled, NoFreeNeighbours, Used, FreeAt, Released;
  }

  lemma JoinLength(blocks: seq<Block>, k: nat)
    requires k < |blocks|
    ensures k < |Join(blocks, k)|
  {
  }

  lemma JoinClearsLast(blocks: seq<Block>, k: nat)
    requires 0 < k < |blocks| && blocks[k].free && blocks[k - 1].free
    requires forall i, j :: 0 <= i && j == i + 1 < |blocks| && blocks[i].free && blocks[j].free ==> j == k
    ensures NoFreeNeighbours(Join(blocks, k - 1))
  {
    var r := Join(blocks, k - 1);
    JoinIs(blocks, k - 1);
    hide Join;
    forall i, j | 0 <= i && j == i + 1 < |r|
      ensures !(r[i].free && r[j].free)
    {
      var i', j' := if i < k - 1 then i else i + 1, if j <= k - 1 then j else j + 1;
      assert r[i].free == blocks[i'].free && r[j].free == blocks[j'].free && j' == i' + 1;
    }
  }

  lemma FindUsed(s: State, id: int, k: nat)
    requires Inv(s) && k < |s.blocks| && !s.blocks[k].free && s.blocks[k].id == id
    ensures Find(s.blocks, id) == k
  {
    var f := Find(s.blocks, id);
    assert f <= k;
  }

  /** A deallocation frees exactly the block of the id; an unknown id changes nothing. */
  lemma DeallocateCorrect(s: State, id: int, x: nat)
    requires Inv(s)
    ensures var s' := Deallocate(s, id);
      && Inv(s') && (s'.blocks == [] <==> s.blocks == [])
      && (if k: nat :| k < |s.blocks| && !s.blocks[k].free && s.blocks[k].id == id
          then && Used(s'.blocks) == Used(s.blocks) - {s.blocks[k]}
               && (FreeAt(s'.blocks, x) <==> FreeAt(s.blocks, x) || s.blocks[k].start <= x < End(s.blocks[k]))
          else s' == s)
  {
    var k := Find(s.blocks, id);
    if k < |s.blocks| {
      ReleasedCorrect(s, k, x);
    }
    hide Inv, Released, Used;
  }

  // ---------- the free blocks are determined by the used ones ----------

  ghost predicate SameUsed(s: State, t: State) {
    Inv(s) && Inv(t) && s.total == t.total && s.blocks != [] && t.blocks != [] && Used(s.blocks) == Used(t.blocks)
  }

  /** A used block of one list is in the other list too, and whatever starts there is it. */
  lemma UsedMatches(s: State, t: State, i: nat, j: nat)
    requires SameUsed(s, t) && i < |s.blocks| && j < |t.blocks|
    requires !s.blocks[i].free && t.blocks[j].start <= s.blocks[i].start < End(t.blocks[j])
    ensures s.blocks[i] == t.blocks[j]
  {
    assert s.blocks[i] in Used(t.blocks);
    var m :| 0 <= m < |t.blocks| && t.blocks[m] == s.blocks[i];
    Disjoint(t.blocks, t.total, m, j, s.blocks[i].start);
  }

  /** Free blocks that start together do not end apart. */
  lemma FreeEndsNoLater(s: State, t: State, i: nat)
    requires SameUsed(s, t) && i < |s.blocks| && i < |t.blocks| && s.blocks[i].start == t.blocks[i].start
    requires s.blocks[i].free && t.blocks[i].free
    ensures End(t.blocks[i]) <= End(s.blocks[i])
  {
    if End(s.blocks[i]) < End(t.blocks[i]) {
      EndsInPool(t.blocks, t.total, i);
      if i + 1 < |s.blocks| {
        UsedMatches(s, t, i + 1, i);
      }
    }
  }

  lemma {:induction false} SameUpTo(s: State, t: State, i: nat)
    requires SameUsed(s, t) && i < |s.blocks|
    ensures i < |t.blocks| && s.blocks[i] == t.blocks[i]
  {
    if i > 0 {
      SameUpTo(s, t, i - 1);
      assert End(s.blocks[i - 1]) == s.blocks[i].start;
      EndsInPool(s.blocks, s.total, i);
      assert i < |t.blocks|;
      assert End(t.blocks[i - 1]) == t.blocks[i].start;
    }
    if !s.blocks[i].free {
      UsedMatches(s, t, i, i);
    } else if !t.blocks[i].free {
      UsedMatches(t, s, i, i);
    } else {
      FreeEndsNoLater(s, t, i);
      FreeEndsNoLater(t, s, i);
    }
  }

  /** The block list depends on the used blocks alone, not on the history that led to them. */
  lemma Canonical(s: State, t: State)
    requires SameUsed(s, t)
    ensures s.blocks == t.blocks
  {
    forall i: nat | i < |s.blocks|
      ensures i < |t.blocks| && s.blocks[i] == t.blocks[i]
    {
      SameUpTo(s, t, i);
    }
    if |s.blocks| < |t.blocks| {
      SameUpTo(t, s, |s.blocks|);
    }
  }

  /** A successful allocation adds one used block under the new id. */
  lemma NewBlock(s: State, size: nat, algo: Strategy) returns (b: Block)
    requires Inv(s) && Allocate(s, size, algo).1 != -1
    ensures var (s', id) := Allocate(s, size, algo);
      && Inv(s') && s.blocks != [] && s'.blocks != [] && s'.total == s.total
      && id == b.id == s.nextId && Used(s'.blocks) == Used(s.blocks) + {b}
  {
    AllocateInv(s, size, algo);
    AllocateCorrect(s, size, algo, 0, 0);
    var k := Choice(algo, s.blocks, size, |s.blocks|).value;
    b := Block(s.blocks[k].start, size, s.nextId, size, false);
    hide Inv, Used, Choice, FreeRun, Gap, FreeAt, Preferred;
  }

  /** Freeing a used block by its id takes it, and only it, from the used blocks. */
  lemma FreeUsed(s: State, b: Block)
    requires Inv(s) && b in Used(s.blocks)
    ensures var t := Deallocate(s, b.id);
      Inv(t) && t.total == s.total && s.blocks != [] && t.blocks != [] && Used(t.blocks) == Used(s.blocks) - {b}
  {
    var m: nat :| m < |s.blocks| && !s.blocks[m].free && s.blocks[m] == b;
    FindUsed(s, b.id, m);
    DeallocateCorrect(s, b.id, 0);
    hide Inv, Used, FreeAt, Released;
  }

  /** Freeing what was just allocated leaves the used blocks there were before. */
  lemma FreeingNew(s: State, size: nat, algo: Strategy)
    requires Inv(s) && Allocate(s, size, algo).1 != -1
    ensures var (s', id) := Allocate(s, size, algo); SameUsed(s, Deallocate(s', id))
  {
    var b := NewBlock(s, size, algo);
    NewIdUnused(s, b);
    hide Inv, Used, Allocate, Deallocate;
    FreeUsed(Allocate(s, size, algo).0, b);
  }

  /** Freeing what was just allocated restores the whole list. */
  lemma RoundTrip(s: State, size: nat, algo: Strategy)
    requires Inv(s)
    ensures var (s', id) := Allocate(s, size, algo);
      id != -1 ==> Deallocate(s', id).blocks == s.blocks
  {
    hide Allocate, Deallocate, Inv, Used;
    var (s', id) := Allocate(s, size, algo);
    if id != -1 {
      FreeingNew(s, size, algo);
      Canonical(s, Deallocate(s', id));
    }
  }

  lemma NewIdUnused(s: State, b: Block)
    requires Inv(s) && b.id == s.nextId
    ensures b !in Used(s.blocks)
  {
  }

  /** When nothing is used any more, one free block fills the pool. */
  lemma AllFree(s: State)
    requires Inv(s) && s.blocks != [] && Used(s.blocks) == {}
    ensures s.blocks == [Block(0, s.total, 0, 0, true)]
  {
    UsedOrFree(s.blocks);
    FirstTwo(s.blocks);
  }

  lemma UsedOrFree(blocks: seq<Block>)
    ensures forall i :: 0 <= i < |blocks| ==> blocks[i].free || blocks[i] in Used(blocks)
  {
  }

  lemma FirstTwo(blocks: seq<Block>)
    requires NoFreeNeighbours(blocks)
    ensures |blocks| > 1 ==> !(blocks[0].free && blocks[1].free)
  {
    var i, j := 0, 1;
    assert j < |blocks| ==> !(blocks[i].free && blocks[j].free);
  }

  // ---------- runs ----------

  datatype Op = Alloc(size: nat, algo: Strategy) | Dealloc(id: int)

  function Apply(s: State, op: Op): State {
    match op
    case Alloc(size, algo) => Allocate(s, size, algo).0
    case Dealloc(id) => Deallocate(s, id)
  }

  function Run(size: nat, ops: seq<Op>): State {
    if ops == [] then Init(Initial(), size) else Apply(Run(size, ops[..|ops| - 1]), ops[|ops| - 1])
  }

  lemma {:induction false} RunInv(size: nat, ops: seq<Op>)
    ensures Inv(Run(size, ops))
    ensures size > 0 ==> Run(size, ops).total == size && Run(size, ops).blocks != []
  {
    if ops != [] {
      var s := Run(size, ops[..|ops| - 1]);
      RunInv(size, ops[..|ops| - 1]);
      match ops[|ops| - 1] {
        case Alloc(n, algo) => AllocateInv(s, n, algo);
        case Dealloc(id) => DeallocateCorrect(s, id, 0);
      }
    }
  }

  /** Two histories that leave the same blocks in use leave the same list of blocks. */
  lemma HistoryIndependence(size: nat, ops: seq<Op>, ops': seq<Op>)
    requires size > 0 && Used(Run(size, ops).blocks) == Used(Run(size, ops').blocks)
    ensures Run(size, ops).blocks == Run(size, ops').blocks
  {
    RunInv(size, ops);
    RunInv(size, ops');
    Canonical(Run(size, ops), Run(size, ops'));
  }
}
