/** The linear allocator as a doubly linked list of blocks on the heap, refining the list on values. */
module LinearAllocation {
  import opened Common
  import opened LinearModel

  class MemBlock {
    var id: int
    var start: nat
    var size: nat
    var req: nat
    var free: bool
    var next: MemBlock?
    var prev: MemBlock?
    ghost const owner: MemoryAllocator

    constructor (addr: nat, bytes: nat, ghost allocator: MemoryAllocator)
      ensures Data() == Block(addr, bytes, 0, 0, true) && next == null && prev == null && owner == allocator
    {
      owner := allocator;
      id, start, size, req, free, next, prev := 0, addr, bytes, 0, true, null, null;
    }

    ghost function Data(): Block
      reads this
    {
      Block(start, size, id, req, free)
    }
  }

  class MemoryAllocator {
    var totalSize: nat
    var head: MemBlock?
    var nextId: int
    var idMap: map<int, MemBlock>
    var attempts: nat
    var successes: nat
    ghost var nodes: seq<MemBlock>   // the list from head on
    ghost var blocks: seq<Block>     // what the nodes say

    ghost predicate NodeAt(i: nat)
      requires i < |nodes| == |blocks|
      reads `nodes, `blocks, nodes
    {
      && nodes[i].owner == this && nodes[i].Data() == blocks[i]
      && nodes[i].next == (if i + 1 < |nodes| then nodes[i + 1] else null)
      && nodes[i].prev == (if i > 0 then nodes[i - 1] else null)
    }

    /** The nodes are distinct and linked both ways in order, from the head to null. */
    ghost predicate Linked()
      reads `head, `nodes, `blocks, nodes
    {
      && |nodes| == |blocks| && head == (if nodes == [] then null else nodes[0])
      && (forall i, j :: 0 <= i < j < |nodes| ==> nodes[i] != nodes[j])
      && (forall i: nat :: i < |nodes| ==> NodeAt(i))
    }

    ghost predicate Indexed()
      reads `idMap, `nodes, `blocks
    {
      IndexedBy(idMap, nodes, blocks)
    }

    ghost function View(): State
      reads this
    {
      State(totalSize, blocks, nextId, attempts, successes)
    }

    ghost predicate Valid()
      reads this, nodes
    {
      Linked() && Indexed() && Inv(View())
    }

    constructor ()
      ensures Valid() && View() == Initial()
    {
      totalSize, head, nextId, idMap, attempts, successes := 0, null, 1, map[], 0, 0;
      nodes, blocks := [], [];
    }

    method Init(size: nat)
      requires Valid()
      modifies this
      ensures Valid() && View() == LinearModel.Init(old(View()), size)
    {
      head := null;
      idMap := map[];
      nodes, blocks := [], [];
      if size == 0 {
        return;
      }
      totalSize, nextId, attempts, successes := size, 1, 0, 0;
      FirstBlock(size);
    }

    /** The whole memory as one free block. */
    method FirstBlock(size: nat)
      modifies `head, `nodes, `blocks
      ensures Linked() && blocks == [Block(0, size, 0, 0, true)]
    {
      head := new MemBlock(0, size, this);
      nodes, blocks := [head], [head.Data()];
    }

    method GetAddress(id: int) returns (address: nat)
      requires Valid()
      ensures address == var k := Find(blocks, id); if k < |blocks| then blocks[k].start else 0
    {
      if id in idMap {
        ghost var k := UsedBlock(idMap, nodes, blocks, id);
        FindUsed(View(), id, k);
        assert NodeAt(k);
        return idMap[id].start;
      }
      return 0;
    }

    /** The walk down the list for a block to allocate from. */
    method FindBlock(size: nat, algo: Strategy) returns (best: MemBlock?)
      requires Linked()
      ensures best == match Choice(algo, blocks, size, |blocks|) case None => null case Some(k) => nodes[k]
    {
      best := null;
      var curr := head;
      ghost var i := 0;
      while curr != null
        invariant i <= |nodes| && curr == (if i < |nodes| then nodes[i] else null)
        invariant best == match Choice(algo, blocks, size, i) case None => null case Some(k) => nodes[k]
        invariant algo == FirstFit ==> best == null
        decreases |nodes| - i
      {
        assert NodeAt(i);
        ghost var c := Choice(algo, blocks, size, i);
        assert c.Some? ==> NodeAt(c.value);
        if curr.free && curr.size >= size {
          if algo == FirstFit {
            best := curr;
            ChoiceStays(blocks, size, i + 1, |blocks|);
            return;
          }
          if algo == BestFit {
            if best == null || curr.size < best.size {
              best := curr;
            }
          } else if algo == WorstFit {
            if best == null || curr.size > best.size {
              best := curr;
            }
          }
        }
        curr := curr.next;
        i := i + 1;
      }
    }

    /** Cuts the rest of a block off into a new free block behind it. */
    method CutOff(best: MemBlock, size: nat, ghost k: nat)
      requires Linked() && k < |nodes| && nodes[k] == best && 0 < size < blocks[k].size
      modifies `nodes, `blocks, set n: MemBlock | n.owner == this
      ensures Linked()
      ensures var b := old(blocks)[k];
        blocks == Replaced(old(blocks), k, [b.(size := size), Block(b.start + size, b.size - size, 0, 0, true)])
      ensures |nodes| == |old(nodes)| + 1 && nodes == old(nodes)[..k + 1] + [nodes[k + 1]] + old(nodes)[k + 1..]
    {
      assert NodeAt(k);
      assert k + 1 < |nodes| ==> NodeAt(k + 1);
      var newFree := new MemBlock(best.start + size, best.size - size, this);
      newFree.next := best.next;
      newFree.prev := best;
      if best.next != null {
        best.next.prev := newFree;
      }
      best.next := newFree;
      best.size := size;
      blocks := Replaced(blocks, k, [blocks[k].(size := size), newFree.Data()]);
      nodes := nodes[..k + 1] + [newFree] + nodes[k + 1..];
      hide Replaced;
      CutLinked(k, newFree);
    }

    /** The list is well linked again after a new node was put behind node k. */
    twostate lemma CutLinked(k: nat, new n: MemBlock)
      requires old(Linked()) && k < old(|nodes|) && n.owner == this && n !in old(nodes)
      requires nodes == old(nodes)[..k + 1] + [n] + old(nodes)[k + 1..] && head == old(head)
      requires blocks == Replaced(old(blocks), k, [nodes[k].Data(), n.Data()])
      requires nodes[k].next == n && n.prev == nodes[k] && nodes[k].prev == old(nodes[k].prev)
      requires n.next == old(nodes[k].next)
      requires forall i :: 0 <= i < old(|nodes|) && i != k && i != k + 1 ==> unchanged(old(nodes)[i])
      requires k + 1 < old(|nodes|) ==>
        var m := old(nodes)[k + 1]; m.prev == n && m.next == old(m.next) && m.Data() == old(m.Data())
      ensures Linked()
    {
      ReplacedAt(old(blocks), k, [nodes[k].Data(), n.Data()]);
      assert old(NodeAt(k)) && nodes[k + 1] == n && nodes[k] == old(nodes)[k];
      assert k + 1 < old(|nodes|) ==> nodes[k + 2] == old(nodes)[k + 1];
      forall i: nat | i < |nodes|
        ensures NodeAt(i)
      {
        var j := if i <= k then i else i - 1;
        assert i != k + 1 ==> nodes[i] == old(nodes)[j] && old(NodeAt(j));
      }
    }

    /** Takes the block for the request: marks it used under a new id. */
    method Claim(best: MemBlock, size: nat, ghost k: nat)
      requires Linked() && k < |nodes| && nodes[k] == best && blocks[k].size == size
      modifies `blocks, `nextId, `idMap, `successes, best
      ensures Linked() && nextId == old(nextId) + 1 && idMap == old(idMap)[old(nextId) := best]
      ensures best.id == old(nextId) && successes == old(successes) + 1
      ensures blocks == old(blocks)[k := Block(old(blocks)[k].start, size, old(nextId), size, false)]
    {
      assert NodeAt(k);
      best.free := false;
      best.id := nextId;
      nextId := nextId + 1;
      best.req := size;
      idMap := idMap[best.id := best];
      successes := successes + 1;
      blocks := blocks[k := best.Data()];
      forall i: nat | i < |nodes|
        ensures NodeAt(i)
      {
        assert old(NodeAt(i));
      }
    }

    /** Takes `size` bytes of block k, and puts the rest behind it as a free block. */
    method Take(best: MemBlock, size: nat, ghost k: nat)
      requires Linked() && k < |nodes| && nodes[k] == best && 0 < size <= blocks[k].size
      modifies `nodes, `blocks, `nextId, `idMap, `successes, set n: MemBlock | n.owner == this
      ensures Linked() && idMap == old(idMap)[old(nextId) := best] && best.id == old(nextId)
      ensures Taken(old(View()), k, size, View())
      ensures SplitNodes(old(nodes), nodes, k, |blocks| - |old(blocks)|)
    {
      assert NodeAt(k);
      hide Replaced;
      if best.size > size {
        CutOff(best, size, k);
        hide Linked, NodeAt;
        Claim(best, size, k);
      } else {
        Claim(best, size, k);
        assert SplitNodes(old(nodes), nodes, k, 0);
      }
    }

    method CountAttempt()
      requires Valid()
      modifies `attempts
      ensures Valid() && View() == old(View()).(attempts := old(View()).attempts + 1)
    {
      attempts := attempts + 1;
      assert Inv(View());
    }

    /** Allocates by the strategy; -1 if no block is large enough. */
    method Allocate(size: nat, algo: Strategy) returns (id: int)
      requires Valid()
      modifies this, set n: MemBlock | n.owner == this
      ensures Valid() && (View(), id) == LinearModel.Allocate(old(View()), size, algo)
    {
      hide Linked, IndexedBy, Inv, LinearModel.Allocate, Choice;
      ValidParts();
      if size == 0 {
        AllocateNothing(View(), algo);
        return -1;
      }
      AllocateIs(View(), size, algo);
      CountAttempt();
      ValidParts();
      ghost var s := View();
      var best := FindBlock(size, algo);
      ghost var k := ChosenIndex(algo, View(), nodes, size, best);
      if best == null {
        return -1;
      }
      AllocateFit(best, size, k);
      id := best.id;
    }

    lemma ValidParts()
      requires Valid()
      ensures Linked() && IndexedBy(idMap, nodes, blocks) && Inv(View())
      ensures View() == State(totalSize, blocks, nextId, attempts, successes)
    {
    }

    /** Takes the bytes and enters the block in the id map. */
    method AllocateFit(best: MemBlock, size: nat, ghost k: nat)
      requires Valid() && k < |nodes| && nodes[k] == best && SplitInv(View(), k, size)
      modifies this, set n: MemBlock | n.owner == this
      ensures Valid() && best.id == old(nextId) && Taken(old(View()), k, size, View())
    {
      ghost var s, m := View(), idMap;
      SplitFits(s, k, size);
      hide Linked, IndexedBy, Inv, SplitInv, Split, Replaced;
      ValidParts();
      Take(best, size, k);
      TakenParts(s, k, size, View());
      IndexAfterSplit(s, k, size, m, old(nodes), nodes);
    }

    lemma OwnerOf(k: nat)
      requires Linked() && k < |nodes|
      ensures nodes[k].owner == this
    {
      assert NodeAt(k);
    }

    /** A list that skips node k + 1, with its bytes added to node k, is well linked. */
    twostate lemma SkipLinked(k: nat)
      requires old(Linked()) && k + 1 < old(|nodes|) && old(blocks)[k + 1].free && head == old(head)
      requires nodes == old(nodes)[..k + 1] + old(nodes)[k + 2..] && blocks == Join(old(blocks), k)
      requires var b := old(nodes[k].Data());
        nodes[k].Data() == b.(size := b.size + old(nodes[k + 1].Data()).size)
      requires nodes[k].next == old(nodes[k + 1].next) && nodes[k].prev == old(nodes[k].prev)
      requires forall i :: 0 <= i < old(|nodes|) && i != k && i != k + 1 && i != k + 2 ==> unchanged(old(nodes)[i])
      requires k + 2 < old(|nodes|) ==>
        var m := old(nodes)[k + 2]; m.prev == nodes[k] && m.next == old(m.next) && m.Data() == old(m.Data())
      ensures Linked()
    {
      hide Join;
      JoinAt(old(blocks), k, k);
      assert old(NodeAt(k)) && old(NodeAt(k + 1)) && nodes[k] == old(nodes)[k];
      assert k + 2 < old(|nodes|) ==> nodes[k + 1] == old(nodes)[k + 2];
      forall i: nat | i < |nodes|
        ensures NodeAt(i)
      {
        var j := if i <= k then i else i + 1;
        JoinAt(old(blocks), k, i);
        assert nodes[i] == old(nodes)[j] && old(NodeAt(j));
      }
    }

    /** Merges a block with the free block behind it. */
    method Absorb(curr: MemBlock, next: MemBlock, ghost k: nat)
      requires Linked() && k + 1 < |nodes| && nodes[k] == curr && nodes[k + 1] == next && blocks[k + 1].free
      modifies `nodes, `blocks, set n: MemBlock | n.owner == this
      ensures Linked() && blocks == Join(old(blocks), k) && nodes == old(nodes)[..k + 1] + old(nodes)[k + 2..]
    {
      assert NodeAt(k) && NodeAt(k + 1);
      assert k + 2 < |nodes| ==> NodeAt(k + 2);
      curr.size := curr.size + next.size;
      curr.next := next.next;
      if next.next != null {
        next.next.prev := curr;
      }
      blocks := Join(blocks, k);
      nodes := nodes[..k + 1] + nodes[k + 2..];
      hide Join;
      SkipLinked(k);
    }

    /** Marks a block free and forgets its id. */
    method Release(curr: MemBlock, id: int, ghost k: nat)
      requires Linked() && k < |nodes| && nodes[k] == curr
      modifies `blocks, `idMap, curr
      ensures Linked() && idMap == old(idMap) - {id}
      ensures blocks == old(blocks)[k := FreeBlock(old(blocks)[k])]
    {
      assert NodeAt(k);
      curr.free := true;
      curr.id := 0;
      curr.req := 0;
      idMap := idMap - {id};
      blocks := blocks[k := curr.Data()];
      forall i: nat | i < |nodes|
        ensures NodeAt(i)
      {
        assert old(NodeAt(i));
      }
    }

    /** Merges a free block with the one behind it if that is free. */
    method JoinNext(curr: MemBlock, ghost k: nat)
      requires Linked() && IndexedBy(idMap, nodes, blocks) && k < |nodes| && nodes[k] == curr && blocks[k].free
      modifies `nodes, `blocks, set n: MemBlock | n.owner == this
      ensures Linked() && IndexedBy(idMap, nodes, blocks) && blocks == Join(old(blocks), k)
      ensures k < |nodes| && nodes[..k + 1] == old(nodes)[..k + 1]
    {
      assert NodeAt(k);
      assert k + 1 < |nodes| ==> NodeAt(k + 1);
      if curr.next != null && curr.next.free {
        IndexAfterJoin(idMap, nodes, blocks, k);
        Absorb(curr, curr.next, k);
      }
    }

    /** Merges a free block into the one before it if that is free. */
    method JoinPrev(curr: MemBlock, ghost k: nat)
      requires Linked() && IndexedBy(idMap, nodes, blocks) && k < |nodes| && nodes[k] == curr && blocks[k].free
      modifies `nodes, `blocks, set n: MemBlock | n.owner == this
      ensures Linked() && IndexedBy(idMap, nodes, blocks)
      ensures blocks == if k > 0 && old(blocks)[k - 1].free then Join(old(blocks), k - 1) else old(blocks)
    {
      assert NodeAt(k);
      assert k > 0 ==> NodeAt(k - 1);
      if curr.prev != null && curr.prev.free {
        IndexAfterJoin(idMap, nodes, blocks, k - 1);
        Absorb(curr.prev, curr, k - 1);
      }
    }

    /** Frees a block and merges it with free neighbours. */
    method Free(curr: MemBlock, id: int, ghost k: nat)
      requires Valid() && k < |nodes| && nodes[k] == curr && !blocks[k].free && blocks[k].id == id
      modifies `nodes, `blocks, `idMap, set n: MemBlock | n.owner == this
      ensures Linked() && IndexedBy(idMap, nodes, blocks)
      ensures blocks == Released(old(blocks), k)
    {
      hide *;
      ValidParts();
      OwnerOf(k);
      IndexAfterFree(idMap, nodes, View(), k);
      ReleasedIs(blocks, k);
      Release(curr, id, k);
      JoinNext(curr, k);
      JoinPrev(curr, k);
    }

    /** Frees the block of an id and merges it with free neighbours; an unknown id changes nothing. */
    method Deallocate(id: int)
      requires Valid()
      modifies this, set n: MemBlock | n.owner == this
      ensures Valid() && View() == LinearModel.Deallocate(old(View()), id)
    {
      ghost var s := View();
      hide Linked, IndexedBy, Inv, Released, LinearModel.Deallocate;
      ValidParts();
      if id !in idMap {
        DeallocateUnknown(idMap, nodes, s, id);
        return;
      }
      var curr := idMap[id];
      ghost var k := UsedBlock(idMap, nodes, blocks, id);
      DeallocateIs(s, id, k);
      Free(curr, id, k);
    }
  }

  /** The map leads from the ids of the used blocks to their nodes, and holds no other id. */
  ghost predicate IndexedBy(m: map<int, MemBlock>, nodes: seq<MemBlock>, blocks: seq<Block>) {
    && |nodes| == |blocks|
    && (forall i :: 0 <= i < |blocks| && !blocks[i].free ==> blocks[i].id in m && m[blocks[i].id] == nodes[i])
    && (forall id :: id in m ==> exists i :: 0 <= i < |blocks| && !blocks[i].free && blocks[i].id == id)
  }

  /** `size` bytes of block k of state s were taken under the next id. */
  ghost predicate Taken(s: State, k: nat, size: nat, s': State) {
    && k < |s.blocks| && size <= s.blocks[k].size
    && s' == s.(blocks := Replaced(s.blocks, k, Split(s.blocks[k], size, s.nextId)),
                nextId := s.nextId + 1, successes := s.successes + 1)
  }

  lemma TakenParts(s: State, k: nat, size: nat, s': State)
    requires SplitInv(s, k, size) && Taken(s, k, size, s')
    ensures Inv(s') && s'.blocks == Replaced(s.blocks, k, Split(s.blocks[k], size, s.nextId))
  {
    SplitKeepsInv(s, k, size);
  }

  /** The nodes after block k was taken: d is 1 if a new node was put behind it, else 0. */
  ghost predicate SplitNodes(nodes: seq<MemBlock>, nodes': seq<MemBlock>, k: nat, d: int) {
    && 0 <= d <= 1 && k < |nodes| && |nodes'| == |nodes| + d
    && (forall i :: 0 <= i <= k ==> nodes'[i] == nodes[i])
    && (forall i :: k < i < |nodes| ==> nodes'[i + d] == nodes[i])
  }

  ghost predicate SplitIndexed(s: State, k: nat, size: nat, m: map<int, MemBlock>, nodes: seq<MemBlock>,
                               nodes': seq<MemBlock>) {
    && SplitInv(s, k, size) && IndexedBy(m, nodes, s.blocks)
    && SplitNodes(nodes, nodes', k, |Split(s.blocks[k], size, s.nextId)| - 1)
  }

  lemma UsedAfterSplit(s: State, k: nat, size: nat, m: map<int, MemBlock>, nodes: seq<MemBlock>,
                       nodes': seq<MemBlock>, i: nat)
    requires SplitIndexed(s, k, size, m, nodes, nodes')
    ensures var r, m' := Replaced(s.blocks, k, Split(s.blocks[k], size, s.nextId)), m[s.nextId := nodes[k]];
      |nodes'| == |r| && (i < |r| && !r[i].free ==> r[i].id in m' && m'[r[i].id] == nodes'[i])
  {
    SplitAt(s, k, size, i);
    hide Replaced;
  }

  lemma IdAfterSplit(s: State, k: nat, size: nat, m: map<int, MemBlock>, nodes: seq<MemBlock>, nodes': seq<MemBlock>,
                     id: int)
    requires SplitIndexed(s, k, size, m, nodes, nodes') && id in m[s.nextId := nodes[k]]
    ensures var r := Replaced(s.blocks, k, Split(s.blocks[k], size, s.nextId));
      exists i :: 0 <= i < |r| && !r[i].free && r[i].id == id
  {
    var parts := Split(s.blocks[k], size, s.nextId);
    var r := Replaced(s.blocks, k, parts);
    var i := k;
    if id != s.nextId {
      var j := UsedBlock(m, nodes, s.blocks, id);
      i := if j < k then j else j + |parts| - 1;
    }
    SplitAt(s, k, size, i);
    hide Replaced;
    assert !r[i].free && r[i].id == id;
  }

  lemma IndexAfterSplit(s: State, k: nat, size: nat, m: map<int, MemBlock>, nodes: seq<MemBlock>, nodes': seq<MemBlock>)
    requires SplitIndexed(s, k, size, m, nodes, nodes')
    ensures k < |nodes|
    ensures IndexedBy(m[s.nextId := nodes[k]], nodes', Replaced(s.blocks, k, Split(s.blocks[k], size, s.nextId)))
  {
    hide Replaced, Split, Inv, SplitNodes;
    UsedAfterSplit(s, k, size, m, nodes, nodes', 0);
    var r, m' := Replaced(s.blocks, k, Split(s.blocks[k], size, s.nextId)), m[s.nextId := nodes[k]];
    forall i: nat | i < |r|
      ensures !r[i].free ==> r[i].id in m' && m'[r[i].id] == nodes'[i]
    {
      UsedAfterSplit(s, k, size, m, nodes, nodes', i);
    }
    forall id | id in m'
      ensures exists i :: 0 <= i < |r| && !r[i].free && r[i].id == id
    {
      IdAfterSplit(s, k, size, m, nodes, nodes', id);
    }
  }

  lemma SplitFits(s: State, k: nat, size: nat)
    requires SplitInv(s, k, size)
    ensures k < |s.blocks| && 0 < size <= s.blocks[k].size
  {
  }

  lemma AllocateNothing(s: State, algo: Strategy)
    ensures LinearModel.Allocate(s, 0, algo) == (s, -1)
  {
  }

  lemma AllocateIs(s: State, size: nat, algo: Strategy)
    requires Inv(s) && size > 0
    ensures var c, counted := Choice(algo, s.blocks, size, |s.blocks|), s.(attempts := s.attempts + 1);
      LinearModel.Allocate(s, size, algo) ==
        if c.None? then (counted, -1)
        else (counted.(blocks := Replaced(s.blocks, c.value, Split(s.blocks[c.value], size, s.nextId)),
                       nextId := s.nextId + 1, successes := s.successes + 1), s.nextId)
  {
  }

  /** The position of the block found. */
  lemma ChosenIndex(algo: Strategy, s: State, nodes: seq<MemBlock>, size: nat, best: MemBlock?) returns (k: nat)
    requires Inv(s) && size > 0 && |nodes| == |s.blocks|
    requires best == match Choice(algo, s.blocks, size, |s.blocks|) case None => null case Some(k) => nodes[k]
    ensures best == null ==> Choice(algo, s.blocks, size, |s.blocks|).None?
    ensures best != null ==>
      && Choice(algo, s.blocks, size, |s.blocks|) == Some(k) && SplitInv(s, k, size) && k < |nodes| && nodes[k] == best
  {
    var c := Choice(algo, s.blocks, size, |s.blocks|);
    k := if c.Some? then c.value else 0;
  }

  lemma DeallocateUnknown(m: map<int, MemBlock>, nodes: seq<MemBlock>, s: State, id: int)
    requires IndexedBy(m, nodes, s.blocks) && id !in m
    ensures LinearModel.Deallocate(s, id) == s
  {
  }

  lemma DeallocateIs(s: State, id: int, k: nat)
    requires Inv(s) && k < |s.blocks| && !s.blocks[k].free && s.blocks[k].id == id
    ensures LinearModel.Deallocate(s, id) == s.(blocks := Released(s.blocks, k))
    ensures Inv(LinearModel.Deallocate(s, id))
  {
    FindUsed(s, id, k);
    DeallocateCorrect(s, id, 0);
  }

  lemma ReleasedIs(blocks: seq<Block>, k: nat)
    requires k < |blocks|
    ensures var freed := blocks[k := FreeBlock(blocks[k])];
      var joined := Join(freed, k);
      && freed[k].free && k < |joined| && joined[k].free
      && Released(blocks, k) == if k > 0 && joined[k - 1].free then Join(joined, k - 1) else joined
  {
  }

  lemma IndexAfterFree(m: map<int, MemBlock>, nodes: seq<MemBlock>, s: State, k: nat)
    requires Inv(s) && IndexedBy(m, nodes, s.blocks) && k < |s.blocks| && !s.blocks[k].free
    ensures IndexedBy(m - {s.blocks[k].id}, nodes, s.blocks[k := FreeBlock(s.blocks[k])])
  {
    var m', b' := m - {s.blocks[k].id}, s.blocks[k := FreeBlock(s.blocks[k])];
    forall id | id in m'
      ensures exists i :: 0 <= i < |b'| && !b'[i].free && b'[i].id == id
    {
      var i := UsedBlock(m, nodes, s.blocks, id);
      assert b'[i] == s.blocks[i];
    }
  }

  lemma UsedAfterJoin(m: map<int, MemBlock>, nodes: seq<MemBlock>, blocks: seq<Block>, k: nat, i: nat)
    requires IndexedBy(m, nodes, blocks) && k + 1 < |blocks| && blocks[k].free && blocks[k + 1].free
    ensures var (r, nodes') := (Join(blocks, k), nodes[..k + 1] + nodes[k + 2..]);
      |r| == |nodes'| && (i < |r| && !r[i].free ==> r[i].id in m && m[r[i].id] == nodes'[i])
  {
    JoinAt(blocks, k, i);
    hide Join;
    var nodes' := nodes[..k + 1] + nodes[k + 2..];
    assert i < |nodes'| ==> nodes'[i] == nodes[if i <= k then i else i + 1];
  }

  lemma IdAfterJoin(m: map<int, MemBlock>, nodes: seq<MemBlock>, blocks: seq<Block>, k: nat, id: int)
    requires IndexedBy(m, nodes, blocks) && k + 1 < |blocks| && blocks[k].free && blocks[k + 1].free && id in m
    ensures var r := Join(blocks, k); exists i :: 0 <= i < |r| && !r[i].free && r[i].id == id
  {
    var j := UsedBlock(m, nodes, blocks, id);
    var i := if j <= k then j else j - 1;
    JoinAt(blocks, k, i);
    hide Join, IndexedBy;
    assert !Join(blocks, k)[i].free && Join(blocks, k)[i].id == id;
  }

  lemma IndexAfterJoin(m: map<int, MemBlock>, nodes: seq<MemBlock>, blocks: seq<Block>, k: nat)
    requires IndexedBy(m, nodes, blocks) && k + 1 < |blocks| && blocks[k].free && blocks[k + 1].free
    ensures |nodes| == |blocks| && IndexedBy(m, nodes[..k + 1] + nodes[k + 2..], Join(blocks, k))
  {
    hide Join;
    var nodes', r := nodes[..k + 1] + nodes[k + 2..], Join(blocks, k);
    forall i: nat
      ensures |r| == |nodes'| && (i < |r| && !r[i].free ==> r[i].id in m && m[r[i].id] == nodes'[i])
    {
      UsedAfterJoin(m, nodes, blocks, k, i);
    }
    UsedAfterJoin(m, nodes, blocks, k, 0);
    forall id | id in m
      ensures exists i :: 0 <= i < |r| && !r[i].free && r[i].id == id
    {
      IdAfterJoin(m, nodes, blocks, k, id);
    }
  }

  lemma UsedBlock(m: map<int, MemBlock>, nodes: seq<MemBlock>, blocks: seq<Block>, id: int) returns (k: nat)
    requires IndexedBy(m, nodes, blocks) && id in m
    ensures k < |blocks| && !blocks[k].free && blocks[k].id == id && m[id] == nodes[k]
  {
    k :| 0 <= k < |blocks| && !blocks[k].free && blocks[k].id == id;
  }

  lemma ReplacedAt(blocks: seq<Block>, k: nat, parts: seq<Block>)
    requires k < |blocks| && |parts| == 2
    ensures var r := Replaced(blocks, k, parts);
      && |r| == |blocks| + 1 && r[k] == parts[0] && r[k + 1] == parts[1]
      && (forall i :: 0 <= i < k ==> r[i] == blocks[i])
      && (forall i :: k + 1 < i < |r| ==> r[i] == blocks[i - 1])
  {
  }

  /** Under first fit the first choice stands. */
  lemma {:induction false} ChoiceStays(blocks: seq<Block>, size: nat, i: nat, n: nat)
    requires i <= n <= |blocks| && Choice(FirstFit, blocks, size, i).Some?
    ensures Choice(FirstFit, blocks, size, n) == Choice(FirstFit, blocks, size, i)
    decreases n
  {
    if i < n {
      ChoiceStays(blocks, size, i, n - 1);
    }
  }
}
