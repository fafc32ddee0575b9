/** The buddy allocator on the heap: doubly linked free lists indexed by start page. */
module BuddyAllocation {
  import opened Bits
  import opened Common
  import opened BuddyTree
  import opened BuddyRounding
  import BuddyModel

  /** First page of a block. */
  function Start(b: Block): nat {
    b.index * Pow2(b.order)
  }

  class BuddyBlock {
    var address: nat
    var size: nat
    var pageCount: nat
    var id: int
    var next: BuddyBlock?
    var prev: BuddyBlock?
    ghost var block: Block
    ghost var page: nat

    constructor (addr: nat, s: nat, ghost b: Block)
      requires addr == PAGE_SIZE * Start(b) && s == PAGE_SIZE * Pow2(b.order)
      ensures Fits(b) && next == null && prev == null
    {
      address, size, pageCount, id := addr, s, s / PAGE_SIZE, 0;
      next, prev := null, null;
      block, page := b, Start(b);
    }

    /** The node describes block b of the pool. */
    ghost predicate Fits(b: Block)
      reads `block, `page, `address, `size, `pageCount
    {
      && block == b && page == Start(b)
      && address == PAGE_SIZE * Start(b)
      && size == PAGE_SIZE * Pow2(b.order)
      && pageCount == Pow2(b.order)
    }
  }

  ghost function At(c: seq<BuddyBlock>, i: int): BuddyBlock? {
    if 0 <= i < |c| then c[i] else null
  }

  /** Node i of c describes the order-k block with index idx[i] and is linked to its neighbours in c. */
  ghost predicate InPlace(c: seq<BuddyBlock>, idx: seq<nat>, k: nat, i: nat)
    requires i < |c| == |idx|
    reads c
  {
    c[i].Fits(Block(k, idx[i])) && c[i].next == At(c, i + 1) && c[i].prev == At(c, i - 1)
  }

  /** c is a null-terminated, back-linked list from head whose nodes are the order-k blocks listed in idx. */
  ghost predicate Chain(c: seq<BuddyBlock>, idx: seq<nat>, k: nat, head: BuddyBlock?)
    reads c
  {
    && |c| == |idx|
    && head == At(c, 0)
    && forall i: nat :: i < |c| ==> InPlace(c, idx, k, i)
  }

  lemma ChainNodesDiffer(c: seq<BuddyBlock>, idx: seq<nat>, k: nat, head: BuddyBlock?)
    requires Chain(c, idx, k, head) && Distinct(idx)
    ensures Distinct(c)
  {
    forall i, j | 0 <= i < j < |c|
      ensures c[i] != c[j]
    {
      assert InPlace(c, idx, k, i) && InPlace(c, idx, k, j);
    }
  }

  method LinkFront(node: BuddyBlock, head: BuddyBlock?, ghost c: seq<BuddyBlock>, ghost idx: seq<nat>, ghost b: Block)
    requires Chain(c, idx, b.order, head) && Distinct(c)
    requires node !in c && node.Fits(b) && node.prev == null
    modifies node`next, if head == null then {} else {head}`prev
    ensures Chain([node] + c, [b.index] + idx, b.order, node)
  {
    node.next := head;
    if head != null {
      head.prev := node;
    }
    ghost var c', idx' := [node] + c, [b.index] + idx;
    forall i: nat | i < |c'|
      ensures InPlace(c', idx', b.order, i)
    {
      if i > 0 {
        assert old(InPlace(c, idx, b.order, i - 1));
        assert c'[i] == c[i - 1] && At(c', i + 1) == At(c, i);
      }
    }
  }

  ghost function Cut<T>(s: seq<T>, i: nat): seq<T>
    requires i < |s|
  {
    s[..i] + s[i + 1..]
  }

  method Unlink(node: BuddyBlock, head: BuddyBlock?, ghost c: seq<BuddyBlock>, ghost idx: seq<nat>, ghost k: nat,
                ghost i: nat)
    returns (newHead: BuddyBlock?)
    requires Chain(c, idx, k, head) && Distinct(c)
    requires i < |c| && node == c[i]
    modifies if node.prev == null then {} else {node.prev}`next
    modifies if node.next == null then {} else {node.next}`prev
    ensures Chain(Cut(c, i), Cut(idx, i), k, newHead)
  {
    assert InPlace(c, idx, k, i);
    newHead := head;
    if node.prev != null {
      node.prev.next := node.next;
    } else {
      newHead := node.next;
    }
    if node.next != null {
      node.next.prev := node.prev;
    }
    ghost var c', idx' := Cut(c, i), Cut(idx, i);
    forall j: nat | j < |c'|
      ensures InPlace(c', idx', k, j)
    {
      ghost var o := if j < i then j else j + 1;
      assert old(InPlace(c, idx, k, o));
      assert c'[j] == c[o] && idx'[j] == idx[o];
    }
  }

  class BuddyAllocator {
    var totalSize: nat
    var totalPages: nat
    var nextId: int
    var freeLists: seq<BuddyBlock?>
    var freeMap: seq<BuddyBlock?>
    var allocatedBlocks: map<int, BuddyBlock>
    ghost var lists: seq<seq<nat>>
    ghost var chains: seq<seq<BuddyBlock>>
    ghost var freeNodes: set<BuddyBlock>

    ghost predicate ListAt(k: nat)
      requires k < |freeLists| == |chains| == |lists|
      reads `freeLists, `lists, `chains, chains[k]
    {
      Chain(chains[k], lists[k], k, freeLists[k])
    }

    /** Every free list is well linked. */
    ghost predicate ChainsLinked()
      reads `freeLists, `lists, `chains, `freeNodes, freeNodes
    {
      && |freeLists| == |chains| == |lists| > 0
      && (forall k: nat, n :: k < |chains| && n in chains[k] ==> n in freeNodes)
      && (forall k: nat :: k < |lists| ==> ListAt(k))
    }

    /** freeNodes holds exactly the nodes of the free lists, each in the list of its order. */
    ghost predicate NodesListed()
      reads `chains, `freeNodes, freeNodes`block
    {
      && (forall k: nat, n :: k < |chains| && n in chains[k] ==> n in freeNodes && n.block.order == k)
      && (forall n :: n in freeNodes ==> n.block.order < |chains| && n in chains[n.block.order])
    }

    ghost predicate ListsLinked()
      reads `freeLists, `lists, `chains, `freeNodes, freeNodes
    {
      ChainsLinked() && NodesListed()
    }

    /** The page map points at exactly the free-list nodes, each from its start page. */
    ghost predicate PagesIndexed()
      reads `freeMap, `freeNodes, freeNodes
    {
      && (forall n :: n in freeNodes ==> n.page < |freeMap| && freeMap[n.page] == n)
      && (forall p: nat :: p < |freeMap| && freeMap[p] != null ==> freeMap[p] in freeNodes && freeMap[p].page == p)
    }

    ghost predicate Linked()
      reads `freeLists, `freeMap, `lists, `chains, `freeNodes, freeNodes
    {
      ListsLinked() && PagesIndexed()
    }

    lemma NodeOfList(n: BuddyBlock)
      requires Linked() && n in freeNodes
      ensures n.Fits(n.block) && BuddyModel.IsFree(lists, n.block)
    {
      var k := n.block.order;
      assert ListAt(k);
      var i: nat :| i < |chains[k]| && chains[k][i] == n;
      assert InPlace(chains[k], lists[k], k, i);
    }

    lemma ListNode(b: Block) returns (n: BuddyBlock)
      requires Linked() && BuddyModel.IsFree(lists, b)
      ensures n in freeNodes && n.block == b && Start(b) < |freeMap| && freeMap[Start(b)] == n
    {
      var k := b.order;
      assert ListAt(k);
      var i: nat :| i < |lists[k]| && lists[k][i] == b.index;
      n := chains[k][i];
      assert InPlace(chains[k], lists[k], k, i);
    }

    lemma {:induction false} ChainsDistinct(k: nat)
      requires ListsLinked() && k < |lists| && Distinct(lists[k])
      ensures Distinct(chains[k])
    {
      assert ListAt(k);
      ChainNodesDiffer(chains[k], lists[k], k, freeLists[k]);
    }

    twostate lemma OtherListsKept(order: nat)
      requires old(ListsLinked()) && unchanged(this)
      requires forall n :: n in freeNodes && old(n.block.order) != order ==> unchanged(n)
      ensures forall k: nat :: k < |lists| && k != order ==> ListAt(k)
    {
      forall k: nat | k < |lists| && k != order
        ensures ListAt(k)
      {
        assert old(ListAt(k));
        forall i: nat | i < |chains[k]|
          ensures InPlace(chains[k], lists[k], k, i)
        {
          assert old(InPlace(chains[k], lists[k], k, i)) && chains[k][i] in chains[k];
          assert unchanged(chains[k][i]);
        }
      }
    }

    lemma FrontNode(k: nat)
      requires ListsLinked() && k < |lists| && Distinct(lists[k])
      ensures Distinct(chains[k]) && Chain(chains[k], lists[k], k, freeLists[k])
      ensures freeLists[k] != null ==> freeLists[k] in chains[k] && freeLists[k].block.order == k
    {
      ChainsDistinct(k);
      assert ListAt(k);
    }

    method PushChain(node: BuddyBlock, order: nat, ghost b: Block)
      requires ListsLinked() && node !in freeNodes && node.Fits(b) && node.prev == null
      requires order == b.order < |lists| && Distinct(lists[order])
      modifies `freeLists, `lists, `chains, `freeNodes, node`next, freeNodes`prev
      ensures ChainsLinked()
      ensures lists == old(lists[order := [b.index] + lists[order]])
      ensures chains == old(chains[order := [node] + chains[order]])
      ensures freeNodes == old(freeNodes) + {node}
    {
      FrontNode(order);
      hide Chain, Distinct, NodesListed, BuddyBlock.Fits;
      LinkFront(node, freeLists[order], chains[order], lists[order], b);
      OtherListsKept(order);
      label Linked:
      chains := chains[order := [node] + chains[order]];
      lists := lists[order := [b.index] + lists[order]];
      freeNodes := freeNodes + {node};
      freeLists := freeLists[order := node];
      forall k: nat | k < |lists|
        ensures ListAt(k)
      {
        if k != order {
          assert old@Linked(ListAt(k));
        }
      }
    }

    method PushList(node: BuddyBlock, order: nat, ghost b: Block)
      requires ListsLinked() && node !in freeNodes && node.Fits(b) && node.prev == null
      requires order == b.order < |lists| && Distinct(lists[order])
      modifies `freeLists, `lists, `chains, `freeNodes, node`next, freeNodes`prev
      ensures ListsLinked()
      ensures lists == old(lists[order := [b.index] + lists[order]])
      ensures freeNodes == old(freeNodes) + {node}
    {
      assert node.block == b;
      PushChain(node, order, b);
      hide ChainsLinked, BuddyBlock.Fits, Distinct;
      assert NodesListed();
    }

    method PushFront(node: BuddyBlock, order: nat, ghost b: Block)
      requires Linked() && node !in freeNodes && node.Fits(b) && node.prev == null
      requires order == b.order < |lists| && Distinct(lists[order])
      requires Start(b) < |freeMap| && freeMap[Start(b)] == null
      modifies `freeLists, `freeMap, `lists, `chains, `freeNodes, node`next, freeNodes`prev
      ensures Linked()
      ensures lists == old(lists[order := [b.index] + lists[order]])
      ensures freeNodes == old(freeNodes) + {node}
      ensures |freeMap| == old(|freeMap|)
    {
      hide ListsLinked, Start;
      PushList(node, order, b);
      assert node.address / PAGE_SIZE == node.page == Start(b);
      freeMap := freeMap[node.address / PAGE_SIZE := node];
      assert PagesIndexed();
    }

    /** Both neighbours of a list node belong to the same list. */
    lemma Neighbours(k: nat, i: nat)
      requires ListsLinked() && k < |lists| && Distinct(lists[k]) && i < |chains[k]|
      ensures |lists[k]| == |chains[k]| && Distinct(chains[k]) && Chain(chains[k], lists[k], k, freeLists[k])
      ensures var n := chains[k][i];
        && (n.prev != null ==> n.prev in freeNodes && n.prev.block.order == k)
        && (n.next != null ==> n.next in freeNodes && n.next.block.order == k)
    {
      ChainsDistinct(k);
      assert ListAt(k);
      assert InPlace(chains[k], lists[k], k, i);
    }

    method CutChain(node: BuddyBlock, order: nat, ghost i: nat)
      requires ListsLinked() && order < |lists| && Distinct(lists[order])
      requires i < |chains[order]| && node == chains[order][i]
      modifies `freeLists, `lists, `chains, freeNodes`next, freeNodes`prev
      ensures ChainsLinked()
      ensures i < |old(lists[order])| && lists == old(lists[order := Cut(lists[order], i)])
      ensures chains == old(chains[order := Cut(chains[order], i)])
    {
      Neighbours(order, i);
      hide Chain, Distinct, NodesListed;
      var head := Unlink(node, freeLists[order], chains[order], lists[order], order, i);
      OtherListsKept(order);
      label Unlinked:
      chains := chains[order := Cut(chains[order], i)];
      lists := lists[order := Cut(lists[order], i)];
      freeLists := freeLists[order := head];
      forall k: nat | k < |lists|
        ensures ListAt(k)
      {
        if k != order {
          assert old@Unlinked(ListAt(k));
        }
      }
    }

    method CutList(node: BuddyBlock, order: nat, ghost i: nat)
      requires ListsLinked() && order < |lists| && Distinct(lists[order])
      requires i < |chains[order]| && node == chains[order][i]
      modifies `freeLists, `lists, `chains, `freeNodes, freeNodes`next, freeNodes`prev
      ensures ListsLinked()
      ensures i < |old(lists[order])| && lists == old(lists[order := Cut(lists[order], i)])
      ensures freeNodes == old(freeNodes) - {node}
    {
      Neighbours(order, i);
      CutOmits(chains[order], i);
      CutChain(node, order, i);
      hide Chain, Cut, ListAt, Distinct;
      freeNodes := freeNodes - {node};
      assert NodesListed();
      assert forall k: nat :: k < |lists| ==> ListAt(k);
    }

    /** Unlinks a free node and clears its page entry. */
    method TakeOut(node: BuddyBlock, order: nat)
      requires Linked() && node in freeNodes && node.block.order == order
      requires order < |lists| && Distinct(lists[order])
      modifies `freeLists, `freeMap, `lists, `chains, `freeNodes, freeNodes`next, freeNodes`prev
      ensures Linked()
      ensures lists == old(lists[order := BuddyModel.Without(lists[order], node.block.index)])
      ensures freeNodes == old(freeNodes) - {node}
      ensures |freeMap| == old(|freeMap|)
    {
      ghost var i := PositionInList(node);
      CutList(node, order, i);
      hide ListsLinked;
      assert node.address / PAGE_SIZE == node.page;
      freeMap := freeMap[node.address / PAGE_SIZE := null];
      assert PagesIndexed();
    }

    lemma PositionInList(n: BuddyBlock) returns (i: nat)
      requires Linked() && n in freeNodes
      requires n.block.order < |lists| && Distinct(lists[n.block.order])
      ensures i < |chains[n.block.order]| && chains[n.block.order][i] == n && n.Fits(n.block)
      ensures i < |lists[n.block.order]|
      ensures Cut(lists[n.block.order], i) == BuddyModel.Without(lists[n.block.order], n.block.index)
    {
      var k := n.block.order;
      i :| i < |chains[k]| && chains[k][i] == n;
      assert ListAt(k);
      assert InPlace(chains[k], lists[k], k, i);
      WithoutIsCut(lists[k], i);
    }

    /** A page entry is clear where no free block overlaps. */
    lemma SlotEmpty(b: Block)
      requires Linked() && Start(b) < |freeMap|
      requires forall f :: BuddyModel.IsFree(lists, f) ==> Apart(f, b)
      ensures freeMap[Start(b)] == null
    {
      var n := freeMap[Start(b)];
      if n != null {
        NodeOfList(n);
        StartsDiffer(n.block, b);
      }
    }

    // ---------- the allocator ----------

    ghost predicate Sized()
      reads `totalSize, `totalPages, `freeMap, `lists
    {
      && 0 < |lists| <= 58
      && totalSize == PAGE_SIZE * Pow2(|lists| - 1)
      && totalPages == |freeMap| == Pow2(|lists| - 1)
    }

    twostate lemma SizedKept()
      requires old(Sized()) && |lists| == old(|lists|) && |freeMap| == old(|freeMap|)
      requires totalSize == old(totalSize) && totalPages == old(totalPages)
      ensures Sized()
    {
    }

    ghost function View(): BuddyModel.State
      reads `lists, `allocatedBlocks, `nextId, Granted()
    {
      BuddyModel.State(lists, Live(), nextId)
    }

    ghost function Live(): map<int, Block>
      reads `allocatedBlocks, Granted()
    {
      map id | id in allocatedBlocks :: allocatedBlocks[id].block
    }

    ghost function Granted(): set<BuddyBlock>
      reads `allocatedBlocks
    {
      set id | id in allocatedBlocks :: allocatedBlocks[id]
    }

    ghost predicate Owned(n: BuddyBlock)
      reads `freeNodes, n
    {
      n !in freeNodes && n.Fits(n.block)
    }

    ghost predicate Valid()
      reads this, freeNodes, Granted()
    {
      && Linked() && Sized()
      && AllOwned()
      && BuddyModel.Inv(View())
    }

    /** No pool yet: `Init` was never called. */
    ghost predicate Unready()
      reads this
    {
      && lists == [] && chains == [] && freeNodes == {}
      && freeLists == [] && freeMap == [] && allocatedBlocks == map[] && totalSize == 0
    }

    /** Calls are answered with and without a pool. */
    ghost predicate Usable()
      reads this, freeNodes, Granted()
    {
      if lists == [] then Unready() else Valid()
    }

    constructor ()
      ensures Unready() && View() == BuddyModel.State([], map[], 1)
    {
      totalSize, totalPages, nextId := 0, 0, 1;
      freeLists, freeMap, allocatedBlocks := [], [], map[];
      lists, chains, freeNodes := [], [], {};
    }

    method ClearLists(top: nat)
      requires top <= 57 && totalPages == Pow2(top)
      modifies `freeLists, `freeMap, `lists, `chains, `freeNodes
      ensures Linked() && freeNodes == {}
      ensures lists == EmptyLists(top)
      ensures |freeMap| == totalPages && forall p :: 0 <= p < |freeMap| ==> freeMap[p] == null
    {
      freeLists := seq(top + 1, _ => null);
      freeMap := seq(totalPages, _ => null);
      lists, chains, freeNodes := EmptyLists(top), seq(top + 1, _ => []), {};
      assert forall k: nat :: k < |lists| ==> ListAt(k);
    }

    method Init(size: nat)
      requires size <= WORD / 2
      modifies this
      ensures Valid() && fresh(freeNodes)
      ensures View() == BuddyModel.Fresh(OrderFor(size))
    {
      hide Linked, OrderFor, Pow2, BuddySize, EmptyLists, BuddyModel.Inv, BuddyModel.Fresh;
      allocatedBlocks := map[];
      totalSize := RoundToBuddySize(size);
      totalPages := totalSize / PAGE_SIZE;
      ghost var top := OrderFor(size);
      InitialSize(size);
      var maxOrder := OrderOf(totalSize);
      Pow2Injective(maxOrder, top);
      nextId := 1;
      ClearLists(maxOrder);
      var block := new BuddyBlock(0, totalSize, Block(top, 0));
      PushFront(block, maxOrder, Block(top, 0));
      FreshLists(top);
      assert View() == BuddyModel.Fresh(top);
    }

    lemma HeadOfList(k: nat)
      requires Linked() && k < |lists|
      ensures freeLists[k] == null <==> lists[k] == []
      ensures freeLists[k] != null ==>
        && freeLists[k] in freeNodes && freeLists[k].block == Block(k, lists[k][0])
        && freeLists[k].Fits(freeLists[k].block) && freeLists[k].prev == null
    {
      assert ListAt(k);
      if lists[k] != [] {
        assert InPlace(chains[k], lists[k], k, 0);
      }
    }

    lemma FreshSlot(used: set<Block>, b: Block)
      requires Linked() && Sized() && BuddyModel.Held(lists, used) && b in used && b.order > 0
      ensures Start(Right(b)) < |freeMap| && freeMap[Start(Right(b))] == null
    {
      hide Linked, Within;
      BuddyModel.UsedInPool(lists, used, b);
      Halves(b);
      WithinTransitive(Right(b), b, Block(|lists| - 1, 0));
      StartInPool(|lists| - 1, Right(b));
      forall f | BuddyModel.IsFree(lists, f)
        ensures Apart(f, Right(b))
      {
        assert f in BuddyModel.FreeBlocks(lists) + used;
        ApartFromPart(f, b, Right(b));
      }
      SlotEmpty(Right(b));
    }

    /** One halving: the upper half becomes a free block of the order below. */
    method SplitOnce(blk: BuddyBlock, order: nat, ghost used: set<Block>)
      requires Linked() && Sized() && blk !in freeNodes && blk.Fits(blk.block)
      requires order + 1 == blk.block.order < |lists|
      requires BuddyModel.Held(lists, used) && blk.block in used
      modifies `freeLists, `freeMap, `lists, `chains, `freeNodes, freeNodes`next, freeNodes`prev
      modifies blk`size, blk`pageCount, blk`block
      ensures Linked() && Sized() && blk !in freeNodes
      ensures blk.block == old(Left(blk.block)) && blk.Fits(blk.block)
      ensures lists == old(lists[order := [Right(blk.block).index] + lists[order]])
      ensures old(freeNodes) <= freeNodes && fresh(freeNodes - old(freeNodes))
    {
      hide Linked, Start, Pow2, BuddyModel.Held;
      ghost var b := blk.block;
      HalvesStart(b);
      FreshSlot(used, b);
      HeldDistinct(lists, used, order);
      var half := blk.size / 2;
      var buddy := new BuddyBlock(blk.address + half, half, Right(b));
      blk.size := half;
      blk.pageCount := half / PAGE_SIZE;
      blk.block := Left(b);
      hide Sized;
      PushFront(buddy, order, Right(b));
      SizedKept();
    }

    /** Removes the head block of a non-empty list. */
    method PopBlock(order: nat, ghost used: set<Block>) returns (blk: BuddyBlock)
      requires Linked() && Sized() && order < |lists| && lists[order] != []
      requires BuddyModel.Held(lists, used)
      modifies `freeLists, `freeMap, `lists, `chains, `freeNodes, freeNodes`next, freeNodes`prev
      ensures Linked() && Sized() && blk in old(freeNodes) && freeNodes == old(freeNodes) - {blk}
      ensures lists == old(lists[order := lists[order][1..]])
      ensures blk.block == Block(order, old(lists[order][0])) && blk.Fits(blk.block)
      ensures BuddyModel.Held(lists, used + {blk.block})
    {
      HeadOfList(order);
      HeldDistinct(lists, used, order);
      WithoutHead(lists[order]);
      BuddyModel.PopHeld(lists, used, order);
      hide Linked, Sized, BuddyModel.Held, BuddyBlock.Fits, Distinct;
      blk := freeLists[order];
      TakeOut(blk, order);
      blk.next := null;
      SizedKept();
    }

    /** Halves a held block down to the requested order. */
    method SplitBlock(blk: BuddyBlock, from: nat, to: nat, ghost used: set<Block>)
      requires Linked() && Sized() && blk !in freeNodes && blk.Fits(blk.block)
      requires to <= from == blk.block.order < |lists|
      requires BuddyModel.Held(lists, used) && blk.block in used
      modifies `freeLists, `freeMap, `lists, `chains, `freeNodes, freeNodes`next, freeNodes`prev
      modifies blk`size, blk`pageCount, blk`block
      ensures Linked() && Sized() && blk !in freeNodes && blk.Fits(blk.block)
      ensures (lists, blk.block) == old(BuddyModel.SplitDown(lists, blk.block, to))
      ensures old(freeNodes) <= freeNodes && fresh(freeNodes - old(freeNodes))
    {
      hide Linked, Sized, BuddyModel.Held, BuddyBlock.Fits;
      var order := from;
      ghost var held := used;
      while order > to
        invariant to <= order <= from && order == blk.block.order < |lists|
        invariant Linked() && Sized() && blk !in freeNodes && blk.Fits(blk.block)
        invariant BuddyModel.Held(lists, held) && blk.block in held
        invariant BuddyModel.SplitDown(lists, blk.block, to) == old(BuddyModel.SplitDown(lists, blk.block, to))
        invariant old(freeNodes) <= freeNodes && fresh(freeNodes - old(freeNodes))
      {
        ghost var before := held;
        BuddyModel.SplitStep(lists, held, blk.block);
        held := held - {blk.block} + {Left(blk.block)};
        order := order - 1;
        SplitOnce(blk, order, before);
      }
    }

    /** The order a request needs, -1 if the pool cannot hold it. */
    method RequestOrder(size: nat) returns (order: int)
      requires (Sized() || Unready()) && size < WORD
      ensures order == if size == 0 || OrderFor(size) > |lists| - 1 then -1 else OrderFor(size)
    {
      hide OrderFor, Pow2, BuddySize, IsPow2;
      if size == 0 {
        return -1;
      }
      var reqSize := RoundToBuddySize(size);
      RequestFits(size, if lists == [] then 57 else |lists| - 1);
      if reqSize > totalSize {
        return -1;
      }
      order := OrderOf(reqSize);
      if order >= 0 && lists != [] {
        OrderOfRequest(size, |lists| - 1, order);
      }
    }

    twostate lemma Untouched()
      requires old(Usable()) && unchanged(this)
      requires forall n :: n in old(freeNodes) ==> unchanged(n)
      requires forall n :: n in old(Granted()) ==> unchanged(n)
      ensures Usable() && View() == old(View())
    {
      assert forall n :: n in Granted() ==> n in old(Granted());
      assert forall id :: id in allocatedBlocks ==> allocatedBlocks[id] in Granted();
      assert Live() == old(Live());
      hide BuddyModel.Inv, Linked;
      if lists != [] {
        GrantedKept();
      }
    }

    lemma RefusedOrGranted(size: nat, order: int)
      requires Usable()
      requires order == if size == 0 || OrderFor(size) > |lists| - 1 then -1 else OrderFor(size)
      ensures order == -1 ==> BuddyModel.Allocate(View(), size) == (View(), -1)
      ensures order >= 0 ==>
        var from := BuddyModel.FirstOrder(lists, order);
        && Valid() && order <= |lists| - 1
        && BuddyModel.Allocate(View(), size)
           == if from == |lists| then (View(), -1) else (BuddyModel.Grant(View(), from, order), nextId)
    {
    }

    method Allocate(size: nat) returns (id: int)
      requires Usable() && size < WORD
      modifies this, freeNodes
      ensures Usable() && fresh(freeNodes - old(freeNodes)) && Granted() <= old(Granted() + freeNodes)
      ensures (View(), id) == BuddyModel.Allocate(old(View()), size)
    {
      hide Linked, OrderFor, BuddyModel.Grant, BuddyModel.Allocate, BuddyModel.FirstOrder;
      var reqOrder := RequestOrder(size);
      Untouched();
      RefusedOrGranted(size, reqOrder);
      if reqOrder == -1 {
        return -1;
      }
      var currentOrder := FindOrder(reqOrder);
      Untouched();
      if currentOrder > |freeLists| - 1 {
        return -1;
      }
      id := Grant(reqOrder, currentOrder);
    }

    /** The scan for a non-empty list. */
    method FindOrder(reqOrder: nat) returns (order: nat)
      requires Linked() && reqOrder <= |lists|
      ensures order == BuddyModel.FirstOrder(lists, reqOrder) && |lists| == |freeLists|
    {
      order := reqOrder;
      while order <= |freeLists| - 1 && freeLists[order] == null
        invariant order <= |lists| == |freeLists|
        invariant BuddyModel.FirstOrder(lists, reqOrder) == BuddyModel.FirstOrder(lists, order)
      {
        HeadOfList(order);
        order := order + 1;
      }
      if order < |lists| {
        HeadOfList(order);
      }
    }

    ghost predicate AllOwned()
      reads `allocatedBlocks, `freeNodes, Granted()
    {
      forall n :: n in Granted() ==> Owned(n)
    }

    lemma OwnedApart()
      requires AllOwned()
      ensures freeNodes !! Granted()
    {
      assert forall n :: n in Granted() ==> Owned(n);
    }

    twostate lemma GrantedKept()
      requires old(AllOwned()) && allocatedBlocks == old(allocatedBlocks)
      requires forall n :: n in old(Granted()) ==> unchanged(n)
      requires freeNodes !! old(Granted())
      ensures AllOwned() && Granted() == old(Granted()) && Live() == old(Live())
    {
      assert forall id :: id in allocatedBlocks ==> allocatedBlocks[id] in old(Granted());
      forall n | n in Granted()
        ensures Owned(n)
      {
        assert old(Owned(n));
      }
    }

    lemma ViewFields()
      ensures View() == BuddyModel.State(lists, Live(), nextId)
    {
    }

    /** Takes the head block of a list and cuts it to size; granted blocks are left alone. */
    method Carve(req: nat, from: nat, ghost used: set<Block>) returns (blk: BuddyBlock)
      requires Linked() && Sized() && AllOwned() && req <= from < |lists| && lists[from] != []
      requires BuddyModel.Held(lists, used)
      modifies `freeLists, `freeMap, `lists, `chains, `freeNodes, freeNodes
      ensures Linked() && Sized() && AllOwned() && Granted() == old(Granted())
      ensures blk in old(freeNodes) && blk !in freeNodes && Owned(blk)
      ensures var (lists', b) := BuddyModel.Carve(old(lists), from, req);
        blk.block == b && View() == old(View()).(lists := lists')
      ensures fresh(freeNodes - old(freeNodes))
    {
      OwnedApart();
      ViewFields();
      hide Linked, Sized, AllOwned, View, Live, BuddyModel.Held, BuddyBlock.Fits, BuddyModel.SplitDown;
      blk := PopBlock(from, used);
      SplitBlock(blk, from, req, used + {blk.block});
      GrantedKept();
      ViewFields();
    }

    /** Files a carved block under the next id. */
    method Record(blk: BuddyBlock)
      requires Linked() && Sized() && AllOwned() && Owned(blk) && nextId !in allocatedBlocks
      modifies `nextId, `allocatedBlocks, blk`id
      ensures Linked() && Sized() && AllOwned() && Granted() == old(Granted()) + {blk}
      ensures nextId == old(nextId) + 1
      ensures var s := old(View()); View() == s.(live := s.live[s.nextId := blk.block], nextId := s.nextId + 1)
    {
      hide Linked, Sized;
      blk.id := nextId;
      nextId := nextId + 1;
      allocatedBlocks := allocatedBlocks[blk.id := blk];
      assert allocatedBlocks[blk.id] == blk;
      assert forall i :: i in old(allocatedBlocks) ==> allocatedBlocks[i] == old(allocatedBlocks)[i];
    }

    lemma BeforeGrant(req: nat, from: nat)
      requires Valid() && req <= from < |lists| && lists[from] != []
      ensures BuddyModel.Held(lists, BuddyModel.UsedBlocks(Live()))
      ensures nextId !in allocatedBlocks && freeNodes !! Granted()
      ensures BuddyModel.Inv(BuddyModel.Grant(View(), from, req))
      ensures var (lists', b) := BuddyModel.Carve(lists, from, req);
        BuddyModel.Grant(View(), from, req)
        == View().(lists := lists', live := View().live[nextId := b], nextId := nextId + 1)
    {
      BuddyModel.GrantedBlock(View(), from, req);
      assert nextId !in Live();
      OwnedApart();
    }

    /** Carves a block and records it under a new id. */
    method Grant(req: nat, from: nat) returns (id: int)
      requires Valid() && req <= from < |lists| && lists[from] != []
      modifies this, freeNodes
      ensures Valid() && fresh(freeNodes - old(freeNodes)) && Granted() <= old(Granted() + freeNodes)
      ensures id == old(nextId)
      ensures View() == BuddyModel.Grant(old(View()), from, req)
    {
      BeforeGrant(req, from);
      hide Linked, Sized, AllOwned, Owned, View, BuddyBlock.Fits, BuddyModel.Inv, BuddyModel.Held, BuddyModel.Carve,
        BuddyModel.Grant;
      var blk := Carve(req, from, BuddyModel.UsedBlocks(Live()));
      id := nextId;
      Record(blk);
    }

    ghost predicate Spans(addr: nat, size: nat, b: Block) {
      addr == PAGE_SIZE * Start(b) && size == PAGE_SIZE * Pow2(b.order)
    }

    ghost predicate Mergeable(b: Block)
      requires |lists| > 0
      reads `lists
    {
      b.order < |lists| - 1 && BuddyModel.IsFree(lists, Sibling(b))
    }

    /** The page map answers whether the sibling is free as a whole. */
    lemma SiblingLookup(b: Block, used: set<Block>, buddyAddr: nat, size: nat)
      requires Linked() && Sized() && BuddyModel.Held(lists, used) && b in used && b.order < |lists| - 1
      requires Spans(buddyAddr, size, Sibling(b))
      ensures buddyAddr / PAGE_SIZE < |freeMap|
      ensures var curr := freeMap[buddyAddr / PAGE_SIZE];
        && (curr != null && curr.size == size <==> Mergeable(b))
        && (Mergeable(b) ==> curr in freeNodes && curr.block == Sibling(b))
    {
      var sib := Sibling(b);
      BuddyModel.UsedInPool(lists, used, b);
      WithinRoot(b, |lists| - 1);
      StartInPool(|lists| - 1, sib);
      assert buddyAddr / PAGE_SIZE == Start(sib);
      var curr := freeMap[Start(sib)];
      if BuddyModel.IsFree(lists, sib) {
        var n := ListNode(sib);
        NodeOfList(n);
      } else if curr != null && curr.size == size {
        NodeOfList(curr);
        Pow2Injective(curr.block.order, sib.order);
        SameStart(curr.block, sib);
      }
    }

    lemma SiblingSpan(addr: nat, size: nat, b: Block)
      requires Spans(addr, size, b)
      ensures Spans(Xor(addr, size), size, Sibling(b))
      ensures var other := Xor(addr, size); Spans(if other < addr then other else addr, 2 * size, Parent(b))
    {
      SiblingAddress(b);
      ParentStart(b);
    }

    /** Puts a block that cannot be merged on its free list. */
    method FileBlock(addr: nat, size: nat, ghost b: Block, ghost used: set<Block>)
      requires Linked() && Sized() && BuddyModel.Held(lists, used) && b in used && b.order < |lists|
      requires Spans(addr, size, b)
      modifies `freeLists, `freeMap, `lists, `chains, `freeNodes, freeNodes`prev
      ensures Linked() && Sized() && fresh(freeNodes - old(freeNodes))
      ensures lists == old(lists[b.order := [b.index] + lists[b.order]])
    {
      SizeBelowPool(size, b, addr);
      UsedSlot(used, b);
      HeldDistinct(lists, used, b.order);
      hide Linked, Start, Pow2, BuddyModel.Held, IsPow2, Distinct;
      var finalOrder := OrderOf(size);
      Pow2Injective(finalOrder, b.order);
      var merged := new BuddyBlock(addr, size, b);
      hide Sized, Spans;
      PushFront(merged, finalOrder, b);
      SizedKept();
    }

    lemma UsedSlot(used: set<Block>, b: Block)
      requires Linked() && Sized() && BuddyModel.Held(lists, used) && b in used
      ensures Start(b) < |freeMap| && freeMap[Start(b)] == null
    {
      hide Linked, Within;
      BuddyModel.UsedInPool(lists, used, b);
      StartInPool(|lists| - 1, b);
      forall f | BuddyModel.IsFree(lists, f)
        ensures Apart(f, b)
      {
        assert f in BuddyModel.FreeBlocks(lists) + used;
      }
      SlotEmpty(b);
    }

    lemma SizeBelowPool(size: nat, b: Block, addr: nat)
      requires Linked() && Sized() && Spans(addr, size, b) && b.order < |lists|
      ensures size < WORD && size / PAGE_SIZE == Pow2(b.order) && IsPow2(size / PAGE_SIZE)
      ensures size < totalSize <==> b.order < |lists| - 1
      ensures |freeLists| == |lists|
    {
      SizeFits(b.order);
      if b.order < |lists| - 1 {
        Pow2Monotonic(b.order + 1, |lists| - 1);
      }
    }

    /** One merge: takes the sibling off its free list if it is free as a whole. */
    method TakeSibling(addr: nat, size: nat, buddyAddr: nat, ghost b: Block, ghost used: set<Block>)
      returns (taken: bool)
      requires Linked() && Sized() && BuddyModel.Held(lists, used) && b in used && b.order < |lists|
      requires Spans(addr, size, b) && Spans(buddyAddr, size, Sibling(b))
      modifies `freeLists, `freeMap, `lists, `chains, `freeNodes, freeNodes
      ensures Linked() && Sized() && freeNodes <= old(freeNodes)
      ensures taken == old(Mergeable(b))
      ensures lists == if taken then old(lists[b.order := BuddyModel.Without(lists[b.order], Sibling(b).index)])
        else old(lists)
    {
      hide Linked, Spans, Start, Pow2, IsPow2, BuddyModel.Held, Distinct;
      SizeBelowPool(size, b, addr);
      var order := OrderOf(size);
      if order == -1 || order >= |freeLists| - 1 {
        if order >= 0 { Pow2Injective(order, b.order); }
        return false;
      }
      Pow2Injective(order, b.order);
      SiblingLookup(b, used, buddyAddr, size);
      var curr := freeMap[buddyAddr / PAGE_SIZE];
      if curr == null || curr.size != size {
        return false;
      }
      HeldDistinct(lists, used, order);
      hide Sized;
      TakeOut(curr, order);
      taken := true;
      SizedKept();
    }

    /** Joins a block with its free siblings and files the result. */
    method Coalesce(address: nat, bytes: nat, ghost block: Block, ghost used: set<Block>)
      requires Linked() && Sized() && BuddyModel.Held(lists, used) && block in used && block.order < |lists|
      requires Spans(address, bytes, block)
      modifies `freeLists, `freeMap, `lists, `chains, `freeNodes, freeNodes
      ensures Linked() && Sized() && fresh(freeNodes - old(freeNodes))
      ensures lists == BuddyModel.MergeUp(old(lists), block)
    {
      hide Linked, Sized, Spans, Start, Pow2, BuddyModel.Held;
      var addr: nat, size: nat := address, bytes;
      ghost var b, held := block, used;
      SizeBelowPool(size, b, addr);
      while size < totalSize
        invariant size < totalSize <==> b.order < |lists| - 1
        invariant Linked() && Sized() && BuddyModel.Held(lists, held) && b in held && b.order < |lists|
        invariant Spans(addr, size, b)
        invariant BuddyModel.MergeUp(lists, b) == BuddyModel.MergeUp(old(lists), block)
        invariant freeNodes <= old(freeNodes)
        decreases |lists| - b.order
      {
        SiblingSpan(addr, size, b);
        if Mergeable(b) {
          BuddyModel.MergeStep(lists, held, b);
        }
        var buddyAddr := Xor(addr, size);
        var taken := TakeSibling(addr, size, buddyAddr, b, held);
        if !taken {
          break;
        }
        addr := if buddyAddr < addr then buddyAddr else addr;
        size := 2 * size;
        held := held - {b} + {Parent(b)};
        b := Parent(b);
        SizeBelowPool(size, b, addr);
      }
      FileBlock(addr, size, b, held);
    }

    lemma GrantedBlockHeld(id: int)
      requires Valid() && id in allocatedBlocks
      ensures var n := allocatedBlocks[id];
        && n.Fits(n.block) && n !in freeNodes && n.block == Live()[id]
        && n.block in BuddyModel.UsedBlocks(Live()) && n.block.order < |lists| && Spans(n.address, n.size, n.block)
      ensures BuddyModel.Held(lists, BuddyModel.UsedBlocks(Live())) && freeNodes !! Granted()
      ensures BuddyModel.Inv(BuddyModel.Deallocate(View(), id))
      ensures BuddyModel.Deallocate(View(), id)
        == View().(lists := BuddyModel.MergeUp(lists, Live()[id]), live := Live() - {id})
    {
      var n := allocatedBlocks[id];
      assert n in Granted() && Owned(n);
      assert id in Live() && Live()[id] == n.block;
      BuddyModel.UsedInPool(lists, BuddyModel.UsedBlocks(Live()), n.block);
      BuddyModel.DeallocateCorrect(View(), id);
      OwnedApart();
    }

    /** Takes an id out of the table. */
    method Forget(id: int)
      requires AllOwned() && id in allocatedBlocks
      modifies `allocatedBlocks
      ensures AllOwned() && Granted() <= old(Granted())
      ensures View() == old(View()).(live := old(Live()) - {id})
    {
      allocatedBlocks := allocatedBlocks - {id};
      assert forall i :: i in allocatedBlocks ==> old(allocatedBlocks)[i] == allocatedBlocks[i];
      assert forall n :: n in Granted() ==> n in old(Granted()) && old(Owned(n));
    }

    method Deallocate(id: int)
      requires Usable()
      modifies this, freeNodes
      ensures Usable() && fresh(freeNodes - old(freeNodes)) && Granted() <= old(Granted())
      ensures View() == BuddyModel.Deallocate(old(View()), id)
    {
      if id !in allocatedBlocks {
        return;
      }
      GrantedBlockHeld(id);
      ghost var used := BuddyModel.UsedBlocks(Live());
      var blk := allocatedBlocks[id];
      hide Linked, Sized, AllOwned, View, Spans, BuddyBlock.Fits, BuddyModel.UsedBlocks, BuddyModel.Inv,
        BuddyModel.Held, BuddyModel.MergeUp, BuddyModel.Deallocate;
      Forget(id);
      CoalesceKeepingGrants(blk.address, blk.size, blk.block, used);
    }

    method CoalesceKeepingGrants(address: nat, bytes: nat, ghost block: Block, ghost used: set<Block>)
      requires Linked() && Sized() && AllOwned()
      requires BuddyModel.Held(lists, used) && block in used && block.order < |lists|
      requires Spans(address, bytes, block)
      modifies `freeLists, `freeMap, `lists, `chains, `freeNodes, freeNodes
      ensures Linked() && Sized() && AllOwned() && fresh(freeNodes - old(freeNodes))
      ensures View() == old(View()).(lists := BuddyModel.MergeUp(old(lists), block)) && Granted() == old(Granted())
    {
      OwnedApart();
      hide Linked, Sized, AllOwned, Spans, BuddyModel.Held, BuddyModel.MergeUp;
      Coalesce(address, bytes, block, used);
      GrantedKept();
    }

    /** Start address of a granted block, None for an unknown id. */
    method GetAddress(id: int) returns (address: Option<nat>)
      requires Usable()
      ensures address == if id in View().live
        then Some(64 * (View().live[id].index * Pow2(View().live[id].order))) else None
    {
      if id in allocatedBlocks {
        GrantedBlockHeld(id);
        return Some(allocatedBlocks[id].address);
      }
      return None;
    }
  }

  lemma CutOmits<T>(s: seq<T>, i: nat)
    requires i < |s| && Distinct(s)
    ensures forall x :: x in Cut(s, i) <==> x in s && x != s[i]
  {
    forall x | x in s && x != s[i]
      ensures x in Cut(s, i)
    {
      var j :| 0 <= j < |s| && s[j] == x;
      assert x == Cut(s, i)[if j < i then j else j - 1];
    }
  }

  lemma {:induction false} WithoutIsCut(s: seq<nat>, i: nat)
    requires i < |s| && Distinct(s)
    ensures Cut(s, i) == BuddyModel.Without(s, s[i])
  {
    if i == 0 {
      WithoutAbsent(s[1..], s[0]);
    } else {
      WithoutIsCut(s[1..], i - 1);
      assert s[0] != s[i];
      assert Cut(s, i) == [s[0]] + Cut(s[1..], i - 1);
    }
  }

  lemma WithoutHead(s: seq<nat>)
    requires s != [] && Distinct(s)
    ensures BuddyModel.Without(s, s[0]) == s[1..]
  {
    WithoutIsCut(s, 0);
  }

  lemma {:induction false} WithoutAbsent(s: seq<nat>, x: nat)
    requires x !in s
    ensures BuddyModel.Without(s, x) == s
  {
    if s != [] {
      WithoutAbsent(s[1..], x);
    }
  }

  // ---------- addresses ----------

  lemma StartsDiffer(a: Block, b: Block)
    requires Apart(a, b)
    ensures Start(a) != Start(b)
  {
    hide Within;
    var p := Start(a);
    FirstPage(a);
    FirstPage(b);
    if Start(b) == p {
      if a.order <= b.order {
        WithinNested(Block(0, p), a, b);
      } else {
        WithinNested(Block(0, p), b, a);
      }
    }
  }

  lemma FirstPage(b: Block)
    ensures Within(Block(0, Start(b)), b)
  {
    PagesOfBlock(b, Start(b));
    MulMonotonic(b.index, b.index, Pow2(b.order));
  }

  lemma StartInPool(top: nat, b: Block)
    requires InPool(top, b)
    ensures Start(b) < Pow2(top) && b.order <= top
  {
    FirstPage(b);
    WithinTransitive(Block(0, Start(b)), b, Block(top, 0));
    PagesOfBlock(Block(top, 0), Start(b));
  }

  lemma HalvesStart(b: Block)
    requires b.order > 0
    ensures Start(Left(b)) == Start(b) && Start(Right(b)) == Start(b) + Pow2(b.order - 1)
    ensures PAGE_SIZE * Pow2(b.order) / 2 == PAGE_SIZE * Pow2(b.order - 1)
  {
    var p := Pow2(b.order - 1);
    Doubling(b.index, p);
    MulMonotonic(2 * b.index, 2 * b.index, p);
    assert 2 * b.index * p == 2 * (b.index * p);
  }

  /** XOR with the size leads to the sibling. */
  lemma SiblingAddress(b: Block)
    ensures Xor(PAGE_SIZE * Start(b), PAGE_SIZE * Pow2(b.order)) == PAGE_SIZE * Start(Sibling(b))
  {
    hide Xor;
    var k := b.order;
    assert Pow2(6) == PAGE_SIZE;
    Pow2Add(k, 6);
    hide Pow2;
    XorIsSibling(b.index, k + 6);
    Rescale(b.index, Pow2(k));
    Rescale(Sibling(b).index, Pow2(k));
  }

  lemma Rescale(i: nat, p: nat)
    ensures i * (p * PAGE_SIZE) == PAGE_SIZE * (i * p)
  {
  }

  /** The lower of two siblings starts their parent. */
  lemma ParentStart(b: Block)
    ensures Start(Parent(b)) == if Start(b) <= Start(Sibling(b)) then Start(b) else Start(Sibling(b))
  {
    HalvesStart(Parent(b));
    Siblings(b);
    assert b == Left(Parent(b)) || b == Right(Parent(b));
  }

  lemma SameStart(a: Block, b: Block)
    requires Start(a) == Start(b) && a.order == b.order
    ensures a == b
  {
    if a.index < b.index {
      MulMonotonic(a.index + 1, b.index, Pow2(a.order));
      MulMonotonic(a.index, a.index, Pow2(a.order));
    } else if b.index < a.index {
      MulMonotonic(b.index + 1, a.index, Pow2(a.order));
      MulMonotonic(b.index, b.index, Pow2(a.order));
    }
  }

  lemma SizeFits(k: nat)
    requires k <= 57
    ensures PAGE_SIZE * Pow2(k) < WORD
    ensures PAGE_SIZE * Pow2(k) / PAGE_SIZE == Pow2(k) && IsPow2(Pow2(k))
  {
    Pow2Values();
    Pow2Monotonic(k, 57);
  }

  lemma InitialSize(size: nat)
    requires size <= WORD / 2
    ensures var top := OrderFor(size);
      && top <= 57 && BuddySize(size) == PAGE_SIZE * Pow2(top) < WORD
      && BuddySize(size) / PAGE_SIZE == Pow2(top) && IsPow2(Pow2(top))
      && Start(Block(top, 0)) == 0
  {
    OrderWithinWord(size);
    SizeFits(OrderFor(size));
  }

  /** The free lists before the first block is filed. */
  function EmptyLists(top: nat): (lists: seq<seq<nat>>)
    ensures |lists| == top + 1 && forall k :: 0 <= k <= top ==> lists[k] == []
  {
    seq(top + 1, _ => [])
  }

  lemma FreshLists(top: nat)
    ensures BuddyModel.Inv(BuddyModel.Fresh(top))
    ensures BuddyModel.Fresh(top) == BuddyModel.State(EmptyLists(top)[top := [0] + EmptyLists(top)[top]], map[], 1)
  {
    BuddyModel.FreshInv(top);
    var empty := EmptyLists(top);
    assert [0] + empty[top] == [0];
    assert BuddyModel.Fresh(top).lists == empty[top := [0] + empty[top]];
  }

  lemma RequestFits(size: nat, top: nat)
    requires top <= 57
    ensures BuddySize(size) < WORD
    ensures OrderFor(size) <= top ==> IsPow2(BuddySize(size) / PAGE_SIZE) && BuddySize(size) <= PAGE_SIZE * Pow2(top)
    ensures OrderFor(size) > top ==> BuddySize(size) > PAGE_SIZE * Pow2(top) || !IsPow2(BuddySize(size) / PAGE_SIZE)
  {
    hide OrderFor;
    var k := OrderFor(size);
    OrderWithinWord(size);
    if k <= 57 {
      SizeFits(k);
      if k <= top {
        Pow2Monotonic(k, top);
      } else {
        Pow2Monotonic(top + 1, k);
      }
    }
  }

  lemma OrderOfRequest(size: nat, top: nat, order: nat)
    requires top <= 57 && BuddySize(size) <= PAGE_SIZE * Pow2(top) && BuddySize(size) / PAGE_SIZE == Pow2(order)
    ensures order == OrderFor(size) <= top
  {
    assert order <= top by {
      if order > top {
        Pow2Monotonic(top + 1, order);
      }
    }
    hide OrderFor, Pow2;
    OrderWithinWord(size);
    Pow2Injective(order, OrderFor(size));
  }

  lemma HeldDistinct(lists: seq<seq<nat>>, used: set<Block>, k: nat)
    requires BuddyModel.Held(lists, used) && k < |lists|
    ensures Distinct(lists[k])
  {
  }
}
