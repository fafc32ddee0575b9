/**
 The blocks of a buddy pool as nodes of a binary tree. Block(k, i) stands for the 2^k pages from page
 i * 2^k on; halving its index leads to the block that encloses it.
 */
module BuddyTree {
  import opened Bits

  datatype Block = Block(order: nat, index: nat)

  function Parent(b: Block): Block {
    Block(b.order + 1, b.index / 2)
  }

  function Sibling(b: Block): Block {
    Block(b.order, if b.index % 2 == 0 then b.index + 1 else b.index - 1)
  }

  function Left(b: Block): Block
    requires b.order > 0
  {
    Block(b.order - 1, 2 * b.index)
  }

  function Right(b: Block): Block
    requires b.order > 0
  {
    Block(b.order - 1, 2 * b.index + 1)
  }

  predicate Within(a: Block, b: Block) {
    a.order <= b.order && Shr(a.index, b.order - a.order) == b.index
  }

  predicate Apart(a: Block, b: Block) {
    !Within(a, b) && !Within(b, a)
  }

  predicate InPool(top: nat, b: Block) {
    Within(b, Block(top, 0))
  }

  /** Containment in the tree is containment of page intervals. */
  lemma PagesOfBlock(b: Block, page: nat)
    ensures Within(Block(0, page), b) <==> b.index * Pow2(b.order) <= page < (b.index + 1) * Pow2(b.order)
  {
    ShrIsDivision(page, b.order);
    var q := page / Pow2(b.order);
    MulMonotonic(q, q, Pow2(b.order));
    if q < b.index {
      MulMonotonic(q + 1, b.index, Pow2(b.order));
    } else if q > b.index {
      MulMonotonic(b.index + 1, q, Pow2(b.order));
    }
  }

  lemma WithinTransitive(a: Block, b: Block, c: Block)
    requires Within(a, b) && Within(b, c)
    ensures Within(a, c)
  {
    ShrShr(a.index, b.order - a.order, c.order - b.order);
  }

  /** Two blocks around a common one are nested. */
  lemma WithinNested(a: Block, b: Block, c: Block)
    requires Within(a, b) && Within(a, c) && b.order <= c.order
    ensures Within(b, c)
  {
    ShrShr(a.index, b.order - a.order, c.order - b.order);
  }

  lemma WithinParent(a: Block, b: Block)
    requires Within(a, b) && a != b
    ensures Within(Parent(a), b)
  {
    assert a.order < b.order;
  }

  lemma WithinHalf(a: Block, b: Block)
    requires Within(a, b) && a != b
    ensures Within(a, Left(b)) || Within(a, Right(b))
  {
    var d := b.order - a.order - 1;
    ShrShr(a.index, d, 1);
    assert Shr(Shr(a.index, d), 1) == Shr(a.index, d) / 2;
  }

  lemma Halves(b: Block)
    requires b.order > 0
    ensures Within(Left(b), b) && Within(Right(b), b)
    ensures Parent(Left(b)) == b && Parent(Right(b)) == b
    ensures Sibling(Left(b)) == Right(b) && Sibling(Right(b)) == Left(b)
    ensures Apart(Left(b), Right(b))
    ensures Left(b) != b && Right(b) != b
  {
    assert Shr(2 * b.index, 1) == Shr(b.index, 0);
    assert Shr(2 * b.index + 1, 1) == Shr(b.index, 0);
  }

  lemma Siblings(b: Block)
    ensures Parent(Sibling(b)) == Parent(b) && Sibling(Sibling(b)) == b
    ensures {b, Sibling(b)} == {Left(Parent(b)), Right(Parent(b))}
  {
  }

  lemma WithinRoot(b: Block, top: nat)
    requires InPool(top, b)
    ensures b.order <= top
    ensures b.order == top ==> b == Block(top, 0)
    ensures b.order < top ==> InPool(top, Parent(b)) && InPool(top, Sibling(b))
  {
    if b.order < top {
      WithinParent(b, Block(top, 0));
      Siblings(b);
      Halves(Parent(b));
      WithinTransitive(Sibling(b), Parent(b), Block(top, 0));
    }
  }

  // ---------- tilings ----------

  ghost predicate Inside(top: nat, all: set<Block>) {
    forall b :: b in all ==> InPool(top, b)
  }

  ghost predicate PairwiseApart(all: set<Block>) {
    forall a, b :: a in all && b in all && a != b ==> Apart(a, b)
  }

  ghost predicate Covers(all: set<Block>, page: nat) {
    exists b :: b in all && Within(Block(0, page), b)
  }

  ghost predicate Covering(top: nat, all: set<Block>) {
    forall page: nat :: InPool(top, Block(0, page)) ==> Covers(all, page)
  }

  /** No two free blocks could be merged. */
  ghost predicate Reduced(top: nat, free: set<Block>) {
    forall b :: b in free && b.order < top ==> Sibling(b) !in free
  }

  ghost predicate Tiling(top: nat, all: set<Block>) {
    Inside(top, all) && PairwiseApart(all) && Covering(top, all)
  }

  /** Free and used blocks tile the pool, and the free ones are fully merged. */
  ghost predicate Tiled(top: nat, free: set<Block>, used: set<Block>) {
    Tiling(top, free + used) && free !! used && Reduced(top, free)
  }

  lemma WholePool(top: nat)
    ensures Tiled(top, {Block(top, 0)}, {})
  {
    forall page: nat | InPool(top, Block(0, page))
      ensures Covers({Block(top, 0)}, page)
    {
      assert Within(Block(0, page), Block(top, 0));
    }
    assert {Block(top, 0)} + {} == {Block(top, 0)};
  }

  lemma SplitTiling(top: nat, all: set<Block>, b: Block)
    requires Tiling(top, all) && b in all && b.order > 0
    ensures Tiling(top, all - {b} + {Left(b), Right(b)})
  {
    hide Within;
    var l, r, parts := Left(b), Right(b), all - {b} + {Left(b), Right(b)};
    Halves(b);
    WithinTransitive(l, b, Block(top, 0));
    WithinTransitive(r, b, Block(top, 0));
    forall a | a in all && a != b
      ensures Apart(a, l) && Apart(a, r)
    {
      ApartFromPart(a, b, l);
      ApartFromPart(a, b, r);
    }
    forall page: nat | InPool(top, Block(0, page))
      ensures Covers(parts, page)
    {
      assert Covers(all, page);
      var c :| c in all && Within(Block(0, page), c);
      if c == b {
        WithinHalf(Block(0, page), b);
        assert l in parts && r in parts;
      } else {
        assert c in parts;
      }
    }
  }

  lemma ApartFromPart(a: Block, b: Block, part: Block)
    requires Apart(a, b) && Within(part, b)
    ensures Apart(a, part)
  {
    if Within(a, part) {
      WithinTransitive(a, part, b);
    } else if Within(part, a) {
      if a.order <= b.order {
        WithinNested(part, a, b);
      } else {
        WithinNested(part, b, a);
      }
    }
  }

  lemma MergeTiling(top: nat, all: set<Block>, b: Block)
    requires Tiling(top, all) && b.order > 0 && Left(b) in all && Right(b) in all
    requires InPool(top, b)
    ensures Tiling(top, all - {Left(b), Right(b)} + {b})
  {
    hide Within;
    var l, r, whole := Left(b), Right(b), all - {Left(b), Right(b)} + {b};
    Halves(b);
    forall a | a in all && a != l && a != r
      ensures Apart(a, b)
    {
      ApartFromWhole(a, b);
    }
    forall page: nat | InPool(top, Block(0, page))
      ensures Covers(whole, page)
    {
      assert Covers(all, page);
      var c :| c in all && Within(Block(0, page), c);
      if c == l || c == r {
        WithinTransitive(Block(0, page), c, b);
        assert b in whole;
      } else {
        assert c in whole;
      }
    }
  }

  lemma ApartFromWhole(a: Block, b: Block)
    requires b.order > 0 && Apart(a, Left(b)) && Apart(a, Right(b))
    ensures Apart(a, b)
  {
    Halves(b);
    if Within(b, a) {
      WithinTransitive(Left(b), b, a);
    } else if Within(a, b) {
      WithinHalf(a, b);
    }
  }

  // ---------- the four moves of the allocator ----------

  lemma Take(top: nat, free: set<Block>, used: set<Block>, b: Block)
    requires Tiled(top, free, used) && b in free
    ensures Tiled(top, free - {b}, used + {b})
  {
    assert (free - {b}) + (used + {b}) == free + used;
  }

  lemma GiveBack(top: nat, free: set<Block>, used: set<Block>, b: Block)
    requires Tiled(top, free, used) && b in used
    requires b.order < top ==> Sibling(b) !in free
    ensures Tiled(top, free + {b}, used - {b})
  {
    assert (free + {b}) + (used - {b}) == free + used;
    forall a | a in free + {b} && a.order < top
      ensures Sibling(a) !in free + {b}
    {
      Siblings(a);
    }
  }

  lemma Split(top: nat, free: set<Block>, used: set<Block>, b: Block)
    requires Tiled(top, free, used) && b in used && b.order > 0
    ensures Tiled(top, free + {Right(b)}, used - {b} + {Left(b)})
  {
    hide Within;
    SplitTiling(top, free + used, b);
    Halves(b);
    var free', used' := free + {Right(b)}, used - {b} + {Left(b)};
    NotAlreadyPresent(top, free + used, b, Left(b));
    NotAlreadyPresent(top, free + used, b, Right(b));
    assert free' + used' == free + used - {b} + {Left(b), Right(b)};
    forall a | a in free' && a.order < top
      ensures Sibling(a) !in free'
    {
      Siblings(a);
    }
  }

  lemma NotAlreadyPresent(top: nat, all: set<Block>, b: Block, part: Block)
    requires Tiling(top, all) && b in all && Within(part, b) && part != b
    ensures part !in all
  {
  }

  lemma Merge(top: nat, free: set<Block>, used: set<Block>, b: Block)
    requires Tiled(top, free, used) && b in used && b.order < top && Sibling(b) in free
    ensures Tiled(top, free - {Sibling(b)}, used - {b} + {Parent(b)})
  {
    hide Within;
    Siblings(b);
    Halves(Parent(b));
    WithinRoot(b, top);
    MergeTiling(top, free + used, Parent(b));
    var free', used' := free - {Sibling(b)}, used - {b} + {Parent(b)};
    if Parent(b) in free + used {
      NotAlreadyPresent(top, free + used, Parent(b), b);
    }
    assert free' + used' == free + used - {Left(Parent(b)), Right(Parent(b))} + {Parent(b)};
  }

  // ---------- canonical form ----------

  /** No page of b belongs to a used block. */
  ghost predicate Vacant(used: set<Block>, b: Block) {
    forall u :: u in used ==> Apart(u, b)
  }

  /** b is a naturally aligned vacant run that no larger aligned vacant run contains. */
  ghost predicate MaximalGap(top: nat, used: set<Block>, b: Block) {
    InPool(top, b) && Vacant(used, b) && (b.order < top ==> !Vacant(used, Parent(b)))
  }

  lemma {:induction false} VacantRunIsInFreeBlock(top: nat, free: set<Block>, used: set<Block>, b: Block)
    returns (c: Block)
    requires Tiled(top, free, used) && InPool(top, b) && Vacant(used, b)
    ensures c in free && Within(b, c)
    decreases b.order
  {
    hide Within;
    if b.order == 0 {
      assert Covers(free + used, b.index);
      c :| c in free + used && Within(b, c);
    } else {
      var l, r := Left(b), Right(b);
      Halves(b);
      WithinRoot(b, top);
      WithinTransitive(l, b, Block(top, 0));
      WithinTransitive(r, b, Block(top, 0));
      VacantHalf(used, b, l);
      VacantHalf(used, b, r);
      c := VacantRunIsInFreeBlock(top, free, used, l);
      if c == l {
        c := VacantRunIsInFreeBlock(top, free, used, r);
        assert c != r;
        WithinParent(r, c);
      } else {
        WithinParent(l, c);
      }
    }
  }

  lemma VacantHalf(used: set<Block>, b: Block, half: Block)
    requires Vacant(used, b) && Within(half, b)
    ensures Vacant(used, half)
  {
    forall u | u in used
      ensures Apart(u, half)
    {
      ApartFromPart(u, b, half);
    }
  }

  /** The free blocks are exactly the maximal gaps between the used ones. */
  lemma CanonicalForm(top: nat, free: set<Block>, used: set<Block>, b: Block)
    requires Tiled(top, free, used)
    ensures b in free <==> MaximalGap(top, used, b)
  {
    hide Within;
    if b in free {
      assert Vacant(used, b);
      if b.order < top && Vacant(used, Parent(b)) {
        WithinRoot(b, top);
        var c := VacantRunIsInFreeBlock(top, free, used, Parent(b));
        Siblings(b);
        Halves(Parent(b));
        WithinTransitive(b, Parent(b), c);
        assert c.order > b.order by { WithinOrder(Parent(b), c); }
      }
    } else if MaximalGap(top, used, b) {
      var c := VacantRunIsInFreeBlock(top, free, used, b);
      WithinParent(b, c);
      VacantHalf(used, c, Parent(b));
      WithinOrder(Parent(b), c);
      WithinOrder(c, Block(top, 0));
    }
  }

  lemma WithinOrder(a: Block, b: Block)
    requires Within(a, b)
    ensures a.order <= b.order
  {
  }

  lemma FreeSetIsDetermined(top: nat, free: set<Block>, free': set<Block>, used: set<Block>)
    requires Tiled(top, free, used) && Tiled(top, free', used)
    ensures free == free'
  {
    forall b
      ensures b in free <==> b in free'
    {
      CanonicalForm(top, free, used, b);
      CanonicalForm(top, free', used, b);
    }
  }
}
