/** Request sizes and page orders of the buddy allocator, in 64-bit machine arithmetic. */
module BuddyRounding {
  import opened Bits
  import opened Common

  /** The least k with 64 * 2^k >= bytes. */
  function OrderFor(bytes: nat): (k: nat)
    ensures PAGE_SIZE * Pow2(k) >= bytes
    ensures k > 0 ==> PAGE_SIZE * Pow2(k - 1) < bytes
  {
    if bytes <= PAGE_SIZE then 0 else 1 + OrderFor((bytes + 1) / 2)
  }

  lemma OrderForUnique(bytes: nat, k: nat)
    requires PAGE_SIZE * Pow2(k) >= bytes
    requires k > 0 ==> PAGE_SIZE * Pow2(k - 1) < bytes
    ensures k == OrderFor(bytes)
  {
    var o := OrderFor(bytes);
    if k < o {
      Pow2Monotonic(k, o - 1);
    } else if o < k {
      Pow2Monotonic(o, k - 1);
    }
  }

  lemma Pow2Values()
    ensures Pow2(57) == 0x200_0000_0000_0000
    ensures Pow2(58) == 0x400_0000_0000_0000
  {
    assert Pow2(10) == 1024;
    Pow2Add(10, 10);
    Pow2Add(20, 20);
    assert Pow2(7) == 128;
    Pow2Add(10, 7);
    Pow2Add(40, 17);
  }

  /** A page count needs at most 57 doublings exactly when the byte size is at most 2^63. */
  lemma OrderWithinWord(bytes: nat)
    ensures OrderFor(bytes) <= 57 <==> bytes <= WORD / 2
  {
    Pow2Values();
    if OrderFor(bytes) <= 57 {
      Pow2Monotonic(OrderFor(bytes), 57);
    } else {
      Pow2Monotonic(57, OrderFor(bytes) - 1);
    }
  }

  /** Every one of the t bits from position h downwards is set in x, and none above h. */
  ghost predicate TopRun(x: nat, h: nat, t: nat) {
    x < Pow2(h + 1) && forall i: nat :: i <= h < i + t ==> Bit(x, i)
  }

  lemma SmearDoublesRun(x: nat, h: nat, t: nat)
    requires TopRun(x, h, t)
    ensures TopRun(Smear(x, t), h, 2 * t)
  {
    ShrAtMost(x, t);
    OrBelow(x, Shr(x, t), h + 1);
    forall i: nat | i <= h < i + 2 * t
      ensures Bit(Or(x, Shr(x, t)), i)
    {
      BitOfSmear(x, t, i);
    }
  }

  lemma {:induction false} HighestBit(x: nat) returns (h: nat)
    requires x >= 1
    ensures Pow2(h) <= x < Pow2(h + 1)
  {
    if x == 1 {
      h := 0;
    } else {
      var g := HighestBit(x / 2);
      h := g + 1;
    }
  }

  /** x is the least power of two that is at least `count`. */
  ghost predicate LeastPower(x: nat, count: nat) {
    IsPow2(x) && x / 2 < count <= x
  }

  /** Bit smearing: the least power of two that is at least a count which is not one itself. */
  method RoundUpPages(count: nat) returns (pages: nat)
    requires 3 <= count < Pow2(58)
    ensures LeastPower(pages, count)
  {
    hide *;
    pages := count - 1;
    pages := Smear(pages, 1);
    pages := Smear(pages, 2);
    pages := Smear(pages, 4);
    pages := Smear(pages, 8);
    pages := Smear(pages, 16);
    pages := Smear(pages, 32);
    SmearedIsLeastPower(count, pages);
    pages := Wrapped(pages + 1);
  }

  /** 64-bit arithmetic drops what does not fit. */
  function Wrapped(x: nat): nat {
    x % WORD
  }

  function Smear(x: nat, t: nat): nat {
    Or(x, Shr(x, t))
  }

  /** Six smears set every bit below the highest one of count - 1, so the next number is the least power. */
  lemma SmearedIsLeastPower(count: nat, pages: nat)
    requires 3 <= count < Pow2(58)
    requires pages == Smear(Smear(Smear(Smear(Smear(Smear(count - 1, 1), 2), 4), 8), 16), 32)
    ensures LeastPower(Wrapped(pages + 1), count)
  {
    var x := count - 1;
    var h := HighestBit(x);
    OneBitRun(x, h);
    hide *;
    SmearDoublesRun(x, h, 1);
    SmearDoublesRun(Smear(x, 1), h, 2);
    SmearDoublesRun(Smear(Smear(x, 1), 2), h, 4);
    SmearDoublesRun(Smear(Smear(Smear(x, 1), 2), 4), h, 8);
    SmearDoublesRun(Smear(Smear(Smear(Smear(x, 1), 2), 4), 8), h, 16);
    SmearDoublesRun(Smear(Smear(Smear(Smear(Smear(x, 1), 2), 4), 8), 16), h, 32);
    FullRun(pages, count, h);
  }

  lemma OneBitRun(x: nat, h: nat)
    requires Pow2(h) <= x < Pow2(h + 1) && x < Pow2(58)
    ensures TopRun(x, h, 1) && h <= 57
  {
    TopBit(x, h);
    if h > 57 { Pow2Monotonic(58, h); }
  }

  lemma FullRun(x: nat, count: nat, h: nat)
    requires TopRun(x, h, 64) && h <= 57
    requires Pow2(h) <= count - 1 < Pow2(h + 1)
    ensures LeastPower(Wrapped(x + 1), count)
  {
    AllOnes(x, h + 1);
    Pow2Values();
    Pow2Monotonic(h + 1, 58);
  }

  /** The byte size the allocator grants for a request, 0 when no such size fits in a word. */
  function BuddySize(bytes: nat): nat {
    if bytes <= WORD / 2 then PAGE_SIZE * Pow2(OrderFor(bytes)) else 0
  }

  /** The page count computed with 64-bit wraparound is exact unless the addition overflows, and then it is 0. */
  lemma PageCount(bytes: nat, pages: nat)
    requires 0 < bytes < WORD
    requires pages == (bytes + PAGE_SIZE - 1) % WORD / PAGE_SIZE
    ensures bytes <= WORD - PAGE_SIZE ==> PAGE_SIZE * (pages - 1) < bytes <= PAGE_SIZE * pages 
    ensures bytes > WORD - PAGE_SIZE ==> pages == 0 && BuddySize(bytes) == 0
    ensures pages < Pow2(58)
  {
    Pow2Values();
    if bytes > WORD - PAGE_SIZE {
      assert (bytes + PAGE_SIZE - 1) % WORD == bytes + PAGE_SIZE - 1 - WORD;
    } else {
      assert (bytes + PAGE_SIZE - 1) % WORD == bytes + PAGE_SIZE - 1;
    }
  }

  lemma LeastPowerOrder(bytes: nat, count: nat, pages: nat) returns (k: nat)
    requires PAGE_SIZE * (count - 1) < bytes <= PAGE_SIZE * count && count < Pow2(58)
    requires LeastPower(pages, count)
    ensures pages == Pow2(k) && k == OrderFor(bytes) && k <= 58
  {
    k :| pages == Pow2(k);
    assert count <= Pow2(k) && (k > 0 ==> Pow2(k - 1) <= count - 1);
    hide OrderFor, Pow2, LeastPower;
    OrderForUnique(bytes, k);
    if k > 58 { Pow2Monotonic(58, k - 1); }
  }

  lemma OrderSize(k: nat)
    requires k <= 58
    ensures Pow2(k) * PAGE_SIZE % WORD == if k <= 57 then PAGE_SIZE * Pow2(k) else 0
  {
    Pow2Values();
    if k <= 57 {
      Pow2Monotonic(k, 57);
    }
  }

  lemma PowerOfTwoPages(bytes: nat, count: nat, pages: nat)
    requires PAGE_SIZE * (count - 1) < bytes <= PAGE_SIZE * count && count < Pow2(58)
    requires LeastPower(pages, count)
    ensures pages * PAGE_SIZE % WORD == BuddySize(bytes)
  {
    hide Pow2, OrderFor, LeastPower;
    var k := LeastPowerOrder(bytes, count, pages);
    OrderWithinWord(bytes);
    OrderSize(k);
  }

  /** Rounds a 64-bit byte count up to a power-of-two number of pages. */
  method RoundToBuddySize(bytes: nat) returns (r: nat)
    requires bytes < WORD
    ensures r == BuddySize(bytes)
  {
    hide Pow2, OrderFor, And, BuddySize, LeastPower, IsPow2;
    if bytes == 0 {
      SmallestSize();
      return PAGE_SIZE;
    }
    var pages := (bytes + PAGE_SIZE - 1) % WORD / PAGE_SIZE;
    PageCount(bytes, pages);
    ghost var count := pages;
    PowerTest(count);
    if And(pages, (pages - 1) % WORD) != 0 {
      pages := RoundUpPages(pages);
    }
    if count > 0 {
      PowerOfTwoPages(bytes, count, pages);
    }
    return pages * PAGE_SIZE % WORD;
  }

  lemma SmallestSize()
    ensures BuddySize(0) == PAGE_SIZE
  {
  }

  /** The zero test of `pages & (pages - 1)` holds of 0 and of the powers of two. */
  lemma PowerTest(pages: nat)
    requires pages < Pow2(58)
    ensures And(pages, (pages - 1) % WORD) == 0 <==> pages == 0 || IsPow2(pages)
    ensures IsPow2(pages) ==> LeastPower(pages, pages)
    ensures pages in {1, 2} ==> IsPow2(pages)
  {
    Pow2Values();
    assert Pow2(0) == 1 && Pow2(1) == 2;
    if pages > 0 {
      assert (pages - 1) % WORD == pages - 1;
      hide *;
      AndWithPredecessor(pages);
      OwnLeastPower(pages);
    }
  }

  lemma OwnLeastPower(pages: nat)
    ensures IsPow2(pages) ==> LeastPower(pages, pages)
  {
  }

  /** The order of a whole power-of-two number of pages, -1 for any other size. */
  method OrderOf(bytes: nat) returns (order: int)
    requires bytes < WORD
    ensures order >= 0 ==> bytes / PAGE_SIZE == Pow2(order)
    ensures order < 0 ==> order == -1 && !IsPow2(bytes / PAGE_SIZE)
  {
    if bytes < PAGE_SIZE {
      return -1;
    }
    var pages := bytes / PAGE_SIZE;
    AndWithPredecessor(pages);
    if And(pages, pages - 1) != 0 {
      return -1;
    }
    ghost var k: nat :| pages == Pow2(k);
    order := 0;
    while pages > 1
      invariant 0 <= order <= k && pages == Pow2(k - order)
      decreases pages
    {
      assert Shr(pages, 1) == Shr(pages / 2, 0);
      pages := Shr(pages, 1);
      order := order + 1;
    }
  }
}
