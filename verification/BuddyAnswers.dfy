/** Which block a call of the buddy allocator takes or gives back, and what that does to each free list. */
module BuddyAnswers {
  import opened Bits
  import opened Common
  import opened BuddyTree
  import opened BuddyRounding
  import opened BuddyModel

  /** The lists after a block of order n was cut down to order r: each order on the way gets the half behind. */
  ghost predicate CutDown(lists: seq<seq<nat>>, lists': seq<seq<nat>>, i: nat, n: nat, r: nat) {
    && r <= n < |lists| == |lists'|
    && (forall k: nat :: k < |lists| && (k < r || k >= n) ==> lists'[k] == lists[k])
    && (forall k: nat :: r <= k < n ==> lists'[k] == [Leftmost(i, n - k) + 1] + lists[k])
  }

  /** Splitting down keeps the lowest part; each order on the way gets the half that lies behind it, at its head. */
  lemma {:induction false} SplitDownIs(lists: seq<seq<nat>>, b: Block, r: nat)
    requires r <= b.order < |lists|
    ensures var (lists', c) := SplitDown(lists, b, r);
      c == Block(r, Leftmost(b.index, b.order - r)) && CutDown(lists, lists', b.index, b.order, r)
    decreases b.order
  {
    if r < b.order {
      var k := b.order - 1;
      SplitDownIs(lists[k := [Right(b).index] + lists[k]], Left(b), r);
      forall d: nat
        ensures Leftmost(2 * b.index, d) == Leftmost(b.index, d + 1)
      {
        LeftmostDouble(b.index, d);
      }
    }
  }

  lemma {:induction false} LeftmostDouble(i: nat, d: nat)
    ensures Leftmost(2 * i, d) == Leftmost(i, d + 1)
  {
    if d > 0 {
      LeftmostDouble(i, d - 1);
    }
  }

  lemma {:induction false} LeftmostIs(i: nat, d: nat)
    ensures Leftmost(i, d) == i * Pow2(d)
  {
    if d > 0 {
      LeftmostIs(i, d - 1);
      assert Pow2(d) == 2 * Pow2(d - 1);
      assert i * (2 * Pow2(d - 1)) == 2 * (i * Pow2(d - 1));
    }
  }

  /**
   The lists and live blocks after the lowest part, of order r, of the block at the head of list f was granted under the
   next id: the lists between get the other parts.
   */
  ghost predicate Grants(s: State, s': State, r: nat, f: nat) {
    && r <= f < |s.lists| == |s'.lists| && s.lists[f] != []
    && s'.nextId == s.nextId + 1 && s'.live == s.live[s.nextId := Block(r, s.lists[f][0] * Pow2(f - r))]
    && s'.lists[f] == s.lists[f][1..]
    && (forall k: nat :: r <= k < f ==> s'.lists[k] == [s.lists[f][0] * Pow2(f - k) + 1])
    && (forall k: nat :: k < |s.lists| && (k < r || k > f) ==> s'.lists[k] == s.lists[k])
  }

  /**
   A granted block is the lowest part of the block at the head of the first list from its order up that is not
   empty. The lists between get the other parts, which are all they hold then; id numbers count up.
   */
  lemma AllocatePlace(s: State, bytes: nat) returns (f: nat)
    requires Inv(s) && Allocate(s, bytes).1 != -1
    ensures var ((s', id), r) := (Allocate(s, bytes), OrderFor(bytes));
      id == s.nextId && Grants(s, s', r, f) && forall k :: r <= k < f ==> s.lists[k] == []
  {
    hide SplitDown, OrderFor, Pow2, Leftmost, Inv;
    var r := OrderFor(bytes);
    f := FirstOrder(s.lists, r);
    var i := s.lists[f][0];
    SplitDownIs(s.lists[f := s.lists[f][1..]], Block(f, i), r);
    forall d: nat
      ensures Leftmost(i, d) == i * Pow2(d)
    {
      LeftmostIs(i, d);
    }
  }

  /** The first allocation of a new pool gets id 1 and the bytes from address 0 on. */
  lemma FirstAllocation(top: nat, bytes: nat)
    requires bytes > 0 && OrderFor(bytes) <= top
    ensures var (s', id) := Allocate(Fresh(top), bytes);
      id == 1 && 1 in s'.live && s'.live[1] == Block(OrderFor(bytes), 0)
  {
    hide SplitDown, OrderFor, Pow2, Inv;
    FreshInv(top);
    var s := Fresh(top);
    assert s.lists[top] == [0];
    assert FirstOrder(s.lists, OrderFor(bytes)) <= top;
    var f := AllocatePlace(s, bytes);
    hide Allocate;
  }

  /** The index of the block of order k around block b. */
  function Around(b: Block, k: nat): nat
    requires b.order <= k
  {
    Shr(b.index, k - b.order)
  }

  function Other(i: nat): nat {
    if i % 2 == 0 then i + 1 else i - 1
  }

  lemma {:induction false} WithoutLosesOne(s: seq<nat>, x: nat)
    requires Distinct(s)
    ensures x in s ==> LostOne(s, Without(s, x), x)
    ensures x !in s ==> Without(s, x) == s
  {
    if s != [] {
      var y, rest := s[0], s[1..];
      assert s == [y] + rest && y !in rest && Distinct(rest);
      WithoutLosesOne(rest, x);
      ConsLost(y, rest, Without(rest, x), x);
      hide LostOne, Distinct;
    }
  }

  /** The lists after block b was given back and joined with the other halves up to order m. */
  ghost predicate Merged(lists: seq<seq<nat>>, lists': seq<seq<nat>>, b: Block, m: nat) {
    && b.order <= m < |lists| == |lists'|
    && (forall k :: b.order <= k < m ==> LostOne(lists[k], lists'[k], Other(Around(b, k))))
    && (m == |lists| - 1 || Other(Around(b, m)) !in lists[m])
    && lists'[m] == [Around(b, m)] + lists[m]
    && (forall k :: 0 <= k < |lists| && !(b.order <= k <= m) ==> lists'[k] == lists[k])
  }

  lemma {:induction false} MergeUpIs(lists: seq<seq<nat>>, b: Block) returns (m: nat)
    requires b.order < |lists| && forall k :: 0 <= k < |lists| ==> Distinct(lists[k])
    ensures Merged(lists, MergeUp(lists, b), b, m)
    decreases |lists| - b.order
  {
    var k := b.order;
    assert Around(b, k) == b.index;
    if k < Top(lists) && Sibling(b).index in lists[k] {
      var next := lists[k := Without(lists[k], Sibling(b).index)];
      WithoutLosesOne(lists[k], Sibling(b).index);
      WithoutKeepsDistinct(lists[k], Sibling(b).index);
      m := MergeUpIs(next, Parent(b));
      assert forall j: nat :: k < j ==> Around(Parent(b), j) == Around(b, j);
      hide LostOne, Distinct, Without;
    } else {
      m := k;
    }
  }

  /**
   A freed block is joined with the other half of the block around it as long as that half is free, and what comes
   out is put at the head of its list; each list on the way loses just that half.
   */
  lemma DeallocatePlace(s: State, id: int) returns (m: nat)
    requires Inv(s) && id in s.live
    ensures var s' := Deallocate(s, id);
      Merged(s.lists, s'.lists, s.live[id], m) && s'.live == s.live - {id} && s'.nextId == s.nextId
  {
    UsedInPool(s.lists, UsedBlocks(s.live), s.live[id]);
    m := MergeUpIs(s.lists, s.live[id]);
    hide MergeUp, Merged;
  }
}
