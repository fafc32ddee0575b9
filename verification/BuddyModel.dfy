/**
 The buddy allocator on values: for each order the list of free block indices, newest first, and the
 blocks handed out by id. Operations and runs, and what every run keeps.
 */
module BuddyModel {
  import opened Bits
  import opened Common
  import opened BuddyTree
  import opened BuddyRounding

  datatype State = State(lists: seq<seq<nat>>, live: map<int, Block>, nextId: int)

  function Top(lists: seq<seq<nat>>): int {
    |lists| - 1
  }

  predicate IsFree(lists: seq<seq<nat>>, b: Block) {
    b.order < |lists| && b.index in lists[b.order]
  }

  ghost function FreeBlocks(lists: seq<seq<nat>>): (free: set<Block>)
    ensures forall b :: b in free <==> IsFree(lists, b)
  {
    set k: nat, i | k < |lists| && i in lists[k] :: Block(k, i)
  }

  ghost function UsedBlocks(live: map<int, Block>): set<Block> {
    set id | id in live :: live[id]
  }

  function Without(s: seq<nat>, x: nat): (r: seq<nat>)
    ensures forall y :: y in r <==> y in s && y != x
  {
    if s == [] then []
    else if s[0] == x then Without(s[1..], x)
    else [s[0]] + Without(s[1..], x)
  }

  function Fresh(top: nat): State {
    State(seq(top, _ => []) + [[0]], map[], 1)
  }

  // ---------- operations ----------

  /** The first non-empty order from k up, |lists| if there is none. */
  function FirstOrder(lists: seq<seq<nat>>, k: nat): (f: nat)
    requires k <= |lists|
    ensures k <= f <= |lists|
    ensures f < |lists| ==> lists[f] != []
    ensures forall j :: k <= j < f ==> lists[j] == []
    decreases |lists| - k
  {
    if k == |lists| || lists[k] != [] then k else FirstOrder(lists, k + 1)
  }

  /** Halves a held block down to order r, freeing the upper half each time. */
  function SplitDown(lists: seq<seq<nat>>, b: Block, r: nat): (seq<seq<nat>>, Block)
    requires r <= b.order < |lists|
    decreases b.order
  {
    if b.order == r then (lists, b)
    else
      var k := b.order - 1;
      SplitDown(lists[k := [Right(b).index] + lists[k]], Left(b), r)
  }

  /** Frees a held block after joining it with its sibling as often as that is free. */
  function MergeUp(lists: seq<seq<nat>>, b: Block): seq<seq<nat>>
    requires b.order < |lists|
    decreases |lists| - b.order
  {
    var k := b.order;
    if k < Top(lists) && Sibling(b).index in lists[k]
    then MergeUp(lists[k := Without(lists[k], Sibling(b).index)], Parent(b))
    else lists[k := [b.index] + lists[k]]
  }

  /** Takes the head of list f and cuts it down to order r. */
  function Carve(lists: seq<seq<nat>>, f: nat, r: nat): (seq<seq<nat>>, Block)
    requires r <= f < |lists| && lists[f] != []
  {
    SplitDown(lists[f := lists[f][1..]], Block(f, lists[f][0]), r)
  }

  function Grant(s: State, f: nat, r: nat): State
    requires r <= f < |s.lists| && s.lists[f] != []
  {
    var (lists, b) := Carve(s.lists, f, r);
    State(lists, s.live[s.nextId := b], s.nextId + 1)
  }

  function Allocate(s: State, bytes: nat): (State, int) {
    var r := OrderFor(bytes);
    if bytes == 0 || r > Top(s.lists) then (s, -1)
    else
      var f := FirstOrder(s.lists, r);
      if f == |s.lists| then (s, -1)
      else
        (Grant(s, f, r), s.nextId)
  }

  // ---------- the invariant ----------

  ghost predicate Held(lists: seq<seq<nat>>, used: set<Block>) {
    && |lists| > 0
    && (forall k :: 0 <= k < |lists| ==> Distinct(lists[k]))
    && Tiled(Top(lists), FreeBlocks(lists), used)
  }

  ghost predicate Inv(s: State) {
    && Held(s.lists, UsedBlocks(s.live))
    && (forall i, j :: i in s.live && j in s.live && i != j ==> s.live[i] != s.live[j])
    && (forall i :: i in s.live ==> 1 <= i < s.nextId)
    && s.nextId >= 1
  }

  ghost function Deallocate(s: State, id: int): State
    requires id in s.live ==> Inv(s)
  {
    if id !in s.live then s
    else
      UsedInPool(s.lists, UsedBlocks(s.live), s.live[id]);
      State(MergeUp(s.lists, s.live[id]), s.live - {id}, s.nextId)
  }

  lemma UsedInPool(lists: seq<seq<nat>>, used: set<Block>, b: Block)
    requires Held(lists, used) && b in used
    ensures InPool(Top(lists), b) && b.order < |lists|
  {
    assert b in FreeBlocks(lists) + used;
  }

  lemma FreshInv(top: nat)
    ensures Inv(Fresh(top)) && Top(Fresh(top).lists) == top
  {
    var s := Fresh(top);
    WholePool(top);
    assert FreeBlocks(s.lists) == {Block(top, 0)};
    assert UsedBlocks(s.live) == {};
  }

  lemma {:induction false} WithoutKeepsDistinct(s: seq<nat>, x: nat)
    requires Distinct(s)
    ensures Distinct(Without(s, x))
  {
    if s != [] {
      var rest := Without(s[1..], x);
      WithoutKeepsDistinct(s[1..], x);
      assert s[0] !in s[1..];
      assert forall j :: 0 <= j < |rest| ==> rest[j] in rest;
    }
  }

  lemma PopHeld(lists: seq<seq<nat>>, used: set<Block>, k: nat)
    requires Held(lists, used) && k < |lists| && lists[k] != []
    ensures Held(lists[k := lists[k][1..]], used + {Block(k, lists[k][0])})
    ensures Block(k, lists[k][0]) in FreeBlocks(lists)
  {
    var b := Block(k, lists[k][0]);
    var lists' := lists[k := lists[k][1..]];
    assert FreeBlocks(lists') == FreeBlocks(lists) - {b};
    Take(Top(lists), FreeBlocks(lists), used, b);
  }

  lemma PushHeld(lists: seq<seq<nat>>, b: Block)
    requires b.order < |lists|
    requires forall k :: 0 <= k < |lists| ==> Distinct(lists[k])
    requires !IsFree(lists, b)
    ensures var lists' := lists[b.order := [b.index] + lists[b.order]];
      && FreeBlocks(lists') == FreeBlocks(lists) + {b}
      && forall k :: 0 <= k < |lists'| ==> Distinct(lists'[k])
  {
    var lists' := lists[b.order := [b.index] + lists[b.order]];
    forall c
      ensures IsFree(lists', c) <==> IsFree(lists, c) || c == b
    {
    }
  }

  lemma {:induction false} SplitDownHeld(lists: seq<seq<nat>>, used: set<Block>, b: Block, r: nat)
    requires Held(lists, used) && b in used && r <= b.order < |lists|
    ensures var (lists', c) := SplitDown(lists, b, r);
      && |lists'| == |lists| && Held(lists', used - {b} + {c}) && c.order == r && Within(c, b)
    decreases b.order
  {
    hide Held, Within;
    if b.order == r {
      assert used - {b} + {b} == used;
      WithinSelf(b);
    } else {
      SplitStep(lists, used, b);
      var k := b.order - 1;
      var next := lists[k := [Right(b).index] + lists[k]];
      SplitDownHeld(next, used - {b} + {Left(b)}, Left(b), r);
      var c := SplitDown(lists, b, r).1;
      SplitStepGone(lists, used, b);
      assert used - {b} + {Left(b)} - {Left(b)} + {c} == used - {b} + {c};
      Halves(b);
      WithinTransitive(c, Left(b), b);
    }
  }

  lemma WithinSelf(b: Block)
    ensures Within(b, b)
  {
  }

  lemma SplitStep(lists: seq<seq<nat>>, used: set<Block>, b: Block)
    requires Held(lists, used) && b in used && 0 < b.order < |lists|
    ensures Held(lists[b.order - 1 := [Right(b).index] + lists[b.order - 1]], used - {b} + {Left(b)})
  {
    hide Tiled, Within;
    Split(Top(lists), FreeBlocks(lists), used, b);
    SplitStepGone(lists, used, b);
    PushHeld(lists, Right(b));
  }

  lemma SplitStepGone(lists: seq<seq<nat>>, used: set<Block>, b: Block)
    requires Held(lists, used) && b in used && 0 < b.order < |lists|
    ensures !IsFree(lists, Right(b)) && Left(b) !in used
  {
    Halves(b);
    NotAlreadyPresent(Top(lists), FreeBlocks(lists) + used, b, Right(b));
    NotAlreadyPresent(Top(lists), FreeBlocks(lists) + used, b, Left(b));
  }

  lemma {:induction false} MergeUpHeld(lists: seq<seq<nat>>, used: set<Block>, b: Block)
    requires Held(lists, used) && b in used && b.order < |lists|
    ensures |MergeUp(lists, b)| == |lists| && Held(MergeUp(lists, b), used - {b})
    decreases |lists| - b.order
  {
    var k := b.order;
    if k < Top(lists) && Sibling(b).index in lists[k] {
      MergeStep(lists, used, b);
      var next := lists[k := Without(lists[k], Sibling(b).index)];
      MergeUpHeld(next, used - {b} + {Parent(b)}, Parent(b));
      assert used - {b} + {Parent(b)} - {Parent(b)} == used - {b};
    } else {
      assert !IsFree(lists, b);
      GiveBack(Top(lists), FreeBlocks(lists), used, b);
      PushHeld(lists, b);
    }
  }

  lemma MergeStep(lists: seq<seq<nat>>, used: set<Block>, b: Block)
    requires Held(lists, used) && b in used && b.order < Top(lists) && IsFree(lists, Sibling(b))
    ensures Held(lists[b.order := Without(lists[b.order], Sibling(b).index)], used - {b} + {Parent(b)})
    ensures Parent(b) !in used
  {
    hide Tiled, Within;
    var k, sib := b.order, Sibling(b);
    var next := lists[k := Without(lists[k], sib.index)];
    WithoutKeepsDistinct(lists[k], sib.index);
    assert FreeBlocks(next) == FreeBlocks(lists) - {sib};
    Merge(Top(lists), FreeBlocks(lists), used, b);
    ParentNotUsed(lists, used, b);
  }

  lemma ParentNotUsed(lists: seq<seq<nat>>, used: set<Block>, b: Block)
    requires Held(lists, used) && b in used && b.order < Top(lists)
    ensures Parent(b) !in used
  {
    Siblings(b);
    Halves(Parent(b));
    if Parent(b) in used {
      NotAlreadyPresent(Top(lists), FreeBlocks(lists) + used, Parent(b), b);
    }
  }

  // ---------- what the operations do ----------

  /** Some naturally aligned run of 2^r pages has no used page. */
  ghost predicate RunAvailable(s: State, r: nat)
    requires |s.lists| > 0
  {
    exists b: Block :: b.order == r && InPool(Top(s.lists), b) && Vacant(UsedBlocks(s.live), b)
  }

  lemma FirstOrderFindsRun(s: State, r: nat)
    requires Inv(s) && r <= Top(s.lists)
    ensures FirstOrder(s.lists, r) < |s.lists| <==> RunAvailable(s, r)
  {
    var f, top, free, used := FirstOrder(s.lists, r), Top(s.lists), FreeBlocks(s.lists), UsedBlocks(s.live);
    if f < |s.lists| {
      var b := Block(f, s.lists[f][0]);
      assert b in free + used;
      LeftmostPart(b, r);
      var part := Block(r, Leftmost(b.index, f - r));
      WithinTransitive(part, b, Block(top, 0));
      CanonicalForm(top, free, used, b);
      VacantHalf(used, b, part);
    } else if RunAvailable(s, r) {
      var b: Block :| b.order == r && InPool(top, b) && Vacant(used, b);
      var c := VacantRunIsInFreeBlock(top, free, used, b);
      WithinOrder(b, c);
    }
  }

  function Leftmost(i: nat, d: nat): nat {
    if d == 0 then i else 2 * Leftmost(i, d - 1)
  }

  lemma {:induction false} LeftmostPart(b: Block, r: nat)
    requires r <= b.order
    ensures Within(Block(r, Leftmost(b.index, b.order - r)), b)
    decreases b.order - r
  {
    if r < b.order {
      LeftmostPart(b, r + 1);
      var above := Block(r + 1, Leftmost(b.index, b.order - r - 1));
      Halves(above);
      WithinTransitive(Left(above), above, b);
    }
  }

  /** Everything an allocation promises: when it fails, and what it grants otherwise. */
  lemma AllocateCorrect(s: State, bytes: nat)
    requires Inv(s)
    ensures var (s', id) := Allocate(s, bytes);
      && Inv(s') && |s'.lists| == |s.lists|
      && (id == -1 <==> bytes == 0 || !RunAvailable(s, OrderFor(bytes)))
      && (id == -1 ==> s' == s)
      && (id != -1 ==>
            && id !in s.live && id in s'.live && s'.live == s.live[id := s'.live[id]]
            && s'.live[id].order == OrderFor(bytes)
            && InPool(Top(s.lists), s'.live[id]) && Vacant(UsedBlocks(s.live), s'.live[id]))
  {
    var r := OrderFor(bytes);
    if bytes > 0 {
      if r > Top(s.lists) {
        assert !RunAvailable(s, r);
      } else {
        FirstOrderFindsRun(s, r);
        var f := FirstOrder(s.lists, r);
        if f < |s.lists| {
          GrantedBlock(s, f, r);
        }
      }
    }
  }

  /** A request above 2^63 bytes, whose rounded size wraps around to 0, never gets a block from a 64-bit pool. */
  lemma HugeRequestFails(s: State, bytes: nat)
    requires Inv(s) && Top(s.lists) <= 57 && bytes > WORD / 2
    ensures BuddySize(bytes) == 0 && Allocate(s, bytes) == (s, -1)
  {
    OrderWithinWord(bytes);
  }

  lemma GrantedBlock(s: State, f: nat, r: nat)
    requires Inv(s) && r <= f < |s.lists| && s.lists[f] != []
    ensures var (lists, b) := Carve(s.lists, f, r);
      && |lists| == |s.lists| && b.order == r && b !in UsedBlocks(s.live)
      && Held(lists, UsedBlocks(s.live) + {b})
      && Inv(Grant(s, f, r))
      && InPool(Top(s.lists), b) && Vacant(UsedBlocks(s.live), b)
  {
    hide Tiled, Within, InPool, SplitDown, FreeBlocks;
    var used, big := UsedBlocks(s.live), Block(f, s.lists[f][0]);
    var popped := s.lists[f := s.lists[f][1..]];
    PopHeld(s.lists, used, f);
    SplitDownHeld(popped, used + {big}, big, r);
    var (lists, b) := SplitDown(popped, big, r);
    FreeIsVacant(s.lists, used, big);
    assert used + {big} - {big} + {b} == used + {b};
    VacantHalf(used, big, b);
    SelfNotVacant(used, b);
    UsedInPool(lists, used + {b}, b);
    assert UsedBlocks(s.live[s.nextId := b]) == used + {b} by {
      AddedUsed(s.live, s.nextId, b);
    }
  }

  lemma AddedUsed(live: map<int, Block>, id: int, b: Block)
    requires id !in live
    ensures UsedBlocks(live[id := b]) == UsedBlocks(live) + {b}
  {
    var live' := live[id := b];
    forall c
      ensures c in UsedBlocks(live') <==> c in UsedBlocks(live) || c == b
    {
      assert forall i :: i in live ==> live'[i] == live[i];
      assert live'[id] == b;
    }
  }

  lemma RemovedUsed(live: map<int, Block>, id: int)
    requires id in live
    requires forall i, j :: i in live && j in live && i != j ==> live[i] != live[j]
    ensures UsedBlocks(live - {id}) == UsedBlocks(live) - {live[id]}
  {
    var live' := live - {id};
    forall c
      ensures c in UsedBlocks(live') <==> c in UsedBlocks(live) && c != live[id]
    {
      if c in UsedBlocks(live) && c != live[id] {
        var i :| i in live && live[i] == c;
        assert live'[i] == c;
      }
    }
  }

  lemma FreeIsVacant(lists: seq<seq<nat>>, used: set<Block>, b: Block)
    requires Held(lists, used) && b in FreeBlocks(lists)
    ensures Vacant(used, b) && b !in used
  {
    assert FreeBlocks(lists) !! used;
    CanonicalForm(Top(lists), FreeBlocks(lists), used, b);
  }

  lemma SelfNotVacant(used: set<Block>, b: Block)
    requires Vacant(used, b)
    ensures b !in used
  {
    WithinSelf(b);
  }

  /** Freeing gives back exactly the named block; an unknown id changes nothing. */
  lemma DeallocateCorrect(s: State, id: int)
    requires Inv(s)
    ensures var s' := Deallocate(s, id);
      Inv(s') && |s'.lists| == |s.lists| && s'.live == s.live - {id} && s'.nextId == s.nextId
  {
    hide Tiled, MergeUp, FreeBlocks;
    if id in s.live {
      UsedInPool(s.lists, UsedBlocks(s.live), s.live[id]);
      MergeUpHeld(s.lists, UsedBlocks(s.live), s.live[id]);
      RemovedUsed(s.live, id);
    }
  }

  // ---------- runs ----------

  datatype Op = Alloc(bytes: nat) | Free(id: int)

  ghost function Apply(s: State, op: Op): State
    requires Inv(s)
  {
    match op
    case Alloc(n) => Allocate(s, n).0
    case Free(id) => Deallocate(s, id)
  }

  ghost function Run(top: nat, ops: seq<Op>): (s: State)
    ensures Inv(s) && Top(s.lists) == top
  {
    if ops == [] then FreshInv(top); Fresh(top)
    else
      var s := Run(top, ops[..|ops| - 1]);
      var op := ops[|ops| - 1];
      assert Inv(Apply(s, op)) && |Apply(s, op).lists| == |s.lists| by {
        if op.Alloc? { AllocateCorrect(s, op.bytes); } else { DeallocateCorrect(s, op.id); }
      }
      Apply(s, op)
  }

  /** After any run the free blocks are exactly the maximal vacant runs. */
  lemma RunCanonical(top: nat, ops: seq<Op>, b: Block)
    ensures var s := Run(top, ops); IsFree(s.lists, b) <==> MaximalGap(top, UsedBlocks(s.live), b)
  {
    var s := Run(top, ops);
    CanonicalForm(top, FreeBlocks(s.lists), UsedBlocks(s.live), b);
  }

  lemma SameLiveSameFree(s: State, s': State)
    requires Inv(s) && Inv(s') && |s.lists| == |s'.lists| && UsedBlocks(s.live) == UsedBlocks(s'.live)
    ensures FreeBlocks(s.lists) == FreeBlocks(s'.lists)
  {
    FreeSetIsDetermined(Top(s.lists), FreeBlocks(s.lists), FreeBlocks(s'.lists), UsedBlocks(s.live));
  }

  /** Two histories with the same live blocks leave the same free blocks. */
  lemma HistoryIndependence(top: nat, ops: seq<Op>, ops': seq<Op>)
    requires UsedBlocks(Run(top, ops).live) == UsedBlocks(Run(top, ops').live)
    ensures FreeBlocks(Run(top, ops).lists) == FreeBlocks(Run(top, ops').lists)
  {
    SameLiveSameFree(Run(top, ops), Run(top, ops'));
  }

  /** Freeing a block just granted restores the free blocks and the live ids. */
  lemma RoundTrip(s: State, bytes: nat)
    requires Inv(s) && Allocate(s, bytes).1 != -1
    ensures var (s', id) := Allocate(s, bytes);
      && Inv(s')
      && FreeBlocks(Deallocate(s', id).lists) == FreeBlocks(s.lists)
      && Deallocate(s', id).live == s.live
  {
    hide Inv, Allocate, MergeUp, FreeBlocks;
    AllocateCorrect(s, bytes);
    var (s', id) := Allocate(s, bytes);
    DeallocateCorrect(s', id);
    var s'' := Deallocate(s', id);
    assert s''.live == s.live;
    SameLiveSameFree(s, s'');
  }

  ghost function FreeAll(s: State, ids: seq<int>): State
    requires Inv(s)
    decreases |ids|
  {
    if ids == [] then s
    else
      DeallocateCorrect(s, ids[0]);
      FreeAll(Deallocate(s, ids[0]), ids[1..])
  }

  lemma {:induction false} FreeAllCorrect(s: State, ids: seq<int>)
    requires Inv(s)
    ensures var s' := FreeAll(s, ids);
      Inv(s') && |s'.lists| == |s.lists| && s'.live == s.live - (set id | id in ids)
    decreases |ids|
  {
    hide Inv, Deallocate;
    if ids != [] {
      DeallocateCorrect(s, ids[0]);
      FreeAllCorrect(Deallocate(s, ids[0]), ids[1..]);
      assert (set id | id in ids) == {ids[0]} + (set id | id in ids[1..]);
    }
  }

  /** Freeing every live id, in any order and with any repetition, leaves one block of the whole pool. */
  lemma FreeingAllRestoresPool(s: State, ids: seq<int>)
    requires Inv(s) && forall i :: i in s.live ==> i in ids
    ensures FreeBlocks(FreeAll(s, ids).lists) == {Block(Top(s.lists), 0)}
  {
    hide Tiled, FreeAll, FreeBlocks;
    FreeAllCorrect(s, ids);
    var s', top := FreeAll(s, ids), Top(s.lists);
    var freed := set id | id in ids;
    assert forall i :: i in s.live ==> i in freed;
    assert UsedBlocks(s'.live) == {};
    WholePool(top);
    FreeSetIsDetermined(top, FreeBlocks(s'.lists), {Block(top, 0)}, {});
  }
}
