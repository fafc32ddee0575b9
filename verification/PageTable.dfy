/** The four-level page table: radix tree of 512-entry tables, allocated on demand by every walk. */
module PageTable {
  import opened Bits

  const LEVELS := 4
  const FANOUT := 512
  const VPN_LIMIT := 0x10_0000_0000   // 2^36

  datatype Entry = Entry(
    valid: bool, dirty: bool, referenced: bool, frame: int,
    next: PTNode?,
    lastAccess: nat, loadTime: nat)

  /** The mapping part of an entry, without the link to the next table. */
  datatype Leaf = Leaf(valid: bool, dirty: bool, referenced: bool, frame: int, lastAccess: nat, loadTime: nat)

  const DEFAULT := Leaf(false, false, false, -1, 0, 0)

  function LeafOf(e: Entry): Leaf {
    Leaf(e.valid, e.dirty, e.referenced, e.frame, e.lastAccess, e.loadTime)
  }

  class PTNode {
    var entries: seq<Entry>
    ghost const key: Key
    ghost const root: PTNode?   // the top table of the tree, null for the top table itself

    constructor (n: nat, ghost k: Key, ghost r: PTNode?)
      ensures |entries| == n && key == k && root == r
      ensures forall i :: 0 <= i < n ==> entries[i].next == null && LeafOf(entries[i]) == DEFAULT
    {
      entries := seq(n, _ => Entry(false, false, false, -1, null, 0, 0));
      key, root := k, r;
    }
  }

  // ---------- indices ----------

  /** A table of the tree: its level and the indices that lead to it, read as one number. */
  datatype Key = Key(level: nat, prefix: nat)

  /** The leading `level` indices of a page number. */
  function Prefix(vpn: nat, level: nat): nat
    decreases LEVELS - level
  {
    if level >= LEVELS then vpn else Prefix(vpn, level + 1) / FANOUT
  }

  function Index(vpn: nat, level: nat): nat {
    Prefix(vpn, level + 1) % FANOUT
  }

  function Child(k: Key, i: nat): Key {
    Key(k.level + 1, k.prefix * FANOUT + i)
  }

  function Parent(k: Key): Key
    requires k.level > 0
  {
    Key(k.level - 1, k.prefix / FANOUT)
  }

  lemma ParentOfChild(k: Key, i: nat)
    requires i < FANOUT
    ensures Parent(Child(k, i)) == k && i == Child(k, i).prefix % FANOUT
  {
  }

  function KeyOf(vpn: nat, level: nat): Key {
    Key(level, Prefix(vpn, level))
  }

  /** Table k is one of the first tables below the root on the way to a page number. */
  ghost predicate OnPath(vpn: nat, k: Key, depth: nat) {
    1 <= k.level <= depth && k == KeyOf(vpn, k.level)
  }

  lemma ChildOfPrefix(vpn: nat, level: nat)
    requires level < LEVELS
    ensures KeyOf(vpn, level + 1) == Child(KeyOf(vpn, level), Index(vpn, level))
  {
  }

  /** The four indices recompose to the page number. */
  lemma IndicesRecompose(vpn: nat)
    requires vpn < VPN_LIMIT
    ensures vpn == ((Index(vpn, 0) * FANOUT + Index(vpn, 1)) * FANOUT + Index(vpn, 2)) * FANOUT + Index(vpn, 3)
    ensures Prefix(vpn, 0) == 0
  {
    assert Prefix(vpn, 3) == vpn / FANOUT;
    assert Prefix(vpn, 2) == vpn / FANOUT / FANOUT;
    assert Prefix(vpn, 1) == vpn / FANOUT / FANOUT / FANOUT;
  }

  lemma {:induction false} AndMask(x: nat, k: nat)
    ensures And(x, Pow2(k) - 1) == x % Pow2(k)
  {
    hide And;
    if k == 0 {
      AndNothing(x);
    } else {
      var p := Pow2(k - 1);
      AndMask(x / 2, k - 1);
      OddMask(x, p);
      HalfRemainder(x, p);
    }
  }

  lemma AndNothing(x: nat)
    ensures And(x, 0) == 0
    ensures x % 1 == 0
  {
  }

  lemma OddMask(x: nat, p: nat)
    requires p >= 1
    ensures And(x, 2 * p - 1) == 2 * And(x / 2, p - 1) + x % 2
  {
    assert (2 * p - 1) / 2 == p - 1;
  }

  lemma HalfRemainder(x: nat, p: nat)
    requires p >= 1
    ensures x % (2 * p) == 2 * (x / 2 % p) + x % 2
  {
    var q, r := x / 2 / p, x / 2 % p;
    assert x / 2 == q * p + r;
    assert x == 2 * (q * p + r) + x % 2;
    assert x == q * (2 * p) + (2 * r + x % 2) by { Doubling(q, p); }
    QuotientUnique(x, 2 * p, q, 2 * r + x % 2);
  }

  lemma {:induction false} ShrIsPrefix(vpn: nat, level: nat)
    requires level < LEVELS
    ensures Shr(vpn, 9 * (LEVELS - 1 - level)) == Prefix(vpn, level + 1)
    decreases LEVELS - level
  {
    if level < LEVELS - 1 {
      ShrIsPrefix(vpn, level + 1);
      ShrShr(vpn, 9 * (LEVELS - 2 - level), 9);
      ShrIsDivision(Prefix(vpn, level + 2), 9);
      assert Pow2(9) == FANOUT;
    }
  }

  /** The 9-bit index of a level, taken with shifts and a mask. */
  method ExtractIndex(vpn: nat, level: nat) returns (idx: nat)
    requires level < LEVELS
    ensures idx == Index(vpn, level) < FANOUT
  {
    var shift := 0;
    for i := level + 1 to LEVELS
      invariant shift == 9 * (i - level - 1)
    {
      shift := shift + 9;
    }
    var mask := FANOUT - 1;
    ShrIsPrefix(vpn, level);
    assert Pow2(9) == FANOUT;
    AndMask(Shr(vpn, shift), 9);
    return And(Shr(vpn, shift), mask);
  }

  /** What was stored for a page number, the empty entry if nothing was. */
  function EntryIn(content: map<nat, Leaf>, v: nat): Leaf {
    if v in content then content[v] else DEFAULT
  }

  class MultiLevelPageTable {
    const pml4: PTNode
    var totalWalks: nat
    var totalWalkCost: nat
    var tablesAllocated: nat
    ghost var nodes: map<Key, PTNode>   // the tables, each under the indices that lead to it
    ghost var repr: set<PTNode>         // the same tables as a set
    ghost var content: map<nat, Leaf>   // what was stored for each page number
    ghost var walked: set<nat>          // page numbers walked so far
    ghost var inRange: nat              // how many walks stayed in range

    /** The tables of this tree, whenever they were allocated: the ones that may be written. */
    ghost predicate Owns(n: PTNode) {
      n == pml4 || n.root == pml4
    }

    /** Table k knows its place, and its links lead to exactly the tables below it. */
    ghost predicate TableAt(k: Key)
      requires k in nodes
      reads `nodes, nodes[k]
    {
      var n := nodes[k];
      && n.key == k && |n.entries| == FANOUT
      && k.level < LEVELS && (if k.level == 0 then k.prefix == 0 else Parent(k) in nodes)
      && forall i: nat :: i < FANOUT ==> n.entries[i].next == if Child(k, i) in nodes then nodes[Child(k, i)] else null
    }

    /** The tables form a tree: every one is where its key says, so none is shared and none closes a cycle. */
    ghost predicate Linked()
      reads `tablesAllocated, `nodes, `repr, repr
    {
      && Key(0, 0) in nodes && nodes[Key(0, 0)] == pml4
      && (forall k :: k in nodes ==> nodes[k] in repr && Owns(nodes[k]))
      && (forall k {:trigger TableAt(k)} :: k in nodes ==> TableAt(k))
      && tablesAllocated == |nodes|
    }

    /** What a page number maps to. */
    ghost function Stored(v: nat): Leaf
      reads `content
    {
      EntryIn(content, v)
    }

    /** The tree says of every page number what was stored for it last. */
    ghost predicate Tracked()
      requires Linked()
      reads `tablesAllocated, `nodes, `repr, `content, repr
    {
      forall v: nat :: Stored(v) == Lookup(v)
    }

    ghost predicate Tree()
      reads `tablesAllocated, `nodes, `repr, `content, repr
    {
      Linked() && Tracked()
    }

    /** Table k lies on the path of a page number that was walked. */
    ghost predicate Visited(k: Key)
      reads `walked
    {
      k == Key(0, 0) || exists v :: v in walked && OnPath(v, k, 3)
    }

    /** There is one table for every 1-, 2- and 3-index prefix walked, and a walk in range costs 4 accesses. */
    ghost predicate Counted()
      reads `nodes, `walked, `inRange, `totalWalks, `totalWalkCost
    {
      && (forall k :: k in nodes <==> Visited(k))
      && totalWalkCost == 4 * inRange && inRange <= totalWalks
    }

    ghost predicate Valid()
      reads this, repr
    {
      Tree() && Counted()
    }

    /** What the table says of a page. */
    ghost function Lookup(vpn: nat): Leaf
      requires Linked()
      reads `tablesAllocated, `nodes, `repr, repr
    {
      var k := KeyOf(vpn, 3);
      if k in nodes then
        assert TableAt(k);
        LeafOf(nodes[k].entries[Index(vpn, 3)])
      else DEFAULT
    }

    constructor ()
      ensures Valid() && fresh(pml4)
      ensures content == map[]
    {
      var root := new PTNode(FANOUT, Key(0, 0), null);
      pml4 := root;
      totalWalks, totalWalkCost, tablesAllocated := 0, 0, 1;
      nodes := map[Key(0, 0) := root];
      repr, content := {root}, map[];
      walked, inRange := {}, 0;
    }

    lemma NothingBelow(c: Key)
      requires Linked() && c !in nodes
      ensures forall i: nat :: i < FANOUT ==> Child(c, i) !in nodes
    {
      forall i: nat | i < FANOUT
        ensures Child(c, i) !in nodes
      {
        ParentOfChild(c, i);
        assert Child(c, i) in nodes ==> TableAt(Child(c, i));
      }
    }

    /** Hangs a new empty table into a free slot. */
    method AddTable(current: PTNode, idx: nat, ghost k: Key) returns (next: PTNode)
      requires Tree() && k in nodes && nodes[k] == current && k.level < 3 && idx < FANOUT
      requires Child(k, idx) !in nodes
      modifies `nodes, `repr, `tablesAllocated, current
      ensures Tree() && fresh(next)
      ensures nodes == old(nodes)[Child(k, idx) := next]
    {
      next := LinkTable(current, idx, k);
      hide TableAt, Child, Parent;
      EmptyTableTracked(Child(k, idx), next);
    }

    /** A new empty table keeps the tree linked and leaves every entry as it was. */
    method LinkTable(current: PTNode, idx: nat, ghost k: Key) returns (next: PTNode)
      requires Linked() && k in nodes && nodes[k] == current && k.level < 3 && idx < FANOUT
      requires Child(k, idx) !in nodes
      modifies `nodes, `repr, `tablesAllocated, current
      ensures Linked() && fresh(next) && nodes == old(nodes)[Child(k, idx) := next]
      ensures forall i: nat :: i < |next.entries| ==> LeafOf(next.entries[i]) == DEFAULT
      ensures |current.entries| == old(|current.entries|)
      ensures forall i: nat :: i < |current.entries| ==> LeafOf(current.entries[i]) == old(LeafOf(current.entries[i]))
    {
      ghost var c := Child(k, idx);
      assert TableAt(k);
      ParentOfChild(k, idx);
      NothingBelow(c);
      next := new PTNode(FANOUT, c, pml4);
      current.entries := current.entries[idx := current.entries[idx].(next := next)];
      tablesAllocated := tablesAllocated + 1;
      nodes, repr := nodes[c := next], repr + {next};
      forall j | j in nodes
        ensures TableAt(j)
      {
        if j != c {
          assert old(TableAt(j));
        }
        forall i: nat | i < FANOUT
          ensures nodes[j].entries[i].next == if Child(j, i) in nodes then nodes[Child(j, i)] else null
        {
          ParentOfChild(j, i);
        }
      }
    }

    /** An empty new table holds no entry, so no page number maps to anything else than before. */
    twostate lemma EmptyTableTracked(c: Key, new next: PTNode)
      requires old(Tree()) && Linked() && content == old(content)
      requires c !in old(nodes) && nodes == old(nodes)[c := next]
      requires forall i: nat :: i < |next.entries| ==> LeafOf(next.entries[i]) == DEFAULT
      requires forall k, i: nat ::
        k in old(nodes) && i < FANOUT && i < |old(nodes[k].entries)| && i < |nodes[k].entries| ==>
        LeafOf(nodes[k].entries[i]) == old(LeafOf(nodes[k].entries[i]))
      ensures Tree()
    {
      forall v: nat
        ensures Stored(v) == Lookup(v)
      {
        assert Stored(v) == old(Lookup(v));
        assert KeyOf(v, 3) in nodes ==> TableAt(KeyOf(v, 3));
        if KeyOf(v, 3) in old(nodes) {
          assert old(TableAt(KeyOf(v, 3)));
        }
      }
    }

    /** One level of a walk: the table below, allocated if it is not there. */
    method Descend(current: PTNode, idx: nat, ghost k: Key) returns (next: PTNode)
      requires Tree() && k in nodes && nodes[k] == current && k.level < 3 && idx < FANOUT
      modifies `nodes, `repr, `tablesAllocated, current
      ensures Tree()
      ensures forall j :: j in nodes <==> j in old(nodes) || j == Child(k, idx)
      ensures nodes[Child(k, idx)] == next
    {
      assert TableAt(k);
      var entry := current.entries[idx];
      if entry.next == null {
        next := AddTable(current, idx, k);
      } else {
        next := entry.next;
      }
    }
  
    /** The four levels of a walk. */
    method DescendToLeaf(vpn: nat) returns (current: PTNode, idx: nat, cost: nat)
      requires Tree() && vpn < VPN_LIMIT
      modifies `nodes, `repr, `tablesAllocated, set n: PTNode | Owns(n)
      ensures Tree()
      ensures LeafSlot(vpn, current, idx) && cost == 4
      ensures forall k :: k in nodes <==> k in old(nodes) || OnPath(vpn, k, 3)
    {
      IndicesRecompose(vpn);
      hide Tree, Linked, Prefix, Index;
      RootKey(vpn);
      current, idx, cost := pml4, 0, 0;
      for level := 0 to LEVELS - 1
        invariant cost == level && Tree() && KeyOf(vpn, level) in nodes && nodes[KeyOf(vpn, level)] == current
        invariant forall k :: k in nodes <==> k in old(nodes) || OnPath(vpn, k, level)
      {
        cost := cost + 1;
        idx := ExtractIndex(vpn, level);
        ChildOfPrefix(vpn, level);
        current := Descend(current, idx, KeyOf(vpn, level));
        TableInTree(KeyOf(vpn, level + 1));
      }
      cost := cost + 1;
      idx := ExtractIndex(vpn, LEVELS - 1);
      LeafInTree(vpn);
    }

    lemma RootKey(vpn: nat)
      requires Tree() && Prefix(vpn, 0) == 0
      ensures KeyOf(vpn, 0) in nodes && nodes[KeyOf(vpn, 0)] == pml4
    {
    }

    /** The leaf slot of a page number: table and index there, null if the number is out of range. */
    method Walk(vpn: nat) returns (table: PTNode?, idx: nat, cost: nat)
      requires Valid()
      modifies this, set n: PTNode | Owns(n)
      ensures Valid() && content == old(content)
      ensures totalWalks == old(totalWalks) + 1
      ensures vpn >= VPN_LIMIT ==>
        table == null && cost == 0 && nodes == old(nodes) && totalWalkCost == old(totalWalkCost)
      ensures vpn < VPN_LIMIT ==> LeafSlot(vpn, table, idx) && cost == 4 && totalWalkCost == old(totalWalkCost) + 4
      ensures walked == if vpn < VPN_LIMIT then old(walked) + {vpn} else old(walked)
    {
      hide Tree, LeafSlot, Prefix, Index;
      totalWalks := totalWalks + 1;
      if vpn >= VPN_LIMIT {
        assert Counted();
        return null, 0, 0;
      }
      hide Counted;
      table, idx, cost := DescendToLeaf(vpn);
      totalWalkCost := totalWalkCost + cost;
      walked, inRange := walked + {vpn}, inRange + 1;
      VisitedToo(vpn);
    }

    lemma LeafInTree(vpn: nat)
      requires Tree() && KeyOf(vpn, 3) in nodes
      ensures LeafSlot(vpn, nodes[KeyOf(vpn, 3)], Index(vpn, 3))
    {
      assert TableAt(KeyOf(vpn, 3));
    }

    lemma TableInTree(k: Key)
      requires Tree() && k in nodes
      ensures TableAt(k) && Owns(nodes[k])
    {
    }

    twostate lemma VisitedToo(vpn: nat)
      requires old(Counted()) && walked == old(walked) + {vpn}
      requires forall k :: k in nodes <==> k in old(nodes) || OnPath(vpn, k, 3)
      requires inRange == old(inRange) + 1 && totalWalkCost == old(totalWalkCost) + 4
      requires totalWalks == old(totalWalks) + 1
      ensures Counted()
    {
      forall k
        ensures k in nodes <==> Visited(k)
      {
        assert k in old(nodes) <==> old(Visited(k));
      }
    }

    ghost predicate LeafSlot(vpn: nat, table: PTNode?, idx: nat)
      reads `nodes, table
    {
      && KeyOf(vpn, 3) in nodes && nodes[KeyOf(vpn, 3)] == table
      && idx == Index(vpn, 3) && |table.entries| == FANOUT
    }

    /** Writes an entry through the slot a walk returned. */
    method SetLeaf(table: PTNode, idx: nat, e: Leaf, ghost vpn: nat)
      requires Tree() && LeafSlot(vpn, table, idx)
      modifies `content, table
      ensures Tree() && LeafSlot(vpn, table, idx)
      ensures content == old(content)[vpn := e]
    {
      TableInTree(KeyOf(vpn, 3));
      var slot := table.entries[idx];
      table.entries := table.entries[idx :=
        Entry(e.valid, e.dirty, e.referenced, e.frame, slot.next, e.lastAccess, e.loadTime)];
      content := content[vpn := e];
      forall k | k in nodes
        ensures TableAt(k)
      {
        assert old(TableAt(k));
      }
      forall v: nat
        ensures Stored(v) == Lookup(v)
      {
        assert old(Stored(v)) == old(Lookup(v));
        if v != vpn && KeyOf(v, 3) in nodes {
          assert old(TableAt(KeyOf(v, 3)));
          assert Index(v, 3) != idx || KeyOf(v, 3) != KeyOf(vpn, 3);
        }
      }
    }

    method Map(vpn: nat, frame: int, accessTime: nat, dirty: bool)
      requires Valid()
      modifies this, set n: PTNode | Owns(n)
      ensures Valid() && totalWalks == old(totalWalks) + 1
      ensures walked == if vpn < VPN_LIMIT then old(walked) + {vpn} else old(walked)
      ensures content == if vpn < VPN_LIMIT
        then old(content)[vpn := Leaf(true, dirty, true, frame, accessTime, accessTime)] else old(content)
    {
      hide Tree, Counted;
      var table, idx, cost := Walk(vpn);
      if table == null {
        return;
      }
      SlotInRepr(vpn, table, idx);
      SetLeaf(table, idx, Leaf(true, dirty, true, frame, accessTime, accessTime), vpn);
    }

    method Unmap(vpn: nat)
      requires Valid()
      modifies this, set n: PTNode | Owns(n)
      ensures Valid() && totalWalks == old(totalWalks) + 1
      ensures walked == if vpn < VPN_LIMIT then old(walked) + {vpn} else old(walked)
      ensures content == if vpn < VPN_LIMIT
        then old(content)[vpn := old(Stored(vpn)).(valid := false, frame := -1, dirty := false, referenced := false)]
        else old(content)
    {
      hide Tree, Counted;
      var table, idx, cost := Walk(vpn);
      if table == null {
        return;
      }
      SlotInRepr(vpn, table, idx);
      var e := LeafOf(table.entries[idx]);
      SetLeaf(table, idx, e.(valid := false, frame := -1, dirty := false, referenced := false), vpn);
    }

    lemma SlotInRepr(vpn: nat, table: PTNode, idx: nat)
      requires Tree() && LeafSlot(vpn, table, idx)
      ensures Owns(table) && idx < |table.entries| && LeafOf(table.entries[idx]) == Stored(vpn)
    {
      TableInTree(KeyOf(vpn, 3));
      assert Stored(vpn) == Lookup(vpn);
    }

    /** The tables allocated are the root and one for each distinct 1-, 2- and 3-index prefix walked. */
    lemma TablesPerPrefix()
      requires Valid()
      ensures tablesAllocated == 1 + |Prefixes(walked, 1)| + |Prefixes(walked, 2)| + |Prefixes(walked, 3)|
    {
      assert tablesAllocated == |nodes| == |nodes.Keys|;
      forall k
        ensures k in nodes.Keys <==> InLevels(k, Prefixes(walked, 1), Prefixes(walked, 2), Prefixes(walked, 3))
      {
        assert k in nodes <==> Visited(k);
        VisitedLevels(k);
      }
      hide Tree, Counted, Prefixes;
      CountLevels(nodes.Keys, Prefixes(walked, 1), Prefixes(walked, 2), Prefixes(walked, 3));
    }

    lemma VisitedLevels(k: Key)
      ensures Visited(k) <==>
        InLevels(k, Prefixes(walked, 1), Prefixes(walked, 2), Prefixes(walked, 3))
    {
      assert forall v :: v in walked ==> Prefix(v, k.level) in Prefixes(walked, k.level);
    }
  }

  /** The distinct leading `level` indices of some page numbers. */
  ghost function Prefixes(vpns: set<nat>, level: nat): set<nat> {
    set v | v in vpns :: Prefix(v, level)
  }

  ghost function KeysAt(prefixes: set<nat>, level: nat): set<Key> {
    set q | q in prefixes :: Key(level, q)
  }

  lemma {:induction false} KeysAtSize(prefixes: set<nat>, level: nat)
    ensures |KeysAt(prefixes, level)| == |prefixes|
  {
    if q :| q in prefixes {
      KeysAtSize(prefixes - {q}, level);
      assert KeysAt(prefixes, level) == KeysAt(prefixes - {q}, level) + {Key(level, q)};
    } else {
      assert KeysAt(prefixes, level) == {};
    }
  }

  /** The root, or a table under one of some 1-, 2- or 3-index prefixes. */
  ghost predicate InLevels(k: Key, p1: set<nat>, p2: set<nat>, p3: set<nat>) {
    k == Key(0, 0) || (k.level == 1 && k.prefix in p1) || (k.level == 2 && k.prefix in p2)
      || (k.level == 3 && k.prefix in p3)
  }

  lemma CountLevels(keys: set<Key>, p1: set<nat>, p2: set<nat>, p3: set<nat>)
    requires forall k :: k in keys <==> InLevels(k, p1, p2, p3)
    ensures |keys| == 1 + |p1| + |p2| + |p3|
  {
    var root, l1, l2, l3 := {Key(0, 0)}, KeysAt(p1, 1), KeysAt(p2, 2), KeysAt(p3, 3);
    assert keys == root + (l1 + (l2 + l3));
    KeysAtSize(p1, 1);
    KeysAtSize(p2, 2);
    KeysAtSize(p3, 3);
    assert l2 !! l3 && l1 !! (l2 + l3) && root !! (l1 + (l2 + l3));
  }
}
