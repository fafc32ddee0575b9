/** The translation lookaside buffer: set-associative, least recently used way replaced. */
module TlbUnit {
  import Bits
  import opened Common
  import opened Ways

  datatype TlbEntry = TlbEntry(valid: bool, vpn: nat, pfn: nat, lastAccess: nat)

  type TlbSet = seq<TlbEntry>

  function Tag(e: TlbEntry): Option<nat> {
    if e.valid then Some(e.vpn) else None
  }

  function Tags(lines: TlbSet): seq<Option<nat>> {
    seq(|lines|, i requires 0 <= i < |lines| => Tag(lines[i]))
  }

  function Stamps(lines: TlbSet): seq<Option<nat>> {
    seq(|lines|, i requires 0 <= i < |lines| => if lines[i].valid then Some(lines[i].lastAccess) else None)
  }

  /** A translation is cached in the set. */
  ghost predicate Holds(lines: TlbSet, vpn: nat, pfn: nat) {
    exists i :: 0 <= i < |lines| && lines[i].valid && lines[i].vpn == vpn && lines[i].pfn == pfn
  }

  /** The set after a translation is put in: over its old entry if there is one, else over the victim. */
  function Placed(lines: TlbSet, vpn: nat, pfn: nat, now: nat): TlbSet
    requires lines != []
  {
    var w := Find(Tags(lines), vpn);
    lines[(if w < |lines| then w else VictimWay(Stamps(lines))) := TlbEntry(true, vpn, pfn, now)]
  }

  lemma PlacedCaches(lines: TlbSet, vpn: nat, pfn: nat, now: nat)
    requires lines != [] && NoDuplicates(Tags(lines))
    ensures var s := Placed(lines, vpn, pfn, now);
      && NoDuplicates(Tags(s)) && Holds(s, vpn, pfn)
      && forall v, p :: Holds(s, v, p) ==> (v == vpn && p == pfn) || (v != vpn && Holds(lines, v, p))
  {
    var s, w := Placed(lines, vpn, pfn, now), Find(Tags(lines), vpn);
    var at := if w < |lines| then w else VictimWay(Stamps(lines));
    assert s[at].valid;
    assert forall i :: 0 <= i < |lines| ==> Tags(s)[i] == if i == at then Some(vpn) else Tags(lines)[i];
    assert forall i :: 0 <= i < |lines| && i != at ==> Tags(lines)[i] != Some(vpn);
    forall v, p | Holds(s, v, p)
      ensures (v == vpn && p == pfn) || (v != vpn && Holds(lines, v, p))
    {
      var i :| 0 <= i < |s| && s[i].valid && s[i].vpn == v && s[i].pfn == p;
      if i != at {
        assert lines[i] == s[i] && Tags(lines)[i] == Some(v);
      }
    }
  }

  /** What is thrown out to make room is the translation used longest ago, and only when the set is full. */
  lemma PlacedEvictsOldest(lines: TlbSet, vpn: nat, pfn: nat, now: nat, i: nat)
    requires i < |lines| && lines[i].valid && lines[i].vpn != vpn && Placed(lines, vpn, pfn, now)[i] != lines[i]
    ensures forall j :: 0 <= j < |lines| ==> lines[j].valid && lines[i].lastAccess <= lines[j].lastAccess
  {
    var stamps := Stamps(lines);
    assert IsVictim(stamps, i);
    assert stamps[i] == Some(lines[i].lastAccess);
    forall j | 0 <= j < |lines|
      ensures lines[j].valid && lines[i].lastAccess <= lines[j].lastAccess
    {
      assert stamps[j] != None;
    }
  }

  /** The set after a hit: the way found is stamped. */
  function Stamped(lines: TlbSet, vpn: nat, now: nat): TlbSet {
    var w := Find(Tags(lines), vpn);
    if w < |lines| then lines[w := lines[w].(lastAccess := now)] else lines
  }

  lemma StampedCaches(lines: TlbSet, vpn: nat, now: nat)
    requires NoDuplicates(Tags(lines))
    ensures NoDuplicates(Tags(Stamped(lines, vpn, now)))
    ensures forall v, p :: Holds(Stamped(lines, vpn, now), v, p) <==> Holds(lines, v, p)
  {
    var s := Stamped(lines, vpn, now);
    assert Tags(s) == Tags(lines);
    forall v, p
      ensures Holds(s, v, p) <==> Holds(lines, v, p)
    {
      assert forall i :: 0 <= i < |lines| ==> s[i].(lastAccess := 0) == lines[i].(lastAccess := 0);
    }
  }

  /** The set after a shootdown. */
  function Dropped(lines: TlbSet, vpn: nat): TlbSet {
    var w := Find(Tags(lines), vpn);
    if w < |lines| then lines[w := lines[w].(valid := false)] else lines
  }

  lemma DroppedCaches(lines: TlbSet, vpn: nat)
    requires NoDuplicates(Tags(lines))
    ensures NoDuplicates(Tags(Dropped(lines, vpn)))
    ensures forall v, p :: Holds(Dropped(lines, vpn), v, p) <==> v != vpn && Holds(lines, v, p)
  {
    var s, w := Dropped(lines, vpn), Find(Tags(lines), vpn);
    assert forall i :: 0 <= i < |lines| && i != w ==> s[i] == lines[i] && Tags(s)[i] == Tags(lines)[i] != Some(vpn);
    assert forall i :: 0 <= i < |lines| && lines[i].valid ==> Tags(lines)[i] == Some(lines[i].vpn);
    forall v, p
      ensures Holds(s, v, p) <==> v != vpn && Holds(lines, v, p)
    {
      if v != vpn && Holds(lines, v, p) {
        var i :| 0 <= i < |lines| && lines[i].valid && lines[i].vpn == v && lines[i].pfn == p;
        assert s[i] == lines[i];
      }
    }
  }

  // ---------- the whole table ----------

  /** Set i has all its ways, no page twice, and only pages that belong there. */
  ghost predicate SetOk(lines: TlbSet, ways: nat, sets: nat, i: nat)
    requires sets > 0
  {
    && |lines| == ways && NoDuplicates(Tags(lines))
    && forall v: nat, p: nat :: Holds(lines, v, p) ==> v % sets == i
  }

  ghost predicate TableOk(table: seq<TlbSet>, ways: nat) {
    && |table| > 0 && ways > 0
    && forall i: nat :: i < |table| ==> SetOk(table[i], ways, |table|, i)
  }

  ghost predicate InTable(table: seq<TlbSet>, vpn: nat, pfn: nat)
    requires |table| > 0
  {
    Holds(table[vpn % |table|], vpn, pfn)
  }

  lemma ReplaceSet(table: seq<TlbSet>, ways: nat, idx: nat, lines: TlbSet)
    requires TableOk(table, ways) && idx < |table| && SetOk(lines, ways, |table|, idx)
    ensures TableOk(table[idx := lines], ways)
    ensures forall v: nat, p: nat :: InTable(table[idx := lines], v, p) <==>
      if v % |table| == idx then Holds(lines, v, p) else InTable(table, v, p)
  {
    var t := table[idx := lines];
    forall i: nat | i < |t|
      ensures SetOk(t[i], ways, |t|, i)
    {
      assert SetOk(table[i], ways, |table|, i);
    }
  }

  /** A hit on a page leaves what is cached as it was. */
  lemma StampTable(table: seq<TlbSet>, ways: nat, vpn: nat, now: nat)
    requires TableOk(table, ways)
    ensures var idx := vpn % |table|; var t := table[idx := Stamped(table[idx], vpn, now)];
      TableOk(t, ways) && forall v: nat, p: nat :: InTable(t, v, p) <==> InTable(table, v, p)
  {
    var idx := vpn % |table|;
    assert SetOk(table[idx], ways, |table|, idx);
    StampedCaches(table[idx], vpn, now);
    ReplaceSet(table, ways, idx, Stamped(table[idx], vpn, now));
  }

  lemma PlaceTable(table: seq<TlbSet>, ways: nat, vpn: nat, pfn: nat, now: nat)
    requires TableOk(table, ways)
    ensures var idx := vpn % |table|;
      && table[idx] != []
      && var t := table[idx := Placed(table[idx], vpn, pfn, now)];
         && TableOk(t, ways) && InTable(t, vpn, pfn)
         && forall v: nat, p: nat :: InTable(t, v, p) ==> (v == vpn && p == pfn) || (v != vpn && InTable(table, v, p))
  {
    var idx := vpn % |table|;
    assert SetOk(table[idx], ways, |table|, idx);
    PlacedCaches(table[idx], vpn, pfn, now);
    ReplaceSet(table, ways, idx, Placed(table[idx], vpn, pfn, now));
  }

  lemma DropTable(table: seq<TlbSet>, ways: nat, vpn: nat)
    requires TableOk(table, ways)
    ensures var idx := vpn % |table|; var t := table[idx := Dropped(table[idx], vpn)];
      TableOk(t, ways) && forall v: nat, p: nat :: InTable(t, v, p) <==> v != vpn && InTable(table, v, p)
  {
    var idx := vpn % |table|;
    assert SetOk(table[idx], ways, |table|, idx);
    DroppedCaches(table[idx], vpn);
    ReplaceSet(table, ways, idx, Dropped(table[idx], vpn));
  }

  /** The table after a lookup, an insertion and a shootdown of a page. */
  function LookedUp(table: seq<TlbSet>, vpn: nat, now: nat): seq<TlbSet> {
    if table == [] then table else
      var i := vpn % |table|;
      table[i := Stamped(table[i], vpn, now)]
  }

  function PutIn(table: seq<TlbSet>, vpn: nat, pfn: nat, now: nat): seq<TlbSet> {
    if table == [] || table[vpn % |table|] == [] then table else
      var i := vpn % |table|;
      table[i := Placed(table[i], vpn, pfn, now)]
  }

  function ShotDown(table: seq<TlbSet>, vpn: nat): seq<TlbSet> {
    if table == [] then table else
      var i := vpn % |table|;
      table[i := Dropped(table[i], vpn)]
  }

  lemma FoundIsCached(lines: TlbSet, vpn: nat)
    requires NoDuplicates(Tags(lines))
    ensures var w := Find(Tags(lines), vpn);
      forall p :: Holds(lines, vpn, p) <==> w < |lines| && p == lines[w].pfn
  {
    var w := Find(Tags(lines), vpn);
    assert forall i :: 0 <= i < |lines| ==> (Tags(lines)[i] == Some(vpn) <==> lines[i].valid && lines[i].vpn == vpn);
    forall p
      ensures Holds(lines, vpn, p) <==> w < |lines| && p == lines[w].pfn
    {
      if w < |lines| {
        assert lines[w].valid && lines[w].vpn == vpn;
      }
    }
  }

  /** The scan of a set for a page. */
  method FindWay(lines: TlbSet, vpn: nat) returns (w: nat)
    ensures w == Find(Tags(lines), vpn)
  {
    w := 0;
    while w < |lines| && !(lines[w].valid && lines[w].vpn == vpn)
      invariant w <= |lines|
      invariant forall k :: 0 <= k < w ==> Tags(lines)[k] != Some(vpn)
    {
      w := w + 1;
    }
    FindUnique(Tags(lines), vpn, w);
  }

  /** The scan for the way to replace. */
  method SelectVictim(lines: TlbSet) returns (victim: nat)
    requires lines != []
    ensures victim == VictimWay(Stamps(lines))
  {
    victim := 0;
    for i := 0 to |lines|
      invariant victim < |lines| && (i > 0 ==> victim < i)
      invariant forall k :: 0 <= k < i ==> lines[k].valid && lines[victim].lastAccess <= lines[k].lastAccess
      invariant forall k :: 0 <= k < victim ==> lines[victim].lastAccess < lines[k].lastAccess
    {
      if !lines[i].valid {
        VictimUnique(Stamps(lines), i);
        return i;
      }
      if i == 0 || lines[i].lastAccess < lines[victim].lastAccess {
        victim := i;
      }
    }
    VictimUnique(Stamps(lines), victim);
  }

  class Tlb {
    const sets: nat
    const ways: nat
    var timer: nat
    var table: seq<TlbSet>

    ghost predicate Valid()
      reads this
    {
      |table| == sets && TableOk(table, ways)
    }

    ghost predicate Cached(vpn: nat, pfn: nat)
      requires Valid()
      reads this
    {
      InTable(table, vpn, pfn)
    }

    ghost predicate Knows(vpn: nat)
      requires Valid()
      reads this
    {
      exists p :: Cached(vpn, p)
    }

    constructor (entries: nat, assoc: nat)
      requires 0 < assoc <= entries
      ensures Valid() && forall v, p :: !Cached(v, p)
      ensures ways == assoc && sets == entries / assoc && timer == 0
      ensures table == seq(sets, _ => seq(ways, _ => TlbEntry(false, 0, 0, 0)))
    {
      ways := assoc;
      sets := entries / assoc;
      timer := 0;
      table := seq(entries / assoc, _ => seq(assoc, _ => TlbEntry(false, 0, 0, 0)));
      Bits.QuotientPositive(entries, assoc);
    }

    method Lookup(vpn: nat) returns (pfn: int)
      requires Valid()
      modifies this
      ensures Valid() && timer == old(timer) + 1
      ensures table == LookedUp(old(table), vpn, timer) && (pfn < 0 ==> table == old(table))
      ensures pfn >= 0 ==> old(Cached(vpn, pfn))
      ensures pfn < 0 ==> pfn == -1 && forall p :: !old(Cached(vpn, p))
      ensures forall v, p :: Cached(v, p) <==> old(Cached(v, p))
    {
      timer := timer + 1;
      var idx := vpn % sets;
      StampTable(table, ways, vpn, timer);
      assert SetOk(table[idx], ways, sets, idx);
      FoundIsCached(table[idx], vpn);
      hide TableOk, Holds, SetOk;
      var w := FindWay(table[idx], vpn);
      if w < |table[idx]| {
        table := table[idx := table[idx][w := table[idx][w].(lastAccess := timer)]];
        return table[idx][w].pfn;
      }
      assert table == table[idx := table[idx]];
      return -1;
    }

    method Insert(vpn: nat, pfn: nat)
      requires Valid()
      modifies `table
      ensures Valid()
      ensures table == PutIn(old(table), vpn, pfn, timer)
      ensures Cached(vpn, pfn)
      ensures forall v, p :: Cached(v, p) ==> (v == vpn && p == pfn) || (v != vpn && old(Cached(v, p)))
    {
      var idx := vpn % sets;
      PlaceTable(table, ways, vpn, pfn, timer);
      hide TableOk, Holds;
      var w := FindWay(table[idx], vpn);
      if w < |table[idx]| {
        FoundTag(table[idx], vpn, w);
        table := table[idx := table[idx][w := table[idx][w].(pfn := pfn, lastAccess := timer)]];
      } else {
        w := SelectVictim(table[idx]);
        table := table[idx := table[idx][w := TlbEntry(true, vpn, pfn, timer)]];
      }
    }

    method Invalidate(vpn: nat)
      requires Valid()
      modifies `table
      ensures Valid()
      ensures table == ShotDown(old(table), vpn)
      ensures forall v, p :: Cached(v, p) <==> v != vpn && old(Cached(v, p))
    {
      var idx := vpn % sets;
      DropTable(table, ways, vpn);
      hide TableOk, Holds;
      var w := FindWay(table[idx], vpn);
      if w < |table[idx]| {
        table := table[idx := table[idx][w := table[idx][w].(valid := false)]];
      } else {
        assert table == table[idx := table[idx]];
      }
    }
  }

  lemma FoundTag(lines: TlbSet, vpn: nat, w: nat)
    requires w == Find(Tags(lines), vpn) < |lines|
    ensures lines[w].valid && lines[w].vpn == vpn
  {
  }
}
