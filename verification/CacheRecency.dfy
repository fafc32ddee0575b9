/** One LRU cache set: timestamps against a move-to-front list of tags. */
module CacheRecency {
  import opened Common
  import opened Ways
  import opened CacheModel
  import opened Recency

  /** The tags of a set, most recently used first, each with its dirty bit. */
  datatype RSet = RSet(order: seq<int>, dirty: map<int, bool>)

  function TouchR(r: RSet, tag: nat, write: bool): RSet
    requires tag in r.dirty
  {
    RSet(MoveToFront(r.order, tag), r.dirty[tag := r.dirty[tag] || write])
  }

  /** What falls off the end of a full list. */
  function LastR(r: RSet, ways: nat): Option<int> {
    if 0 < |r.order| == ways then Some(r.order[|r.order| - 1]) else None
  }

  function FillR(r: RSet, tag: nat, write: bool, ways: nat): RSet {
    var last := LastR(r, ways);
    if last.None? then RSet([tag] + r.order, r.dirty[tag := write])
    else RSet([tag] + r.order[..|r.order| - 1], (r.dirty - {last.value})[tag := write])
  }

  function DropR(r: RSet, tag: nat): RSet {
    var i := IndexOf(r.order, tag);
    if i == |r.order| then r else RSet(RemoveAt(r.order, i), r.dirty - {tag})
  }

  // ---------- the relation ----------

  /** The list has exactly the tags that have a dirty bit, once each. */
  ghost predicate Listed(r: RSet) {
    Distinct(r.order) && forall t: int :: t in r.dirty <==> IndexOf(r.order, t) < |r.order|
  }

  /** The valid lines are exactly those with a dirty bit, and that is theirs. */
  ghost predicate Mirrors(lines: CacheSet, dirty: map<int, bool>) {
    && NoDuplicates(Tags(lines))
    && (forall t: int :: t in dirty ==> t >= 0 && Has(lines, t))
    && (forall i :: 0 <= i < |lines| && lines[i].valid ==>
          lines[i].tag in dirty && dirty[lines[i].tag] == lines[i].dirty)
  }

  /** Access times fall along the list. */
  ghost predicate InOrder(lines: CacheSet, order: seq<int>) {
    forall i, j | 0 <= i < |lines| && 0 <= j < |lines| && lines[i].valid && lines[j].valid ::
      IndexOf(order, lines[i].tag) < IndexOf(order, lines[j].tag) ==> lines[i].lastAccess > lines[j].lastAccess
  }

  ghost predicate Realises(lines: CacheSet, r: RSet) {
    Listed(r) && Mirrors(lines, r.dirty) && InOrder(lines, r.order)
  }

  ghost predicate Earlier(lines: CacheSet, now: nat) {
    forall i :: 0 <= i < |lines| && lines[i].valid ==> lines[i].lastAccess < now
  }

  // ---------- a list is as long as there are valid lines ----------

  function ValidCount(lines: CacheSet): (n: nat)
    ensures n <= |lines|
    ensures n == |lines| <==> forall i :: 0 <= i < |lines| ==> lines[i].valid
  {
    if lines == [] then 0
    else
      var k := |lines| - 1;
      assert lines == lines[..k] + [lines[k]];
      ValidCount(lines[..k]) + if lines[k].valid then 1 else 0
  }

  ghost function TagSet(lines: CacheSet): set<int> {
    set i | 0 <= i < |lines| && lines[i].valid :: lines[i].tag as int
  }

  lemma {:induction false} TagCount(lines: CacheSet)
    requires NoDuplicates(Tags(lines))
    ensures |TagSet(lines)| == ValidCount(lines)
  {
    hide NoDuplicates;
    if lines != [] {
      TagSetStep(lines);
      TagCount(lines[..|lines| - 1]);
    }
  }

  lemma TagSetStep(lines: CacheSet)
    requires lines != [] && NoDuplicates(Tags(lines))
    ensures var k := |lines| - 1;
      && NoDuplicates(Tags(lines[..k]))
      && |TagSet(lines)| == |TagSet(lines[..k])| + if lines[k].valid then 1 else 0
  {
    var k := |lines| - 1;
    var rest, last := lines[..k], lines[k];
    assert forall i :: 0 <= i < k ==> Tags(rest)[i] == Tags(lines)[i];
    assert TagSet(lines) == TagSet(rest) + if last.valid then {last.tag as int} else {};
    if last.valid {
      assert Tags(lines)[k] == Some(last.tag);
      assert forall i :: 0 <= i < k && lines[i].valid ==> Tags(lines)[i] == Some(lines[i].tag);
    }
  }

  ghost function Elements(s: seq<int>): set<int> {
    set x | x in s
  }

  lemma {:induction false} DistinctSize(s: seq<int>)
    requires Distinct(s)
    ensures |Elements(s)| == |s|
  {
    if s != [] {
      DistinctSize(s[1..]);
      assert s[0] !in s[1..];
      assert Elements(s) == {s[0]} + Elements(s[1..]);
    }
  }

  /** The list is full exactly when no way is invalid. */
  lemma ListLength(lines: CacheSet, r: RSet)
    requires Listed(r) && Mirrors(lines, r.dirty)
    ensures |r.order| == ValidCount(lines) <= |lines|
    ensures |r.order| == |lines| <==> forall i :: 0 <= i < |lines| ==> lines[i].valid
  {
    TagCount(lines);
    DistinctSize(r.order);
    forall t
      ensures t in TagSet(lines) <==> t in Elements(r.order)
    {
      assert t in r.order <==> IndexOf(r.order, t) < |r.order|
        by { PrefixByIndex(r.order, t, |r.order|); assert r.order[..|r.order|] == r.order; }
      assert t in r.dirty <==> t in TagSet(lines);
    }
    assert TagSet(lines) == Elements(r.order);
  }

  // ---------- the operations ----------

  lemma ValidTags(lines: CacheSet)
    ensures forall i :: 0 <= i < |lines| && lines[i].valid ==> Tags(lines)[i] == Some(lines[i].tag)
  {
  }

  /** No other valid line has the tag of line w. */
  lemma OnlyLine(lines: CacheSet, w: nat)
    requires NoDuplicates(Tags(lines)) && w < |lines| && lines[w].valid
    ensures forall i :: 0 <= i < |lines| && lines[i].valid && i != w ==> lines[i].tag != lines[w].tag
  {
    ValidTags(lines);
  }

  lemma TouchListed(r: RSet, tag: nat, write: bool)
    requires Listed(r) && tag in r.dirty
    ensures Listed(TouchR(r, tag, write))
  {
    MoveToFrontDistinct(r.order, tag);
    MoveToFrontAt(r.order, tag);
    hide Distinct, MoveToFront, IndexOf;
    forall t
      ensures t in TouchR(r, tag, write).dirty <==> IndexOf(MoveToFront(r.order, tag), t) < |MoveToFront(r.order, tag)|
    {
      MovedIndex(r.order, tag, t);
      IndexAtMost(r.order, t);
    }
  }

  lemma TouchMirrors(lines: CacheSet, dirty: map<int, bool>, w: nat, write: bool, now: nat)
    requires Mirrors(lines, dirty) && w < |lines| && lines[w].valid
    ensures Mirrors(lines[w := Touched(lines[w], write, now)], dirty[lines[w].tag := dirty[lines[w].tag] || write])
  {
    TouchHas(lines, w, write, now);
    OnlyLine(lines, w);
    hide NoDuplicates, Has;
  }

  /** Every valid line is on the list, and no other has the tag of line w. */
  ghost predicate OnList(lines: CacheSet, order: seq<int>) {
    forall i :: 0 <= i < |lines| && lines[i].valid ==> 0 <= IndexOf(order, lines[i].tag) < |order|
  }

  lemma RealisesOnList(lines: CacheSet, r: RSet)
    requires Listed(r) && Mirrors(lines, r.dirty)
    ensures OnList(lines, r.order)
  {
  }

  lemma TouchInOrder(lines: CacheSet, order: seq<int>, w: nat, write: bool, now: nat)
    requires InOrder(lines, order) && Earlier(lines, now) && OnList(lines, order)
    requires w < |lines| && lines[w].valid
    requires forall i :: 0 <= i < |lines| && lines[i].valid && i != w ==> lines[i].tag != lines[w].tag
    ensures InOrder(lines[w := Touched(lines[w], write, now)], MoveToFront(order, lines[w].tag))
  {
    hide IndexOf, MoveToFront;
    var tag := lines[w].tag;
    var s, order' := lines[w := Touched(lines[w], write, now)], MoveToFront(order, tag);
    forall i, j | 0 <= i < |s| && 0 <= j < |s| && s[i].valid && s[j].valid
      && IndexOf(order', s[i].tag) < IndexOf(order', s[j].tag)
      ensures s[i].lastAccess > s[j].lastAccess
    {
      MovedIndex(order, tag, s[i].tag);
      MovedIndex(order, tag, s[j].tag);
      assert lines[i].valid && lines[j].valid;
    }
  }

  lemma TouchRealises(lines: CacheSet, r: RSet, w: nat, write: bool, now: nat)
    requires Realises(lines, r) && Earlier(lines, now) && w < |lines| && lines[w].valid
    ensures lines[w].tag in r.dirty
    ensures Realises(lines[w := Touched(lines[w], write, now)], TouchR(r, lines[w].tag, write))
  {
    TouchListed(r, lines[w].tag, write);
    TouchMirrors(lines, r.dirty, w, write, now);
    OnlyLine(lines, w);
    RealisesOnList(lines, r);
    hide Listed, Mirrors, InOrder, OnList;
    TouchInOrder(lines, r.order, w, write, now);
  }

  lemma ListedIndex(r: RSet, tag: int)
    requires Listed(r) && tag in r.dirty
    ensures 0 <= IndexOf(r.order, tag) < |r.order| && r.order[IndexOf(r.order, tag)] == tag
  {
  }

  lemma DropListed(r: RSet, tag: nat)
    requires Listed(r)
    ensures Listed(DropR(r, tag))
  {
    var i := IndexOf(r.order, tag);
    if i < |r.order| {
      RemoveAtDistinct(r.order, i);
      forall t
        ensures t in DropR(r, tag).dirty <==> IndexOf(RemoveAt(r.order, i), t) < |RemoveAt(r.order, i)|
      {
        RemovedIndex(r.order, i, t);
      }
    }
  }

  lemma ClearMirrors(lines: CacheSet, dirty: map<int, bool>, w: nat)
    requires Mirrors(lines, dirty) && w < |lines| && lines[w].valid
    ensures Mirrors(lines[w := lines[w].(valid := false)], dirty - {lines[w].tag})
  {
    ClearHas(lines, w);
    OnlyLine(lines, w);
    hide NoDuplicates, Has;
  }

  lemma ClearInOrder(lines: CacheSet, order: seq<int>, w: nat, i: nat)
    requires InOrder(lines, order) && OnList(lines, order) && Distinct(order)
    requires w < |lines| && lines[w].valid && i < |order| && order[i] == lines[w].tag
    requires forall k :: 0 <= k < |lines| && lines[k].valid && k != w ==> lines[k].tag != lines[w].tag
    ensures InOrder(lines[w := lines[w].(valid := false)], RemoveAt(order, i))
  {
    hide RemoveAt, Distinct;
    var s, order' := lines[w := lines[w].(valid := false)], RemoveAt(order, i);
    forall j, k | 0 <= j < |s| && 0 <= k < |s| && s[j].valid && s[k].valid
      && IndexOf(order', s[j].tag) < IndexOf(order', s[k].tag)
      ensures s[j].lastAccess > s[k].lastAccess
    {
      RemovedIndex(order, i, s[j].tag);
      RemovedIndex(order, i, s[k].tag);
      assert lines[j].valid && lines[k].valid;
    }
  }

  lemma ClearRealises(lines: CacheSet, r: RSet, w: nat)
    requires Realises(lines, r) && w < |lines| && lines[w].valid
    ensures Realises(lines[w := lines[w].(valid := false)], DropR(r, lines[w].tag))
  {
    DropListed(r, lines[w].tag);
    ClearMirrors(lines, r.dirty, w);
    ListedIndex(r, lines[w].tag);
    OnlyLine(lines, w);
    RealisesOnList(lines, r);
    assert Distinct(r.order);
    hide Listed, Mirrors, InOrder, OnList, Distinct, RemoveAt;
    ClearInOrder(lines, r.order, w, IndexOf(r.order, lines[w].tag));
  }

  lemma ConsListed(r: RSet, tag: nat, write: bool)
    requires Listed(r) && tag !in r.dirty
    ensures Listed(RSet([tag] + r.order, r.dirty[tag := write]))
  {
    IndexAtMost(r.order, tag);
    ConsDistinct(r.order, tag);
    hide Distinct, IndexOf;
    forall t
      ensures t in r.dirty[tag := write] <==> IndexOf([tag] + r.order, t) < |[tag] + r.order|
    {
      ConsIndex(r.order, tag, t);
    }
  }

  lemma FillMirrors(lines: CacheSet, dirty: map<int, bool>, w: nat, tag: nat, write: bool, now: nat)
    requires Mirrors(lines, dirty) && w < |lines| && !lines[w].valid && !Has(lines, tag)
    ensures tag !in dirty
    ensures Mirrors(lines[w := Filled(tag, write, now)], dirty[tag := write])
  {
    FillHas(lines, w, Filled(tag, write, now));
    assert forall i :: 0 <= i < |lines| && lines[i].valid ==> lines[i].tag != tag;
    hide NoDuplicates, Has;
  }

  lemma FillInOrder(lines: CacheSet, order: seq<int>, w: nat, tag: nat, write: bool, now: nat)
    requires InOrder(lines, order) && Earlier(lines, now) && OnList(lines, order)
    requires w < |lines| && !lines[w].valid
    requires forall i :: 0 <= i < |lines| && lines[i].valid ==> lines[i].tag != tag
    ensures InOrder(lines[w := Filled(tag, write, now)], [tag] + order)
  {
    hide IndexOf;
    var s, order' := lines[w := Filled(tag, write, now)], [tag] + order;
    forall i, j | 0 <= i < |s| && 0 <= j < |s| && s[i].valid && s[j].valid
      && IndexOf(order', s[i].tag) < IndexOf(order', s[j].tag)
      ensures s[i].lastAccess > s[j].lastAccess
    {
      ConsIndex(order, tag, s[i].tag);
      ConsIndex(order, tag, s[j].tag);
    }
  }

  lemma FillInvalidRealises(lines: CacheSet, r: RSet, w: nat, tag: nat, write: bool, now: nat)
    requires Realises(lines, r) && Earlier(lines, now) && w < |lines| && !lines[w].valid && !Has(lines, tag)
    ensures Realises(lines[w := Filled(tag, write, now)], RSet([tag] + r.order, r.dirty[tag := write]))
  {
    FillMirrors(lines, r.dirty, w, tag, write, now);
    ConsListed(r, tag, write);
    RealisesOnList(lines, r);
    assert forall i :: 0 <= i < |lines| && lines[i].valid ==> lines[i].tag != tag;
    hide Listed, Mirrors, InOrder, OnList, Has;
    FillInOrder(lines, r.order, w, tag, write, now);
  }

  // ---------- the victim ----------

  /** In a full set LRU replaces the line at the end of the list. */
  lemma VictimIsLast(lines: CacheSet, r: RSet)
    requires Realises(lines, r) && |lines| > 0
    ensures var w, last := VictimWay(Keys(Lru, lines)), LastR(r, |lines|);
      && w < |lines|
      && (last.None? ==> !lines[w].valid)
      && (last.Some? ==> lines[w].valid && lines[w].tag == last.value)
  {
    ListLength(lines, r);
    var keys, w := Keys(Lru, lines), VictimWay(Keys(Lru, lines));
    assert IsVictim(keys, w);
    var k := |r.order| - 1;
    if |r.order| == |lines| {
      FullVictim(lines, r, w);
    } else {
      var i :| 0 <= i < |lines| && !lines[i].valid;
      assert keys[i] == None;
    }
  }

  lemma FullVictim(lines: CacheSet, r: RSet, w: nat)
    requires Realises(lines, r) && |r.order| == |lines| > 0 && w < |lines|
    requires forall i :: 0 <= i < |lines| ==> lines[i].valid
    requires IsVictim(Keys(Lru, lines), w)
    ensures lines[w].tag == r.order[|r.order| - 1]
  {
    var k, keys := |r.order| - 1, Keys(Lru, lines);
    var last := r.order[k];
    assert last !in r.order[..k];
    IndexOfAt(r.order, last, k);
    assert last in r.dirty;
    var i :| 0 <= i < |lines| && lines[i].valid && lines[i].tag == last;
    assert keys[i] == Some(lines[i].lastAccess) && keys[w] == Some(lines[w].lastAccess);
    ListedIndex(r, lines[w].tag);
  }

  /** Inserting an absent tag: the list says what goes out, and is the new recency order. */
  lemma FillRealises(lines: CacheSet, r: RSet, tag: nat, write: bool, now: nat)
    requires Realises(lines, r) && Earlier(lines, now) && |lines| > 0 && !Has(lines, tag)
    ensures var w, last := VictimWay(Keys(Lru, lines)), LastR(r, |lines|);
      && w < |lines|
      && (lines[w].valid <==> last.Some?)
      && (last.Some? ==> last.value in r.dirty && lines[w].tag == last.value && lines[w].dirty == r.dirty[last.value])
      && Realises(lines[w := Filled(tag, write, now)], FillR(r, tag, write, |lines|))
  {
    VictimIsLast(lines, r);
    var w, last := VictimWay(Keys(Lru, lines)), LastR(r, |lines|);
    if last.None? {
      FillInvalidRealises(lines, r, w, tag, write, now);
    } else {
      ReplaceRealises(lines, r, w, tag, write, now);
    }
  }

  lemma ReplaceRealises(lines: CacheSet, r: RSet, w: nat, tag: nat, write: bool, now: nat)
    requires Realises(lines, r) && Earlier(lines, now) && !Has(lines, tag)
    requires w < |lines| && lines[w].valid && LastR(r, |lines|) == Some(lines[w].tag)
    ensures lines[w].tag in r.dirty && r.dirty[lines[w].tag] == lines[w].dirty
    ensures Realises(lines[w := Filled(tag, write, now)], FillR(r, tag, write, |lines|))
  {
    var k, out := |r.order| - 1, lines[w].tag;
    ClearRealises(lines, r, w);
    ClearHas(lines, w);
    assert out !in r.order[..k];
    IndexOfAt(r.order, out, k);
    assert RemoveAt(r.order, k) == r.order[..k];
    var cleared := lines[w := lines[w].(valid := false)];
    assert Earlier(cleared, now);
    FillInvalidRealises(cleared, DropR(r, out), w, tag, write, now);
    assert cleared[w := Filled(tag, write, now)] == lines[w := Filled(tag, write, now)];
  }

  // ---------- what the relation depends on ----------

  lemma InOrderAlike(a: CacheSet, b: CacheSet, order: seq<int>)
    requires |a| == |b| && InOrder(a, order)
    requires forall i :: 0 <= i < |a| ==>
      a[i].valid == b[i].valid && a[i].tag == b[i].tag && a[i].lastAccess == b[i].lastAccess
    ensures InOrder(b, order)
  {
    hide IndexOf;
  }

  lemma MirrorsAlike(a: CacheSet, b: CacheSet, dirty: map<int, bool>)
    requires |a| == |b| && Mirrors(a, dirty)
    requires forall i :: 0 <= i < |a| ==> a[i].valid == b[i].valid && a[i].tag == b[i].tag && a[i].dirty == b[i].dirty
    ensures Mirrors(b, dirty)
  {
    assert Tags(a) == Tags(b);
    hide NoDuplicates, Has, Tags;
    forall t: nat
      ensures Has(a, t) <==> Has(b, t)
    {
      FindHas(a, t);
      FindHas(b, t);
    }
  }

  /** The sets agree on tags, dirty bits and access times. */
  ghost predicate Alike(a: CacheSet, b: CacheSet) {
    |a| == |b| && forall i :: 0 <= i < |a| ==>
      a[i].valid == b[i].valid && a[i].tag == b[i].tag && a[i].dirty == b[i].dirty && a[i].lastAccess == b[i].lastAccess
  }

  lemma AlikeRealises(a: CacheSet, b: CacheSet, r: RSet)
    requires Alike(a, b) && Realises(a, r)
    ensures Realises(b, r)
  {
    MirrorsAlike(a, b, r.dirty);
    InOrderAlike(a, b, r.order);
    hide Mirrors, InOrder, Listed;
  }
}
