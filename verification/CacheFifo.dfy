/** One FIFO cache set: insertion times against a queue of tags, which hits do not reorder. */
module CacheFifo {
  import opened Common
  import opened Ways
  import opened Recency
  import opened CacheModel
  import opened CacheRecency

  /** The set as LRU would see it if a line were used only when it is inserted. */
  function Aged(lines: CacheSet): CacheSet {
    seq(|lines|, i requires 0 <= i < |lines| => lines[i].(lastAccess := lines[i].insertion))
  }

  lemma AgedAgrees(lines: CacheSet)
    ensures Tags(Aged(lines)) == Tags(lines) && Keys(Lru, Aged(lines)) == Keys(Fifo, lines)
    ensures forall t :: Has(Aged(lines), t) <==> Has(lines, t)
  {
    forall t
      ensures Has(Aged(lines), t) <==> Has(lines, t)
    {
      if i :| 0 <= i < |lines| && lines[i].valid && lines[i].tag == t {
        assert Aged(lines)[i].valid && Aged(lines)[i].tag == t;
      }
    }
  }

  /** A hit may make the line dirty; the queue stays. */
  function HitQ(q: RSet, tag: nat, write: bool): RSet
    requires tag in q.dirty
  {
    RSet(q.order, q.dirty[tag := q.dirty[tag] || write])
  }

  /** The queue lists the tags of the valid lines, last inserted first. */
  ghost predicate Queued(lines: CacheSet, q: RSet, now: nat) {
    Realises(Aged(lines), q) && Earlier(Aged(lines), now)
  }

  lemma DirtiedRealises(lines: CacheSet, q: RSet, w: nat, write: bool)
    requires Realises(lines, q) && w < |lines| && lines[w].valid
    ensures lines[w].tag in q.dirty
    ensures Realises(lines[w := lines[w].(dirty := lines[w].dirty || write)], HitQ(q, lines[w].tag, write))
  {
    var s, now := lines[w := lines[w].(dirty := lines[w].dirty || write)], 0;
    TouchMirrors(lines, q.dirty, w, write, now);
    MirrorsAlike(lines[w := Touched(lines[w], write, now)], s, q.dirty[lines[w].tag := q.dirty[lines[w].tag] || write]);
    InOrderAlike(lines, s, q.order);
    hide Mirrors, InOrder, IndexOf, Distinct;
  }

  lemma AgedTouch(lines: CacheSet, w: nat, write: bool, now: nat)
    requires w < |lines| && Earlier(Aged(lines), now)
    ensures var l, l' := Aged(lines), Aged(lines[w := Touched(lines[w], write, now)]);
      Alike(l[w := l[w].(dirty := l[w].dirty || write)], l') && Earlier(l', now + 1)
  {
  }

  lemma HitQueued(lines: CacheSet, q: RSet, w: nat, write: bool, now: nat)
    requires Queued(lines, q, now) && w < |lines| && lines[w].valid
    ensures lines[w].tag in q.dirty
    ensures Queued(lines[w := Touched(lines[w], write, now)], HitQ(q, lines[w].tag, write), now + 1)
  {
    var l, l' := Aged(lines), Aged(lines[w := Touched(lines[w], write, now)]);
    DirtiedRealises(l, q, w, write);
    AgedTouch(lines, w, write, now);
    hide Realises, HitQ, Alike, Earlier, Aged;
    AlikeRealises(l[w := l[w].(dirty := l[w].dirty || write)], l', HitQ(q, lines[w].tag, write));
  }

  /** A miss inserts at the end; what leaves a full set is the line inserted first. */
  lemma FillQueued(lines: CacheSet, q: RSet, tag: nat, write: bool, now: nat)
    requires Queued(lines, q, now) && |lines| > 0 && !Has(lines, tag)
    ensures var w, first := VictimWay(Keys(Fifo, lines)), LastR(q, |lines|);
      && w < |lines| && (lines[w].valid <==> first.Some?) && (first.Some? ==> lines[w].tag == first.value)
      && Queued(lines[w := Filled(tag, write, now)], FillR(q, tag, write, |lines|), now + 1)
  {
    AgedAgrees(lines);
    var l, w := Aged(lines), VictimWay(Keys(Fifo, lines));
    var l' := Aged(lines[w := Filled(tag, write, now)]);
    assert |l| == |lines| && l[w].valid == lines[w].valid && l[w].tag == lines[w].tag;
    assert l' == l[w := Filled(tag, write, now)] && Earlier(l', now + 1);
    hide Realises, Has, Keys, Tags, VictimWay, FillR, Aged;
    FillRealises(l, q, tag, write, now);
  }

  lemma ClearQueued(lines: CacheSet, q: RSet, w: nat, now: nat)
    requires Queued(lines, q, now) && w < |lines| && lines[w].valid
    ensures Queued(lines[w := lines[w].(valid := false)], DropR(q, lines[w].tag), now)
  {
    var l, l' := Aged(lines), Aged(lines[w := lines[w].(valid := false)]);
    assert l' == l[w := l[w].(valid := false)] && Earlier(l', now);
    hide Realises, DropR, Aged;
    ClearRealises(l, q, w);
  }

  // ---------- runs ----------

  /** Use: a probe, and an insertion if it missed. Drop: an invalidation. */
  datatype Op = Use(tag: nat, write: bool) | Drop(tag: nat)

  function Step(lines: CacheSet, now: nat, op: Op): (lines': CacheSet)
    requires lines != []
    ensures |lines'| == |lines|
  {
    var w := Find(Tags(lines), op.tag);
    match op
    case Use(tag, write) =>
      if w < |lines| then lines[w := Touched(lines[w], write, now)]
      else lines[VictimWay(Keys(Fifo, lines)) := Filled(tag, write, now)]
    case Drop(tag) => if w < |lines| then lines[w := lines[w].(valid := false)] else lines
  }

  function StepQ(q: RSet, ways: nat, op: Op): RSet {
    match op
    case Use(tag, write) => if tag in q.dirty then HitQ(q, tag, write) else FillR(q, tag, write, ways)
    case Drop(tag) => DropR(q, tag)
  }

  /** An empty FIFO set of the given ways after a run; times[i] is the level's clock at operation i. */
  function Run(ways: nat, ops: seq<Op>, times: seq<nat>): (lines: CacheSet)
    requires ways > 0 && |times| == |ops|
    ensures |lines| == ways
  {
    if ops == [] then seq(ways, _ => EMPTY)
    else
      var n := |ops| - 1;
      Step(Run(ways, ops[..n], times[..n]), times[n], ops[n])
  }

  ghost predicate Rising(times: seq<nat>) {
    forall i, j :: 0 <= i < j < |times| ==> times[i] < times[j]
  }

  function RunQ(ways: nat, ops: seq<Op>): RSet {
    if ops == [] then RSet([], map[]) else StepQ(RunQ(ways, ops[..|ops| - 1]), ways, ops[|ops| - 1])
  }

  lemma StepQueued(lines: CacheSet, q: RSet, now: nat, op: Op)
    requires Queued(lines, q, now) && lines != []
    ensures Queued(Step(lines, now, op), StepQ(q, |lines|, op), now + 1)
  {
    AgedAgrees(lines);
    FindHas(lines, op.tag);
    var w := Find(Tags(lines), op.tag);
    assert w < |lines| ==> Tags(lines)[w] == Some(op.tag) && lines[w].valid && lines[w].tag == op.tag;
    assert op.tag in q.dirty <==> Has(Aged(lines), op.tag);
    IndexAtMost(q.order, op.tag);
    assert op.tag !in q.dirty ==> DropR(q, op.tag) == q;
    hide Realises, Has, Tags, Keys, VictimWay, FillR, HitQ, DropR, Aged, Find;
    match op
    case Use(tag, write) =>
      if w < |lines| {
        HitQueued(lines, q, w, write, now);
      } else {
        FillQueued(lines, q, tag, write, now);
      }
    case Drop(tag) =>
      if w < |lines| {
        ClearQueued(lines, q, w, now);
      }
  }

  lemma LaterQueued(lines: CacheSet, q: RSet, now: nat, later: nat)
    requires Queued(lines, q, now) && now <= later
    ensures Queued(lines, q, later)
  {
    hide Realises;
  }

  /** After every run a FIFO set holds the tags of the queue, inserted in its order. */
  lemma {:induction false} FifoSetIsQueue(ways: nat, ops: seq<Op>, times: seq<nat>)
    requires ways > 0 && |times| == |ops| && Rising(times)
    ensures Queued(Run(ways, ops, times), RunQ(ways, ops), if ops == [] then 0 else times[|ops| - 1] + 1)
  {
    if ops == [] {
      assert forall i :: 0 <= i < ways ==> !Aged(Run(ways, ops, times))[i].valid;
    } else {
      hide Queued, Step, StepQ;
      var n := |ops| - 1;
      var lines, q := Run(ways, ops[..n], times[..n]), RunQ(ways, ops[..n]);
      FifoSetIsQueue(ways, ops[..n], times[..n]);
      LaterQueued(lines, q, if n == 0 then 0 else times[n - 1] + 1, times[n]);
      StepQueued(lines, q, times[n], ops[n]);
    }
  }
}
