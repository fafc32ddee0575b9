/** The CLOCK sweep: which page goes, and which reference bits the sweep takes. */
module MmuClock {
  import opened Mmu

  ghost predicate ReferencedFrame(s: State, f: nat)
    requires Full(s) && f < |s.frames|
  {
    MappingOf(s, f).referenced
  }

  /** Distance of a frame from the hand in sweep direction. */
  function Offset(s: State, f: nat): (d: nat)
    requires f < |s.frames| && s.hand < |s.frames|
    ensures d < |s.frames|
  {
    if f >= s.hand then f - s.hand else f + |s.frames| - s.hand
  }

  lemma OffsetInverse(s: State, f: nat)
    requires f < |s.frames| && s.hand < |s.frames|
    ensures FromHand(s, Offset(s, f)) == f
    ensures forall d: nat :: d < |s.frames| && FromHand(s, d) == f ==> d == Offset(s, f)
  {
  }

  /** The victim is the first unreferenced frame in sweep order, or the hand's own frame if all are referenced. */
  lemma ClockVictim(s: State)
    requires Full(s)
    ensures var v := Victim(Clock, s);
      if forall f: nat :: f < |s.frames| ==> ReferencedFrame(s, f)
      then v == s.hand
      else !ReferencedFrame(s, v)
           && forall f: nat :: f < |s.frames| && Offset(s, f) < Offset(s, v) ==> ReferencedFrame(s, f)
  {
    var n, k, v := |s.frames|, Skipped(s, 0), Victim(Clock, s);
    forall f: nat | f < n && Offset(s, f) < k
      ensures ReferencedFrame(s, f)
    {
      OffsetInverse(s, f);
    }
    OffsetInverse(s, v);
    if k == n {
      assert forall f: nat :: f < n ==> Offset(s, f) < k && ReferencedFrame(s, f);
    } else {
      assert !ReferencedFrame(s, v);
    }
  }

  /** The sweep takes the bit of exactly the frames before the victim, of all if all were set, and moves one past it. */
  lemma ClockSweep(s: State, p: int)
    requires Full(s) && p in s.pages && s.pages[p].frame != Victim(Clock, s)
    ensures var s', v, f := Evict(Clock, s), Victim(Clock, s), s.pages[p].frame;
      && s'.hand == After(v, |s.frames|)
      && p in s'.pages
      && (s'.pages[p].referenced <==> ReferencedFrame(s, f) && Offset(s, f) > Offset(s, v) && !ReferencedFrame(s, v))
  {
    var n, k, v, f := |s.frames|, Skipped(s, 0), Victim(Clock, s), s.pages[p].frame;
    var s' := Evict(Clock, s);
    assert MappingOf(s, f) == s.pages[p];
    OffsetInverse(s, f);
    BitTaken(s, p, k);
    ClockVictim(s);
    OffsetInverse(s, v);
    assert s'.pages[p] == Unreference(s, k)[p];
  }

  lemma BitTaken(s: State, p: int, k: nat)
    requires Full(s) && p in s.pages && k <= |s.frames|
    ensures Unreference(s, k)[p].referenced <==> s.pages[p].referenced && Offset(s, s.pages[p].frame) >= k
  {
    var f := s.pages[p].frame;
    OffsetInverse(s, f);
    if Offset(s, f) < k {
      assert FromHand(s, Offset(s, f)) == f;
    }
  }

  /** Second chance: a referenced page is thrown out only when every resident page is referenced. */
  lemma SecondChance(s: State, p: int)
    requires Full(s) && p in s.pages && s.pages[p].referenced && p !in Evict(Clock, s).pages
    ensures forall q :: q in s.pages ==> s.pages[q].referenced
  {
    ClockVictim(s);
    EvictInv(Clock, s);
    assert MappingOf(s, s.pages[p].frame) == s.pages[p];
    forall q | q in s.pages
      ensures s.pages[q].referenced
    {
      assert MappingOf(s, s.pages[q].frame) == s.pages[q];
      assert ReferencedFrame(s, s.pages[q].frame);
    }
  }

  // ---------- the sweep step by step ----------

  /** The sweep has passed `tries` frames, all of them referenced before. */
  ghost predicate Sweeping(s: State, pages: map<int, Mapping>, hand: nat, tries: nat) {
    |s.frames| > 0 ==>
      && Full(s) && tries <= |s.frames| && Skipped(s, 0) == Skipped(s, tries)
      && hand == FromHand(s, tries) && pages == Unreference(s, tries)
  }

  lemma SweepStart(s: State)
    requires Inv(s) && s.free == []
    ensures Sweeping(s, s.pages, s.hand, 0)
  {
    if |s.frames| > 0 {
      assert Unreference(s, 0) == s.pages;
    }
  }

  /** The first d frames from the hand do not include the next one. */
  lemma NotYetReached(s: State, d: nat)
    requires s.hand < |s.frames| && d < |s.frames|
    ensures forall i: nat :: i < d ==> FromHand(s, i) != FromHand(s, d)
  {
  }

  /** Whether frame f is among the first d + 1 frames from the hand. */
  lemma ReachOne(s: State, d: nat, f: nat)
    requires s.hand < |s.frames| && d < |s.frames|
    ensures (exists i: nat :: i < d + 1 && FromHand(s, i) == f) <==>
      f == FromHand(s, d) || exists i: nat :: i < d && FromHand(s, i) == f
  {
    hide FromHand;
    if f == FromHand(s, d) {
      assert d < d + 1 && FromHand(s, d) == f;
    }
  }

  lemma UnreferenceOne(s: State, d: nat, q: int)
    requires Full(s) && d < |s.frames| && q in s.pages
    ensures Unreference(s, d + 1)[q] ==
      if s.pages[q].frame == FromHand(s, d) then s.pages[q].(referenced := false) else Unreference(s, d)[q]
  {
    ReachOne(s, d, s.pages[q].frame);
    hide Inv, FromHand;
  }

  lemma NextReferenced(s: State, d: nat)
    requires Full(s) && d < |s.frames|
    ensures var p := s.frames[FromHand(s, d)]; p in s.pages && Unreference(s, d)[p] == s.pages[p]
  {
    NotYetReached(s, d);
    var p := s.frames[FromHand(s, d)];
    assert MappingOf(s, FromHand(s, d)) == s.pages[p] && s.pages[p].frame == FromHand(s, d);
    hide Inv, FromHand;
  }

  lemma UnreferenceFrame(s: State, d: nat)
    requires Full(s) && d < |s.frames|
    ensures var p := s.frames[FromHand(s, d)];
      && p in s.pages
      && Unreference(s, d)[p] == s.pages[p]
      && Unreference(s, d + 1) == Unreference(s, d)[p := s.pages[p].(referenced := false)]
  {
    var f := FromHand(s, d);
    var p := s.frames[f];
    assert MappingOf(s, f) == s.pages[p] && Inverse(s);
    NextReferenced(s, d);
    hide Inv, FromHand, Unreference;
    forall q | q in s.pages
      ensures Unreference(s, d + 1)[q] == if q == p then s.pages[p].(referenced := false) else Unreference(s, d)[q]
    {
      UnreferenceOne(s, d, q);
      assert s.frames[s.pages[q].frame] == q;
    }
  }

  /** One attempt of the sweep: a referenced page loses its bit, an unreferenced one is the victim. */
  lemma SweepStep(s: State, pages: map<int, Mapping>, hand: nat, tries: nat)
    requires |s.frames| > 0 && Sweeping(s, pages, hand, tries)
    ensures hand < |s.frames| && s.frames[hand] >= 0 && s.frames[hand] in pages
    ensures var p := s.frames[hand];
      if pages[p].referenced
      then tries < |s.frames|
           && Sweeping(s, pages[p := pages[p].(referenced := false)], After(hand, |s.frames|), tries + 1)
      else hand == Victim(Clock, s) && pages == Unreference(s, Skipped(s, 0))
  {
    var n, p := |s.frames|, s.frames[hand];
    assert MappingOf(s, hand) == s.pages[p];
    if tries < n {
      UnreferenceFrame(s, tries);
    } else {
      BitTaken(s, p, n);
    }
  }
}
