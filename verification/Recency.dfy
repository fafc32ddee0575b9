/** Lists in order of last use, most recent first. */
module Recency {
  import opened Common

  /** Position of p in s, |s| if it is not there. */
  function IndexOf(s: seq<int>, p: int): (i: int)
    ensures 0 <= i <= |s| && p !in s[..i] && (i < |s| ==> s[i] == p)
  {
    if s == [] then 0
    else if s[0] == p then 0
    else
      var i := IndexOf(s[1..], p);
      assert s[..i + 1] == [s[0]] + s[1..][..i];
      i + 1
  }

  lemma IndexOfAt(s: seq<int>, p: int, i: nat)
    requires i < |s| && s[i] == p && p !in s[..i]
    ensures IndexOf(s, p) == i
  {
    var j := IndexOf(s, p);
    assert forall k :: 0 <= k < i ==> s[k] in s[..i];
    assert forall k :: 0 <= k < j ==> s[k] in s[..j];
  }

  lemma IndexOfAbsent(s: seq<int>, p: int)
    requires p !in s
    ensures IndexOf(s, p) == |s|
  {
  }

  /** The order of last use, latest first, after p is used too. */
  function MoveToFront(s: seq<int>, p: int): seq<int> {
    var i := IndexOf(s, p);
    [p] + s[..i] + if i < |s| then s[i + 1..] else []
  }

  /** r is s with p moved to the front from position i, or put there if i is the length of s. */
  ghost predicate Fronted(s: seq<int>, r: seq<int>, p: int, i: nat) {
    && i <= |s| && (i < |s| ==> s[i] == p)
    && |r| == (if i == |s| then |s| + 1 else |s|) && r[0] == p
    && (forall j :: 0 <= j < i ==> s[j] == r[j + 1])
    && (forall j :: i < j < |s| ==> s[j] == r[j])
  }

  lemma MoveToFrontAt(s: seq<int>, p: int)
    ensures Fronted(s, MoveToFront(s, p), p, IndexOf(s, p))
  {
  }

  lemma FrontedPosition(s: seq<int>, r: seq<int>, p: int, q: int, i: nat, j: nat)
    requires Fronted(s, r, p, i) && q != p && j < |s| && s[j] == q && q !in s[..j]
    ensures var k := if j < i then j + 1 else j; k < |r| && r[k] == q && q !in r[..k]
  {
    var k := if j < i then j + 1 else j;
    forall m | 0 <= m < k
      ensures r[m] != q
    {
      if m > 0 {
        var l := if m <= i then m - 1 else m;
        assert r[m] == s[l] && s[l] in s[..j];
      }
    }
  }

  /** Using p moves the pages ahead of it one place back and leaves the others where they are. */
  lemma MovedIndex(s: seq<int>, p: int, q: int)
    ensures var i, j, r := IndexOf(s, p), IndexOf(s, q), MoveToFront(s, p);
      IndexOf(r, q) == if q == p then 0 else if j == |s| then |r| else if j < i then j + 1 else j
  {
    var i, j, r := IndexOf(s, p), IndexOf(s, q), MoveToFront(s, p);
    MoveToFrontAt(s, p);
    if q == p {
      IndexOfAt(r, q, 0);
    } else if j == |s| {
      assert s[..j] == s;
      IndexOfAbsent(r, q);
    } else {
      FrontedPosition(s, r, p, q, i, j);
      IndexOfAt(r, q, if j < i then j + 1 else j);
    }
  }

  /** Using p keeps the others in order and puts nothing ahead of p. */
  lemma MovedOrder(s: seq<int>, p: int, a: int, b: int)
    requires IndexOf(MoveToFront(s, p), a) < IndexOf(MoveToFront(s, p), b)
    ensures b != p && (a == p || IndexOf(s, a) < IndexOf(s, b))
  {
    MovedIndex(s, p, a);
    MovedIndex(s, p, b);
    MoveToFrontAt(s, p);
    assert IndexOf(s, a) <= |s| && IndexOf(s, b) <= |s|;
    assert a != p && IndexOf(s, a) < |s| ==> IndexOf(s, a) != IndexOf(s, p);
    hide IndexOf, MoveToFront;
  }

  lemma MoveToFrontDistinct(s: seq<int>, p: int)
    requires Distinct(s)
    ensures Distinct(MoveToFront(s, p))
  {
    MoveToFrontAt(s, p);
    var i := IndexOf(s, p);
    assert forall j :: 0 <= j < i ==> s[j] in s[..i];
  }

  lemma MovedIndices(s: seq<int>, p: int)
    ensures forall q :: IndexOf(MoveToFront(s, p), q) == (
                          if q == p then 0
                          else if IndexOf(s, q) == |s| then |MoveToFront(s, p)|
                          else if IndexOf(s, q) < IndexOf(s, p) then IndexOf(s, q) + 1 else IndexOf(s, q))
    ensures forall q :: 0 <= IndexOf(s, q) <= |s|
  {
    forall q {
      MovedIndex(s, p, q);
    }
  }

  lemma IndexAtMost(s: seq<int>, p: int)
    ensures 0 <= IndexOf(s, p) <= |s|
  {
  }

  lemma PrefixByIndex(r: seq<int>, p: int, k: nat)
    requires k <= |r|
    ensures p in r[..k] <==> IndexOf(r, p) < k
  {
    var i := IndexOf(r, p);
    if p in r[..k] {
      var j :| 0 <= j < k && r[j] == p;
      assert forall m :: 0 <= m < i ==> r[m] in r[..i];
    }
  }

  function RemoveAt(s: seq<int>, i: nat): seq<int>
    requires i < |s|
  {
    s[..i] + s[i + 1..]
  }

  lemma RemoveAtDistinct(s: seq<int>, i: nat)
    requires Distinct(s) && i < |s|
    ensures Distinct(RemoveAt(s, i))
  {
  }

  /** Removing an element moves those behind it one place forward. */
  lemma RemovedIndex(s: seq<int>, i: nat, q: int)
    requires Distinct(s) && i < |s|
    ensures var j, r := IndexOf(s, q), RemoveAt(s, i);
      IndexOf(r, q) == if j < i then j else if j == i || j == |s| then |r| else j - 1
  {
    var j, r := IndexOf(s, q), RemoveAt(s, i);
    assert forall k :: 0 <= k < j ==> s[k] in s[..j];
    assert forall k :: 0 <= k < |r| ==> r[k] == if k < i then s[k] else s[k + 1];
    if j == i || j == |s| {
      IndexOfAbsent(r, q);
    } else {
      IndexOfAt(r, q, if j < i then j else j - 1);
    }
  }

  lemma ConsIndex(s: seq<int>, p: int, q: int)
    ensures IndexOf([p] + s, q) == if q == p then 0 else 1 + IndexOf(s, q)
  {
    assert ([p] + s)[1..] == s;
  }

  lemma ConsDistinct(s: seq<int>, p: int)
    requires Distinct(s) && IndexOf(s, p) == |s|
    ensures Distinct([p] + s)
  {
    assert s[..|s|] == s;
  }
}
