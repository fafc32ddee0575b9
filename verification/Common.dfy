/** Definitions shared by all components. */
module Common {

  /** Size of a page and of a physical frame in bytes. */
  const PAGE_SIZE := 64

  datatype Option<+T> = None | Some(value: T)

  ghost predicate Distinct<T>(s: seq<T>) {
    forall i, j :: 0 <= i < j < |s| ==> s[i] != s[j]
  }

  /** t is s without its element x. */
  ghost predicate LostOne<T>(s: seq<T>, t: seq<T>, x: T) {
    |t| + 1 == |s| && exists i: nat :: i < |s| && WithoutAt(s, t, i) && s[i] == x
  }

  /** t is s without its element at i. */
  ghost predicate WithoutAt<T>(s: seq<T>, t: seq<T>, i: nat) {
    && |t| + 1 == |s| && i < |s|
    && (forall j :: 0 <= j < i ==> t[j] == s[j])
    && (forall j :: i <= j < |t| ==> t[j] == s[j + 1])
  }

  lemma ConsLost<T>(y: T, s: seq<T>, t: seq<T>, x: T)
    ensures y == x ==> LostOne([y] + s, s, x)
    ensures LostOne(s, t, x) ==> LostOne([y] + s, [y] + t, x)
  {
    assert WithoutAt([y] + s, s, 0);
    if LostOne(s, t, x) {
      var i: nat :| i < |s| && WithoutAt(s, t, i) && s[i] == x;
      assert WithoutAt([y] + s, [y] + t, i + 1);
    }
  }
}
