/** Choosing a way within one set of a set-associative structure. */
module Ways {
  import opened Common

  /** The first way with tag t, |tags| if there is none; None marks an invalid way. */
  function Find(tags: seq<Option<nat>>, t: nat): (w: nat)
    ensures w <= |tags| && (w < |tags| ==> tags[w] == Some(t))
    ensures forall i :: 0 <= i < w ==> tags[i] != Some(t)
  {
    if tags == [] || tags[0] == Some(t) then 0 else
    var w := 1 + Find(tags[1..], t);
    assert forall i :: 1 <= i < w ==> tags[i] == tags[1..][i - 1];
    w
  }

  lemma FindUnique(tags: seq<Option<nat>>, t: nat, w: nat)
    requires w <= |tags| && (w < |tags| ==> tags[w] == Some(t))
    requires forall i :: 0 <= i < w ==> tags[i] != Some(t)
    ensures w == Find(tags, t)
  {
  }

  /** The way to replace: the first invalid one, otherwise the first with the smallest key. */
  ghost predicate IsVictim(keys: seq<Option<nat>>, w: nat) {
    && w < |keys|
    && if keys[w] == None
       then forall i :: 0 <= i < w ==> keys[i] != None
       else && (forall i :: 0 <= i < |keys| ==> keys[i] != None && keys[w].value <= keys[i].value)
            && (forall i :: 0 <= i < w ==> keys[w].value < keys[i].value)
  }

  function VictimBelow(keys: seq<Option<nat>>, n: nat): (w: nat)
    requires 0 < n <= |keys|
    ensures IsVictim(keys[..n], w)
    decreases n
  {
    if n == 1 then 0
    else
      var w := VictimBelow(keys, n - 1);
      assert forall i :: 0 <= i < n - 1 ==> keys[..n - 1][i] == keys[i] == keys[..n][i];
      if keys[w] == None then w
      else if keys[n - 1] == None || keys[n - 1].value < keys[w].value then n - 1
      else w
  }

  function VictimWay(keys: seq<Option<nat>>): (w: nat)
    requires keys != []
    ensures IsVictim(keys, w)
  {
    assert keys[..|keys|] == keys;
    VictimBelow(keys, |keys|)
  }

  lemma VictimUnique(keys: seq<Option<nat>>, w: nat)
    requires IsVictim(keys, w)
    ensures w == VictimWay(keys)
  {
  }

  ghost predicate NoDuplicates(tags: seq<Option<nat>>) {
    forall i, j :: 0 <= i < j < |tags| && tags[i] != None ==> tags[i] != tags[j]
  }
}
