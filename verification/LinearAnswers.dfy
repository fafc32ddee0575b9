/** Ids, counters and the first steps of the linear allocator. */
module LinearAnswers {
  import opened Common
  import opened LinearModel

  /**
   A new pool is one free block; ids and counters start again. Without a size there is no pool, and nothing else
   changes.
   */
  lemma InitCorrect(s: State, size: nat, n: nat, algo: Strategy)
    ensures size > 0 && 0 < n <= size ==>
      var (s', id) := Allocate(Init(s, size), n, algo);
      id == 1 && Used(s'.blocks) == {Block(0, n, 1, n, false)} && s'.total == size && s'.attempts == s'.successes == 1
    ensures size == 0 && n > 0 ==>
      Allocate(Init(s, size), n, algo) == (s.(blocks := [], attempts := s.attempts + 1), -1)
  {
    if size > 0 && 0 < n <= size {
      var t := Init(s, size);
      assert t.blocks == [Block(0, size, 0, 0, true)];
      assert Choice(algo, t.blocks, n, 0).None?;
      assert Choice(algo, t.blocks, n, 1) == Some(0);
      assert Inv(t);
      SplitUsed(t, 0, n);
      assert Used(t.blocks) == {};
    }
  }

  /** How often a run asks for memory, of size 0 not counted. */
  function Asked(ops: seq<Op>): nat {
    if ops == [] then 0
    else Asked(ops[..|ops| - 1]) + if ops[|ops| - 1].Alloc? && ops[|ops| - 1].size > 0 then 1 else 0
  }

  /** How often it gets some. */
  function Given(size: nat, ops: seq<Op>): nat {
    if ops == [] then 0
    else
      var before, op := ops[..|ops| - 1], ops[|ops| - 1];
      Given(size, before) + if op.Alloc? && Allocate(Run(size, before), op.size, op.algo).1 != -1 then 1 else 0
  }

  /** Attempts and successes count the requests and the grants of the run, and the grants are numbered from 1. */
  lemma {:induction false} RunCounts(size: nat, ops: seq<Op>)
    ensures var s := Run(size, ops);
      && s.attempts == Asked(ops) && s.successes == Given(size, ops) && s.nextId == Given(size, ops) + 1
      && s.total == size
  {
    if ops != [] {
      var before, op := ops[..|ops| - 1], ops[|ops| - 1];
      RunCounts(size, before);
      RunInv(size, before);
      hide Choice, Released, Split, Replaced, Find;
    }
  }
}
