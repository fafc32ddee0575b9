/** Whole runs of the reference memory-management unit. */
module MmuRuns {
  import opened Common
  import opened Mmu

  ghost function Run(cfg: Config, n: nat, trace: seq<Access>): (s: State)
    ensures Inv(s) && |s.frames| == n
  {
    if trace == [] then FreshInv(n); Fresh(n)
    else
      var s := Run(cfg, n, trace[..|trace| - 1]);
      StepInv(cfg, s, trace[|trace| - 1]);
      Step(cfg, s, trace[|trace| - 1])
  }

  lemma RunExtend(cfg: Config, n: nat, trace: seq<Access>, a: Access)
    ensures Run(cfg, n, trace + [a]) == Step(cfg, Run(cfg, n, trace), a)
  {
    assert (trace + [a])[..|trace|] == trace;
  }

  // ---------- what a translation returns ----------

  /**
   With at least one frame every admitted access gets an address, in a frame that exists and that no other
   resident page occupies.
   */
  lemma TranslationCorrect(cfg: Config, s: State, a: Access)
    requires Inv(s) && |s.frames| > 0
    ensures var s' := Step(cfg, s, a); var r := Result(cfg, s', a);
      && (r.Some? <==> Admitted(cfg, a))
      && (r.Some? ==>
            && PageOf(a) in s'.pages
            && r.value < |s.frames| * PAGE_SIZE
            && r.value % PAGE_SIZE == a.vaddr % PAGE_SIZE
            && s'.frames[r.value / PAGE_SIZE] == PageOf(a)
            && forall p :: p in s'.pages && p != PageOf(a) ==> s'.pages[p].frame != r.value / PAGE_SIZE)
  {
    StepInv(cfg, s, a);
    var s' := Step(cfg, s, a);
    if Admitted(cfg, a) {
      AdmittedIsResident(cfg, s, a);
      var f, offset := s'.pages[PageOf(a)].frame, a.vaddr % PAGE_SIZE;
      assert (f * PAGE_SIZE + offset) / PAGE_SIZE == f && (f * PAGE_SIZE + offset) % PAGE_SIZE == offset;
    }
  }

  lemma AdmittedIsResident(cfg: Config, s: State, a: Access)
    requires Inv(s) && |s.frames| > 0 && Admitted(cfg, a)
    ensures PageOf(a) in Step(cfg, s, a).pages
  {
    if PageOf(a) !in s.pages {
      assert Inv(Tick(s));
      FaultInv(cfg.policy, Tick(s), PageOf(a), a.write);
    }
  }

  // ---------- accounting ----------

  lemma FaultsWhenAbsent(cfg: Config, s: State, a: Access)
    requires Inv(s)
    ensures Step(cfg, s, a).faults == s.faults + if Admitted(cfg, a) && PageOf(a) !in s.pages then 1 else 0
  {
  }


  /** The access faults, finds no free frame, and throws out a page that must be written back. */
  ghost predicate EvictsDirty(cfg: Config, s: State, a: Access)
    requires Inv(s)
  {
    var s1 := Charge(Tick(s));
    && Admitted(cfg, a) && PageOf(a) !in s.pages && Full(s1)
    && MappingOf(s1, Victim(cfg.policy, s1)).dirty
  }

  ghost function Admissions(cfg: Config, trace: seq<Access>): nat {
    if trace == [] then 0
    else Admissions(cfg, trace[..|trace| - 1]) + if Admitted(cfg, trace[|trace| - 1]) then 1 else 0
  }

  ghost function DirtyEvictions(cfg: Config, n: nat, trace: seq<Access>): nat {
    if trace == [] then 0
    else
      var before := trace[..|trace| - 1];
      DirtyEvictions(cfg, n, before) + if EvictsDirty(cfg, Run(cfg, n, before), trace[|trace| - 1]) then 1 else 0
  }

  lemma StepCounts(cfg: Config, s: State, a: Access)
    requires Inv(s)
    ensures var s' := Step(cfg, s, a);
      && s'.clock == s.clock + (if Admitted(cfg, a) then 1 else 0)
      && s'.hits + s'.faults == s.hits + s.faults + (if Admitted(cfg, a) then 1 else 0)
      && s'.disk == s.disk + (s'.faults - s.faults) + (if EvictsDirty(cfg, s, a) then 1 else 0)
  {
    var s1 := Charge(Tick(s));
    if Admitted(cfg, a) && PageOf(a) !in s.pages {
      assert Inv(Tick(s)) && Inv(s1);
      if s1.free == [] && |s1.frames| > 0 {
        assert MappingOf(s1, Victim(cfg.policy, s1)) == s1.pages[s1.frames[Victim(cfg.policy, s1)]];
      }
    }
  }

  /** Hits and faults add up to the admitted accesses; the disk is used once per fault and per dirty eviction. */
  lemma {:induction false} Accounting(cfg: Config, n: nat, trace: seq<Access>)
    ensures var s := Run(cfg, n, trace);
      && s.hits + s.faults == s.clock == Admissions(cfg, trace)
      && s.disk == s.faults + DirtyEvictions(cfg, n, trace)
  {
    if trace != [] {
      var before := trace[..|trace| - 1];
      Accounting(cfg, n, before);
      StepCounts(cfg, Run(cfg, n, before), trace[|trace| - 1]);
    }
  }

  // ---------- results of a run, and the two paging modes ----------

  /** What the translations of a run return. */
  ghost function Results(cfg: Config, n: nat, trace: seq<Access>): seq<Option<nat>> {
    if trace == [] then []
    else
      var before, a := trace[..|trace| - 1], trace[|trace| - 1];
      Results(cfg, n, before) + [Result(cfg, Run(cfg, n, trace), a)]
  }

  /**
   Flat and four-level paging agree: on addresses below the flat limit both modes reach the same state after
   every run, so the same mapping, victims and counters, and return the same physical addresses.
   */
  lemma {:induction false} ModeEquivalence(policy: Policy, flatLimit: nat, treeLimit: nat, n: nat, trace: seq<Access>)
    requires flatLimit <= treeLimit
    requires forall a :: a in trace ==> a.vaddr < flatLimit
    ensures var (flat, tree) := (Config(policy, flatLimit, false), Config(policy, treeLimit, true));
      Run(flat, n, trace) == Run(tree, n, trace) && Results(flat, n, trace) == Results(tree, n, trace)
  {
    if trace != [] {
      var before := trace[..|trace| - 1];
      assert forall a :: a in before ==> a in trace;
      ModeEquivalence(policy, flatLimit, treeLimit, n, before);
      assert trace[|trace| - 1].vaddr < flatLimit;
    }
  }
}
