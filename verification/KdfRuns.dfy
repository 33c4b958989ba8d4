/** The gate under load: any number of callers sealing and opening password records, hashing
    and verifying passwords, all through one gate (internal/crypto/gate.go, phc.go and
    envelope.go). */
module KdfRuns {
  import opened Kdf
  import opened Envelope

  type Caller = nat

  /** A derivation: through the envelope, or of an account password whose costs come unchecked
      from a stored hash. */
  datatype Job = EnvelopeJob(memoryKiB: int) | AccountJob(memoryKiB: int)

  datatype Pc = Waiting(job: Job) | Holding(job: Job)

  /** `taken` and `returned` count, per caller, the slots it was granted and gave back. */
  datatype State = State(capacity: nat, slots: nat, budget: Argon2Params, pcs: map<Caller, Pc>,
                         taken: map<Caller, nat>, returned: map<Caller, nat>)

  datatype Step =
    | StartSeal(caller: Caller)
    | StartOpen(caller: Caller, rec: EncryptedBody)
    | StartAccount(caller: Caller, memoryKiB: nat)
    | Grant(caller: Caller)
    | GiveUp(caller: Caller)
    | Finish(caller: Caller)

  function Count(m: map<Caller, nat>, c: Caller): nat {
    if c in m then m[c] else 0
  }

  function Wait(s: State, c: Caller, job: Job): State {
    if c in s.pcs then s else s.(pcs := s.pcs[c := Waiting(job)])
  }

  function Next(s: State, step: Step): State {
    match step
    case StartSeal(c) => Wait(s, c, EnvelopeJob(s.budget.memoryKiB))
    case StartOpen(c, rec) =>
      // Open checks the stored costs against the budget before it queues
      if ValidRecord(s.budget, rec) && rec.wrapMode.WrapPassword?
      then Wait(s, c, EnvelopeJob(rec.kdf.value.costs.memoryKiB))
      else s
    case StartAccount(c, m) => Wait(s, c, AccountJob(m))
    case Grant(c) =>
      if c in s.pcs && s.pcs[c].Waiting? && s.slots < s.capacity then
        s.(slots := s.slots + 1, pcs := s.pcs[c := Holding(s.pcs[c].job)], taken := s.taken[c := Count(s.taken, c) + 1])
      else s
    case GiveUp(c) => if c in s.pcs && s.pcs[c].Waiting? then s.(pcs := s.pcs - {c}) else s
    case Finish(c) =>
      if c in s.pcs && s.pcs[c].Holding? && s.slots > 0 then
        s.(slots := s.slots - 1, pcs := s.pcs - {c}, returned := s.returned[c := Count(s.returned, c) + 1])
      else s
  }

  function Run(s: State, steps: seq<Step>): State {
    if steps == [] then s else Next(Run(s, steps[..|steps| - 1]), steps[|steps| - 1])
  }

  function Initial(maxConcurrent: int, budget: Argon2Params): State {
    State(if maxConcurrent < 1 then 1 else maxConcurrent, 0, budget, map[], map[], map[])
  }

  function Holders(s: State): set<Caller> {
    set c | c in s.pcs && s.pcs[c].Holding?
  }

  function EnvelopeHolders(s: State): set<Caller> {
    set c | c in s.pcs && s.pcs[c].Holding? && s.pcs[c].job.EnvelopeJob?
  }

  /** Combined memory of the derivations the given callers are running. */
  ghost function MemoryOf(s: State, callers: set<Caller>): int
    requires callers <= s.pcs.Keys
  {
    if callers == {} then 0
    else
      var c :| c in callers;
      s.pcs[c].job.memoryKiB + MemoryOf(s, callers - {c})
  }

  ghost predicate Inv(s: State) {
    && s.slots == |Holders(s)| && s.slots <= s.capacity
    && (forall c :: c in s.pcs && s.pcs[c].job.EnvelopeJob? ==> s.pcs[c].job.memoryKiB <= s.budget.memoryKiB)
    && (forall c :: Count(s.taken, c) == Count(s.returned, c) + if c in Holders(s) then 1 else 0)
  }

  lemma WaitKeepsInv(s: State, c: Caller, job: Job)
    requires Inv(s) && (job.EnvelopeJob? ==> job.memoryKiB <= s.budget.memoryKiB)
    ensures Inv(Wait(s, c, job))
  {
    assert Holders(Wait(s, c, job)) == Holders(s);
  }

  lemma GrantKeepsInv(s: State, c: Caller)
    requires Inv(s)
    ensures Inv(Next(s, Grant(c)))
  {
    var t := Next(s, Grant(c));
    if t != s {
      assert Holders(t) == Holders(s) + {c} && c !in Holders(s);
    }
  }

  lemma FinishKeepsInv(s: State, c: Caller)
    requires Inv(s)
    ensures Inv(Next(s, Finish(c)))
  {
    var t := Next(s, Finish(c));
    if t != s {
      assert c in Holders(s);
      assert Holders(t) == Holders(s) - {c};
      forall k ensures Count(t.taken, k) == Count(t.returned, k) + if k in Holders(t) then 1 else 0 {
        assert Count(s.taken, k) == Count(s.returned, k) + if k in Holders(s) then 1 else 0;
      }
    }
  }

  lemma GiveUpKeepsInv(s: State, c: Caller)
    requires Inv(s)
    ensures Inv(Next(s, GiveUp(c)))
  {
    assert Holders(Next(s, GiveUp(c))) == Holders(s);
  }

  lemma StepKeepsInv(s: State, step: Step)
    requires Inv(s)
    ensures Inv(Next(s, step)) && Next(s, step).capacity == s.capacity && Next(s, step).budget == s.budget
  {
    match step
    case StartSeal(c) => WaitKeepsInv(s, c, EnvelopeJob(s.budget.memoryKiB));
    case StartOpen(c, rec) =>
      if ValidRecord(s.budget, rec) && rec.wrapMode.WrapPassword? {
        WaitKeepsInv(s, c, EnvelopeJob(rec.kdf.value.costs.memoryKiB));
      }
    case StartAccount(c, m) => WaitKeepsInv(s, c, AccountJob(m));
    case Grant(c) => GrantKeepsInv(s, c);
    case GiveUp(c) => GiveUpKeepsInv(s, c);
    case Finish(c) => FinishKeepsInv(s, c);
  }

  lemma {:induction false} MemoryBound(s: State, callers: set<Caller>, each: nat)
    requires callers <= s.pcs.Keys
    requires forall c :: c in callers ==> s.pcs[c].job.memoryKiB <= each
    ensures MemoryOf(s, callers) <= |callers| * each
    decreases |callers|
  {
    if callers != {} {
      var c :| c in callers && MemoryOf(s, callers) == s.pcs[c].job.memoryKiB + MemoryOf(s, callers - {c});
      MemoryBound(s, callers - {c}, each);
      OneMore(|callers - {c}|, each);
    }
  }

  lemma OneMore(n: nat, m: nat)
    ensures n * m + m == (n + 1) * m
  {
  }

  /** In every reachable state: holders and occupied slots agree and never exceed the capacity,
      every caller has given back each slot it took except one it still holds, and the
      envelope's derivations together use at most slots x configured memory. */
  lemma {:induction false} GateBounds(maxConcurrent: int, budget: Argon2Params, steps: seq<Step>)
    ensures var s := Run(Initial(maxConcurrent, budget), steps);
            && Inv(s)
            && |Holders(s)| == s.slots <= (if maxConcurrent < 1 then 1 else maxConcurrent)
            && (forall c :: Count(s.taken, c) == Count(s.returned, c) + if c in Holders(s) then 1 else 0)
            && MemoryOf(s, EnvelopeHolders(s)) <= s.slots * budget.memoryKiB
            && s.capacity == (if maxConcurrent < 1 then 1 else maxConcurrent) && s.budget == budget
  {
    var s := Run(Initial(maxConcurrent, budget), steps);
    if steps == [] {
      assert Holders(s) == {};
    } else {
      GateBounds(maxConcurrent, budget, steps[..|steps| - 1]);
      StepKeepsInv(Run(Initial(maxConcurrent, budget), steps[..|steps| - 1]), steps[|steps| - 1]);
    }
    MemoryBound(s, EnvelopeHolders(s), budget.memoryKiB);
    assert EnvelopeHolders(s) <= Holders(s);
    SubsetSize(EnvelopeHolders(s), Holders(s));
    MulMonotone(|EnvelopeHolders(s)|, s.slots, budget.memoryKiB);
  }

  lemma {:induction false} SubsetSize(a: set<Caller>, b: set<Caller>)
    requires a <= b
    ensures |a| <= |b|
  {
    assert b == a + (b - a);
  }

  lemma MulMonotone(a: nat, b: nat, m: nat)
    requires a <= b
    ensures a * m <= b * m
  {
  }
}
