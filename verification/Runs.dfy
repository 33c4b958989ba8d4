/** Runs from any sound state: what they keep, what they can never undo, and how a client's own
    steps and everyone else's fit together into one run. */
module Runs {
  import opened Base
  import opened Lifecycle
  import Bodies
  import Reads

  ghost predicate Sound(w: World) {
    Bodies.Inv(w) && Reads.Genuine(w)
  }

  lemma InitialIsSound(cfg: Config, clock: int)
    ensures Sound(Initial(cfg, clock))
  {
  }

  lemma StepKeepsSound(w: World, step: Step)
    requires Sound(w)
    ensures Sound(Next(w, step))
  {
    Bodies.StepKeepsInv(w, step);
    Reads.StepKeepsGenuine(w, step);
  }

  // --- What no step undoes -----------------------------------------------------------------

  /** The paste had a row, and has no body. */
  predicate BodyGone(w: World, id: Id) {
    id in w.book.born && id !in w.bodies
  }

  /** The paste had a row, and it is marked deleted or purged. */
  predicate Tombstoned(w: World, id: Id) {
    id in w.book.born && (id in w.rows ==> w.rows[id].deletedAt.Some?)
  }

  /** The present keeps the past: history, time, lost bodies and deletions. */
  ghost predicate Keeps(w: World, t: World) {
    && t.cfg == w.cfg && w.clock <= t.clock && Reads.Grows(w.book, t.book)
    && (forall id :: BodyGone(w, id) ==> BodyGone(t, id))
    && (forall id :: Tombstoned(w, id) ==> Tombstoned(t, id))
  }

  /** Rows present before are not undeleted, and bodies appear only for ids without a row. */
  predicate NoRevival(w: World, t: World) {
    && (forall id :: id in t.rows && id in w.rows && w.rows[id].deletedAt.Some? ==> t.rows[id].deletedAt.Some?)
    && (forall id :: id in t.rows && id !in w.rows ==> id !in w.book.born)
    && (forall id :: id in t.bodies && id !in w.bodies ==> id !in w.book.born)
  }

  lemma KeepsFrom(w: World, t: World)
    requires t.cfg == w.cfg && w.clock <= t.clock && Reads.Grows(w.book, t.book) && NoRevival(w, t)
    ensures Keeps(w, t)
  {
  }

  lemma CreateNoRevival(w: World, pc: Pc, a: Action)
    requires CreatePc(pc) && CreateFits(w, pc, a) && (pc.Putting? || pc.Inserting? ==> pc.id !in w.book.born)
    ensures var t := CreateEffect(w, pc, a); NoRevival(w, t) && Reads.Grows(w.book, t.book)
  {
  }

  lemma SweepNoRevival(w: World, pc: Pc, a: Action)
    requires SweepPc(pc) && SweepFits(pc, a)
    ensures NoRevival(w, SweepEffect(w, pc, a))
  {
    SweepFrame(w, pc, a);
    if pc.Purging? {
      PurgeFrame(w, pc.now, pc.cfg, a.fate);
    }
  }

  lemma DeleteNoRevival(w: World, pc: Pc, a: Action)
    requires DeletePc(pc) && DeleteFits(pc, a)
    ensures NoRevival(w, DeleteEffect(w, pc, a))
  {
  }

  lemma ReadNoRevival(w: World, pc: Pc, a: Action)
    requires ReadPc(pc) && ReadFits(w, pc, a)
    ensures NoRevival(w, ReadEffect(w, pc, a)) && Reads.Grows(w.book, ReadEffect(w, pc, a).book)
  {
    ReadFrame(w, pc, a);
  }

  lemma EffectKeeps(w: World, c: Client, a: Action)
    requires Bodies.Inv(w) && c in w.pcs && Fits(w, w.pcs[c], a)
    ensures var t := Effect(w, w.pcs[c], a);
            t.cfg == w.cfg && t.clock == w.clock && NoRevival(w, t) && Reads.Grows(w.book, t.book)
  {
    var pc := w.pcs[c];
    EffectFrame(w, pc, a);
    assert Bodies.PcInv(w.bodies, w.book.born, w.book.issued, pc);
    if a.Crash? {
    } else if CreatePc(pc) {
      CreateNoRevival(w, pc, a);
    } else if DeletePc(pc) {
      DeleteFrame(w, pc, a);
      DeleteNoRevival(w, pc, a);
    } else if SweepPc(pc) {
      SweepFrame(w, pc, a);
      SweepNoRevival(w, pc, a);
    } else {
      ReadNoRevival(w, pc, a);
    }
  }

  lemma ShiftKeeps(w: World, t: World, c: Client, next: Option<Pc>)
    requires t.cfg == w.cfg && w.clock <= t.clock && Reads.Grows(w.book, t.book) && NoRevival(w, t)
    ensures Keeps(w, Shift(t, c, next))
  {
    KeepsFrom(w, Shift(t, c, next));
  }

  lemma StartKeeps(w: World, c: Client, a: Action)
    requires Sound(w) && StartFits(w, a)
    ensures Keeps(w, Shift(StartEffect(w, a), c, Some(StartPc(w, a))))
  {
    StartFrame(w, a);
    ShiftKeeps(w, StartEffect(w, a), c, Some(StartPc(w, a)));
  }

  lemma StepKeeps(w: World, step: Step)
    requires Sound(w)
    ensures Keeps(w, Next(w, step))
  {
    if !step.Do? {
      KeepsFrom(w, Next(w, step));
    } else if step.client !in w.pcs && StartFits(w, step.action) {
      StartKeeps(w, step.client, step.action);
    } else if step.client in w.pcs && Fits(w, w.pcs[step.client], step.action) {
      EffectKeeps(w, step.client, step.action);
      ShiftKeeps(w, Effect(w, w.pcs[step.client], step.action), step.client, Move(w, w.pcs[step.client], step.action));
    } else {
      KeepsFrom(w, w);
    }
  }

  // --- One state leading to another --------------------------------------------------------

  ghost predicate Leads(w: World, t: World) {
    exists steps :: Run(w, steps) == t
  }

  ghost predicate Reachable(w: World) {
    exists cfg, clock :: Leads(Initial(cfg, clock), w)
  }

  lemma LeadsRefl(w: World)
    ensures Leads(w, w)
  {
    assert Run(w, []) == w;
  }

  lemma LeadsStep(w: World, t: World, step: Step)
    requires Leads(w, t)
    ensures Leads(w, Next(t, step))
  {
    var steps :| Run(w, steps) == t;
    RunOne(w, steps, step);
  }

  lemma LeadsTrans(w: World, t: World, u: World)
    requires Leads(w, t) && Leads(t, u)
    ensures Leads(w, u)
  {
    var a :| Run(w, a) == t;
    var b :| Run(t, b) == u;
    RunConcat(w, a, b);
  }

  /** Whatever the run, soundness lasts and nothing is undone: content, expiries and
      ciphertexts on record stay, a body once gone never returns, a deletion is final. */
  lemma {:induction false} RunKeepsPast(w: World, steps: seq<Step>)
    requires Sound(w)
    ensures Sound(Run(w, steps)) && Keeps(w, Run(w, steps))
  {
    if steps != [] {
      var t := Run(w, steps[..|steps| - 1]);
      RunKeepsPast(w, steps[..|steps| - 1]);
      StepKeepsSound(t, steps[|steps| - 1]);
      StepKeeps(t, steps[|steps| - 1]);
    }
  }

  lemma ReachableIsSound(w: World)
    requires Reachable(w)
    ensures Sound(w)
  {
    var cfg, clock :| Leads(Initial(cfg, clock), w);
    var steps :| Run(Initial(cfg, clock), steps) == w;
    InitialIsSound(cfg, clock);
    RunKeepsPast(Initial(cfg, clock), steps);
  }

  lemma LeadsKeeps(w: World, t: World)
    requires Reachable(w) && Leads(w, t)
    ensures Reachable(t) && Sound(t) && Keeps(w, t)
  {
    var cfg, clock :| Leads(Initial(cfg, clock), w);
    LeadsTrans(Initial(cfg, clock), w, t);
    ReachableIsSound(w);
    var steps :| Run(w, steps) == t;
    RunKeepsPast(w, steps);
  }

  lemma LeadsOn(w: World, t: World)
    requires Reachable(w) && Leads(w, t)
    ensures Reachable(t) && t.cfg == w.cfg
  {
    LeadsKeeps(w, t);
  }

  // --- One client among others -------------------------------------------------------------

  predicate Foreign(me: Client, steps: seq<Step>) {
    forall i :: 0 <= i < |steps| && steps[i].Do? ==> steps[i].client != me
  }

  /** Where a client is; None when it is not in the middle of anything. */
  function Place(w: World, me: Client): Option<Pc> {
    if me in w.pcs then Some(w.pcs[me]) else None
  }

  lemma ForeignStep(w: World, step: Step, me: Client)
    requires step.Do? ==> step.client != me
    ensures Place(Next(w, step), me) == Place(w, me)
  {
    if step.Do? && step.client in w.pcs && Fits(w, w.pcs[step.client], step.action) {
      EffectFrame(w, w.pcs[step.client], step.action);
    } else if step.Do? && step.client !in w.pcs && StartFits(w, step.action) {
      StartFrame(w, step.action);
    }
  }
}
