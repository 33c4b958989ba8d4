/** Bodies without a row: how long they last and who can reach them. */
module Orphans {
  import opened Base
  import opened PasteTable
  import opened SweepPass
  import opened Lifecycle
  import Aging
  import Bodies
  import Reads

  // --- Every body expires ------------------------------------------------------------------

  /** The longest a body can live once written. */
  function Cap(limits: Limits): int {
    if limits.ttlMax * SECOND < MILLISECOND then MILLISECOND else limits.ttlMax * SECOND
  }

  predicate PcBounded(limits: Limits, clock: int, pc: Pc) {
    && (pc.Sealing? || pc.Timing? ==> pc.m.expiresAt <= clock + limits.ttlMax * SECOND)
    && (pc.Putting? ==> pc.remaining <= limits.ttlMax * SECOND)
  }

  predicate BodyBounded(limits: Limits, clock: int, body: Body) {
    body.deadline.Some? && body.deadline.value <= clock + Cap(limits)
  }

  predicate BodiesBounded(limits: Limits, clock: int, bodies: map<Id, Body>) {
    forall id :: id in bodies ==> BodyBounded(limits, clock, bodies[id])
  }

  predicate PcsBounded(limits: Limits, clock: int, pcs: map<Client, Pc>) {
    forall c :: c in pcs ==> PcBounded(limits, clock, pcs[c])
  }

  predicate Bounded(w: World) {
    BodiesBounded(w.cfg.limits, w.clock, w.bodies) && PcsBounded(w.cfg.limits, w.clock, w.pcs)
  }

  /** A client moves on soundly while bodies stay, go, or one within bounds is written. */
  lemma ShiftKeepsBounded(w: World, t: World, c: Client, next: Option<Pc>)
    requires Bounded(w) && t.cfg == w.cfg && t.clock == w.clock && t.pcs == w.pcs
             && BodiesBounded(w.cfg.limits, w.clock, t.bodies)
    requires next.Some? ==> PcBounded(w.cfg.limits, w.clock, next.value)
    ensures Bounded(Shift(t, c, next))
  {
  }

  lemma CreateKeepsBounded(w: World, c: Client, a: Action)
    requires Bounded(w) && c in w.pcs && CreatePc(w.pcs[c]) && CreateFits(w, w.pcs[c], a)
    ensures Bounded(Shift(CreateEffect(w, w.pcs[c], a), c, CreateMove(w, w.pcs[c], a)))
  {
    assert PcBounded(w.cfg.limits, w.clock, w.pcs[c]);
    CreateFrame(w, w.pcs[c], a);
    ShiftKeepsBounded(w, CreateEffect(w, w.pcs[c], a), c, CreateMove(w, w.pcs[c], a));
  }

  /** Clients that create nothing neither write bodies nor carry deadlines for them. */
  lemma OthersKeepBounded(w: World, c: Client, a: Action)
    requires Bounded(w) && c in w.pcs && Fits(w, w.pcs[c], a) && (a.Crash? || !CreatePc(w.pcs[c]))
    ensures Bounded(Shift(Effect(w, w.pcs[c], a), c, Move(w, w.pcs[c], a)))
  {
    var pc := w.pcs[c];
    if a.Crash? {
      ShiftKeepsBounded(w, Effect(w, pc, a), c, None);
    } else if DeletePc(pc) {
      DeleteFrame(w, pc, a);
      ShiftKeepsBounded(w, DeleteEffect(w, pc, a), c, DeleteMove(w, pc, a));
    } else if SweepPc(pc) {
      SweepFrame(w, pc, a);
      ShiftKeepsBounded(w, SweepEffect(w, pc, a), c, SweepMove(w, pc, a));
    } else {
      ReadFrame(w, pc, a);
      ReadStaysRead(w, pc, a);
      ShiftKeepsBounded(w, ReadEffect(w, pc, a), c, ReadMove(w, pc, a));
    }
  }

  lemma StepKeepsBounded(w: World, step: Step)
    requires Bounded(w)
    ensures Bounded(Next(w, step))
  {
    match step
    case Do(c, a) =>
      if c !in w.pcs {
        if StartFits(w, a) {
          StartFrame(w, a);
          ShiftKeepsBounded(w, StartEffect(w, a), c, Some(StartPc(w, a)));
        }
      } else if Fits(w, w.pcs[c], a) {
        if !a.Crash? && CreatePc(w.pcs[c]) {
          CreateKeepsBounded(w, c, a);
        } else {
          OthersKeepBounded(w, c, a);
        }
      }
    case _ =>
  }

  lemma {:induction false} RunKeepsBounded(cfg: Config, clock: int, steps: seq<Step>)
    ensures Bounded(Run(Initial(cfg, clock), steps))
  {
    if steps != [] {
      RunKeepsBounded(cfg, clock, steps[..|steps| - 1]);
      StepKeepsBounded(Run(Initial(cfg, clock), steps[..|steps| - 1]), steps[|steps| - 1]);
    }
  }

  /** In every reachable state each body, with or without a row, has a finite deadline no
      further away than the longest lifetime (or the one millisecond tiny lifetimes become). */
  lemma BodiesExpire(cfg: Config, clock: int, steps: seq<Step>, id: Id)
    ensures var w := Run(Initial(cfg, clock), steps);
            id in w.bodies ==> w.bodies[id].deadline.Some? && w.bodies[id].deadline.value <= w.clock + Cap(cfg.limits)
  {
    RunKeepsBounded(cfg, clock, steps);
    ConfigNeverChanges(Initial(cfg, clock), steps);
  }

  // --- Orphans are out of reach ------------------------------------------------------------

  /** The sweeper's store offers the completed-only purge, as the Postgres one does. */
  predicate CompletedOnly(steps: seq<Step>) {
    forall i :: 0 <= i < |steps| && steps[i].Do? && steps[i].action.BeginSweep? ==> steps[i].action.cfg.completedPurge
  }

  /** Readers hold rows that existed, and passes purge only completed rows. */
  predicate PcRooted(born: map<Id, int>, pc: Pc) {
    (ReadPc(pc) ==> pc.id in born) && (SweepPc(pc) ==> pc.cfg.completedPurge)
  }

  /** A body whose id ever had a row still has it. */
  predicate RowsStay(rows: Table, bodies: map<Id, Body>, born: map<Id, int>) {
    forall id :: id in bodies && id in born ==> id in rows
  }

  predicate PcsRooted(born: map<Id, int>, pcs: map<Client, Pc>) {
    forall c :: c in pcs ==> PcRooted(born, pcs[c])
  }

  predicate Rooted(w: World) {
    RowsStay(w.rows, w.bodies, w.book.born) && PcsRooted(w.book.born, w.pcs)
  }

  lemma ShiftKeepsRooted(w: World, t: World, c: Client, next: Option<Pc>)
    requires Rooted(w) && t.pcs == w.pcs && w.book.born.Keys <= t.book.born.Keys
             && RowsStay(t.rows, t.bodies, t.book.born)
    requires next.Some? ==> PcRooted(t.book.born, next.value)
    ensures Rooted(Shift(t, c, next))
  {
  }

  /** The one dangerous moment: a body is written only for an id without a row so far. */
  lemma CreateKeepsRooted(w: World, c: Client, a: Action)
    requires Bodies.Inv(w) && Rooted(w) && c in w.pcs && CreatePc(w.pcs[c]) && CreateFits(w, w.pcs[c], a)
    ensures Rooted(Shift(CreateEffect(w, w.pcs[c], a), c, CreateMove(w, w.pcs[c], a)))
  {
    var pc := w.pcs[c];
    assert Bodies.PcInv(w.bodies, w.book.born, w.book.issued, pc);
    CreateFrame(w, pc, a);
    CreateKeepsRows(w, pc, a);
    ShiftKeepsRooted(w, CreateEffect(w, pc, a), c, CreateMove(w, pc, a));
  }

  lemma CreateKeepsRows(w: World, pc: Pc, a: Action)
    requires CreatePc(pc) && CreateFits(w, pc, a) && RowsStay(w.rows, w.bodies, w.book.born)
             && (pc.Putting? ==> pc.id !in w.book.born)
    ensures var t := CreateEffect(w, pc, a);
            RowsStay(t.rows, t.bodies, t.book.born) && w.book.born.Keys <= t.book.born.Keys
    ensures var next := CreateMove(w, pc, a); next.Some? ==> CreatePc(next.value)
  {
  }

  lemma DeleteKeepsRooted(w: World, c: Client, a: Action)
    requires Rooted(w) && c in w.pcs && DeletePc(w.pcs[c]) && DeleteFits(w.pcs[c], a)
    ensures Rooted(Shift(DeleteEffect(w, w.pcs[c], a), c, DeleteMove(w, w.pcs[c], a)))
  {
    DeleteFrame(w, w.pcs[c], a);
    ShiftKeepsRooted(w, DeleteEffect(w, w.pcs[c], a), c, DeleteMove(w, w.pcs[c], a));
  }

  lemma ReadKeepsRooted(w: World, c: Client, a: Action)
    requires Rooted(w) && c in w.pcs && ReadPc(w.pcs[c]) && ReadFits(w, w.pcs[c], a)
    ensures Rooted(Shift(ReadEffect(w, w.pcs[c], a), c, ReadMove(w, w.pcs[c], a)))
  {
    ReadFrame(w, w.pcs[c], a);
    ReadStaysRead(w, w.pcs[c], a);
    ShiftKeepsRooted(w, ReadEffect(w, w.pcs[c], a), c, ReadMove(w, w.pcs[c], a));
  }

  /** A completed row has no body to leave behind. */
  lemma PurgeKeepsRows(w: World, now: int, cfg: SweepConfig, fate: Fate)
    requires Bodies.Inv(w) && RowsStay(w.rows, w.bodies, w.book.born) && cfg.completedPurge
    ensures RowsStay(PurgeEffect(w, now, cfg, fate).rows, w.bodies, w.book.born)
  {
    var kept := PurgeRows(w.rows, now, cfg);
    forall id | id in w.rows && id !in kept ensures id !in w.bodies {
      assert Completed(w.rows[id]);
    }
    KeepRowsFrame(w, kept, fate.Lands?);
  }

  lemma SweepKeepsRooted(w: World, c: Client, a: Action)
    requires Bodies.Inv(w) && Rooted(w) && c in w.pcs && SweepPc(w.pcs[c]) && SweepFits(w.pcs[c], a)
    ensures Rooted(Shift(SweepEffect(w, w.pcs[c], a), c, SweepMove(w, w.pcs[c], a)))
  {
    var pc := w.pcs[c];
    assert PcRooted(w.book.born, pc);
    SweepFrame(w, pc, a);
    SweepStaysSweep(w, pc, a);
    if pc.Purging? {
      PurgeKeepsRows(w, pc.now, pc.cfg, a.fate);
    }
    ShiftKeepsRooted(w, SweepEffect(w, pc, a), c, SweepMove(w, pc, a));
  }

  lemma StartKeepsRooted(w: World, c: Client, a: Action)
    requires Bodies.Inv(w) && Rooted(w) && StartFits(w, a) && (a.BeginSweep? ==> a.cfg.completedPurge)
    ensures Rooted(Shift(StartEffect(w, a), c, Some(StartPc(w, a))))
  {
    StartFrame(w, a);
    ShiftKeepsRooted(w, StartEffect(w, a), c, Some(StartPc(w, a)));
  }

  lemma StepKeepsRooted(w: World, step: Step)
    requires Bodies.Inv(w) && Rooted(w) && CompletedOnly([step])
    ensures Rooted(Next(w, step))
  {
    assert [step][0] == step;
    match step
    case Do(c, a) =>
      if c !in w.pcs {
        if StartFits(w, a) {
          StartKeepsRooted(w, c, a);
        }
      } else if Fits(w, w.pcs[c], a) {
        var pc := w.pcs[c];
        if a.Crash? {
          ShiftKeepsRooted(w, Effect(w, pc, a), c, None);
        } else if CreatePc(pc) {
          CreateKeepsRooted(w, c, a);
        } else if DeletePc(pc) {
          DeleteKeepsRooted(w, c, a);
        } else if SweepPc(pc) {
          SweepKeepsRooted(w, c, a);
        } else {
          ReadKeepsRooted(w, c, a);
        }
      }
    case _ =>
  }

  lemma {:induction false} RunKeepsRooted(cfg: Config, clock: int, steps: seq<Step>)
    requires CompletedOnly(steps)
    ensures Rooted(Run(Initial(cfg, clock), steps))
  {
    if steps != [] {
      var before, step := steps[..|steps| - 1], steps[|steps| - 1];
      RunKeepsRooted(cfg, clock, before);
      Bodies.RunKeepsInv(cfg, clock, before);
      StepKeepsRooted(Run(Initial(cfg, clock), before), step);
    }
  }

  /** Readers of a paste without a row are past its expiry. */
  lemma ReadersAreLate(cfg: Config, clock: int, steps: seq<Step>, id: Id, d: Client)
    requires var w := Run(Initial(cfg, clock), steps);
             id !in w.rows && d in w.pcs && Reads.HoldsRow(w.pcs[d]) && w.pcs[d].id == id
    ensures var w := Run(Initial(cfg, clock), steps); w.pcs[d].m.expiresAt <= w.clock
  {
    Reads.RunKeepsGenuine(cfg, clock, steps);
    Aging.RunKeepsAged(cfg, clock, steps);
    var w := Run(Initial(cfg, clock), steps);
    assert Reads.PcGenuine(w.book, w.pcs[d]);
  }

  /** A body without a row is out of reach of Read, with either purge: no Read can start on it,
      any that still holds its row is past the expiry, and it expires by itself.  Where only
      completed rows are purged it never had a row, and no reader holds its id at all. */
  lemma OrphansAreUnreachable(cfg: Config, clock: int, steps: seq<Step>, id: Id, c: Client, password: Bytes, fate: Fate)
    ensures var w := Run(Initial(cfg, clock), steps);
            id in w.bodies && id !in w.rows ==>
              && (c !in w.pcs ==> Next(w, Do(c, BeginRead(id, password, fate))) == w)
              && (forall d :: d in w.pcs && Reads.HoldsRow(w.pcs[d]) && w.pcs[d].id == id ==>
                    w.pcs[d].m.expiresAt <= w.clock)
              && w.bodies[id].deadline.Some? && w.bodies[id].deadline.value <= w.clock + Cap(cfg.limits)
              && (CompletedOnly(steps) ==>
                    id !in w.book.born && forall d :: d in w.pcs && ReadPc(w.pcs[d]) ==> w.pcs[d].id != id)
  {
    BodiesExpire(cfg, clock, steps, id);
    var w := Run(Initial(cfg, clock), steps);
    if id in w.bodies && id !in w.rows {
      forall d | d in w.pcs && Reads.HoldsRow(w.pcs[d]) && w.pcs[d].id == id ensures w.pcs[d].m.expiresAt <= w.clock {
        ReadersAreLate(cfg, clock, steps, id, d);
      }
      if CompletedOnly(steps) {
        RunKeepsRooted(cfg, clock, steps);
        forall d | d in w.pcs && ReadPc(w.pcs[d]) ensures w.pcs[d].id != id {
          assert PcRooted(w.book.born, w.pcs[d]);
        }
      }
    }
  }
}
