/** When content can still be released: never without a row, and after a deletion exactly by
    the readers that loaded the row before it. */
module Releases {
  import opened Base
  import opened Kdf
  import opened Envelope
  import opened PasteTable
  import opened Lifecycle
  import opened Honesty
  import opened Runs
  import Aging
  import Bodies
  import Reads

  /** Between the two states content of `id` was released. */
  ghost predicate Released(w: World, t: World, id: Id) {
    exists i :: |w.book.served| <= i < |t.book.served| && t.book.served[i].id == id
  }

  /** The step is the last clock reading of a Read of `id`, before its expiry. */
  predicate Serves(w: World, step: Step, id: Id) {
    && step.Do? && step.client in w.pcs && step.action.Now?
    && w.pcs[step.client].Viewed? && w.pcs[step.client].id == id && w.clock < w.pcs[step.client].m.expiresAt
  }

  lemma EffectServes(w: World, pc: Pc, a: Action)
    requires Fits(w, pc, a) && !(pc.Viewed? && a.Now? && w.clock < pc.m.expiresAt)
    ensures Effect(w, pc, a).book.served == w.book.served
  {
    if a.Crash? {
    } else if CreatePc(pc) {
      CreateFrame(w, pc, a);
    } else if DeletePc(pc) {
      DeleteFrame(w, pc, a);
    } else if SweepPc(pc) {
      SweepFrame(w, pc, a);
    } else {
      ReadServes(w, pc, a);
    }
  }

  lemma ReadServes(w: World, pc: Pc, a: Action)
    requires ReadPc(pc) && ReadFits(w, pc, a) && !(pc.Viewed? && w.clock < pc.m.expiresAt)
    ensures ReadEffect(w, pc, a).book.served == w.book.served
  {
  }

  lemma ViewedServes(w: World, c: Client)
    requires c in w.pcs && w.pcs[c].Viewed? && w.clock < w.pcs[c].m.expiresAt
    ensures Next(w, Do(c, Now)).book.served
            == w.book.served + [Served(w.pcs[c].id, w.pcs[c].m, w.pcs[c].plain, w.clock)]
  {
  }

  lemma QuietStep(w: World, step: Step)
    requires !(step.Do? && step.client in w.pcs && Serves(w, step, PcId(w.pcs[step.client])))
    ensures Next(w, step).book.served == w.book.served
  {
    if step.Do? && step.client in w.pcs && Fits(w, w.pcs[step.client], step.action) {
      EffectServes(w, w.pcs[step.client], step.action);
    } else if step.Do? && step.client !in w.pcs && StartFits(w, step.action) {
      StartFrame(w, step.action);
    }
  }

  function PcId(pc: Pc): Id {
    if pc.Viewed? then pc.id else 0
  }

  /** A step releases content of `id` exactly when it is the last reading of such a Read. */
  lemma StepReleasesExactly(w: World, step: Step, id: Id)
    ensures Released(w, Next(w, step), id) <==> Serves(w, step, id)
    ensures w.book.served <= Next(w, step).book.served
  {
    if step.Do? && step.client in w.pcs && Serves(w, step, PcId(w.pcs[step.client])) {
      ViewedServes(w, step.client);
      var t := Next(w, step);
      assert t.book.served[|w.book.served|].id == w.pcs[step.client].id;
    } else {
      QuietStep(w, step);
    }
  }

  lemma ReleasedLater(w: World, t: World, u: World, id: Id)
    requires w.book.served <= t.book.served <= u.book.served
    ensures Released(w, u, id) <==> Released(w, t, id) || Released(t, u, id)
  {
    if Released(w, t, id) {
      var i :| |w.book.served| <= i < |t.book.served| && t.book.served[i].id == id;
      assert u.book.served[i].id == id;
    }
    if Released(w, u, id) && !Released(t, u, id) {
      var i :| |w.book.served| <= i < |u.book.served| && u.book.served[i].id == id;
      assert t.book.served[i].id == id;
    }
  }

  // --- No row, no release ------------------------------------------------------------------

  /** Whichever purge the sweeper uses, nothing is released for an id that has no row. */
  lemma ReleaseNeedsRow(w: World, step: Step, id: Id)
    requires Sound(w) && Aging.Aged(w) && id !in w.rows
    ensures !Released(w, Next(w, step), id)
  {
    StepReleasesExactly(w, step, id);
    if Serves(w, step, id) {
      ServedHasRow(w, step, id);
    }
  }

  /** What is still unexpired has not been purged. */
  lemma ServedHasRow(w: World, step: Step, id: Id)
    requires Sound(w) && Aging.Aged(w) && Serves(w, step, id)
    ensures id in w.rows
  {
    assert Reads.PcGenuine(w.book, w.pcs[step.client]);
    assert w.clock < w.book.born[id];
  }

  lemma {:induction false} NoReleaseFrom(w: World, steps: seq<Step>, id: Id)
    requires Sound(w) && Aging.Aged(w) && id in w.book.born && id !in w.rows
    ensures var t := Run(w, steps);
            && !Released(w, t, id) && w.book.served <= t.book.served
            && Sound(t) && Aging.Aged(t) && id in t.book.born && id !in t.rows
  {
    if steps != [] {
      var t, step := Run(w, steps[..|steps| - 1]), steps[|steps| - 1];
      NoReleaseFrom(w, steps[..|steps| - 1], id);
      ReleaseNeedsRow(t, step, id);
      StepReleasesExactly(t, step, id);
      ReleasedLater(w, t, Next(t, step), id);
      StepKeepsSound(t, step);
      Aging.StepKeepsAged(t, step);
      RowsDoNotReturn(t, step, id);
    }
  }

  lemma RowsDoNotReturn(w: World, step: Step, id: Id)
    requires Sound(w) && id in w.book.born && id !in w.rows
    ensures id in Next(w, step).book.born && id !in Next(w, step).rows
  {
    if step.Do? && step.client in w.pcs && Fits(w, w.pcs[step.client], step.action) {
      EffectKeeps(w, step.client, step.action);
    } else if step.Do? && step.client !in w.pcs && StartFits(w, step.action) {
      StartFrame(w, step.action);
    }
  }

  /** In every reachable state, with either purge, no step releases content of an id without a
      row, whether or not it still has a body; and an id whose row is gone is never released
      again. */
  lemma NothingReleasedWithoutRow(cfg: Config, clock: int, steps: seq<Step>, later: seq<Step>, step: Step, id: Id)
    requires id !in Run(Initial(cfg, clock), steps).rows
    ensures var w := Run(Initial(cfg, clock), steps);
            && !Released(w, Next(w, step), id)
            && (id in w.book.born ==> !Released(w, Run(w, later), id))
  {
    var w := Run(Initial(cfg, clock), steps);
    Bodies.RunKeepsInv(cfg, clock, steps);
    Reads.RunKeepsGenuine(cfg, clock, steps);
    Aging.RunKeepsAged(cfg, clock, steps);
    ReleaseNeedsRow(w, step, id);
    if id in w.book.born {
      NoReleaseFrom(w, later, id);
    }
  }

  // --- After a deletion --------------------------------------------------------------------

  /** The record opens for this paste under the key it was wrapped with. */
  predicate Openable(id: Id, expiresAt: int, rec: EncryptedBody) {
    rec.wrappedDek.Sealed? && OpenWith(rec.wrappedDek.key, id, expiresAt, rec).Ok?
  }

  /** A Read of `id` that can still come to its end with content: it loaded the row before any
      deletion, the expiry is ahead, and nothing it holds already rules content out. */
  predicate Viable(clock: int, pc: Pc, id: Id) {
    && Reads.HoldsRow(pc) && pc.id == id && clock < pc.m.expiresAt
    && match pc
       case ReadTiming(_, m, password) => m.deletedAt.None? && (m.isProtected ==> password != [])
       case Fetching(_, m, password) => m.isProtected ==> password != []
       case Fetched(_, m, password, reply) =>
         (m.isProtected ==> password != []) && reply.Found? && Openable(id, m.expiresAt, reply.rec)
       case Opening(_, m, rec, _) => Openable(id, m.expiresAt, rec)
       case MarkingUnavailable(_, _, _) => false
       case _ => true
  }

  predicate NoneViable(clock: int, pcs: map<Client, Pc>, id: Id) {
    forall c :: c in pcs ==> !Viable(clock, pcs[c], id)
  }

  lemma OpeningNotViable(clock: int, pc: Pc, wrapKey: Bytes, refused: Option<EnvelopeError>, id: Id)
    requires pc.Opening? && !Viable(clock, pc, id)
    ensures var next := OpenRecord(pc, wrapKey, refused); next.Some? ==> !Viable(clock, next.value, id)
  {
  }

  lemma ReadNotViable(w: World, pc: Pc, a: Action, id: Id)
    requires ReadPc(pc) && ReadFits(w, pc, a) && !pc.Opening? && !Viable(w.clock, pc, id)
    ensures var next := ReadMove(w, pc, a); next.Some? ==> !Viable(w.clock, next.value, id)
  {
  }

  lemma MoveNotViable(w: World, pc: Pc, a: Action, id: Id)
    requires Fits(w, pc, a) && !Viable(w.clock, pc, id)
    ensures var next := Move(w, pc, a); next.Some? ==> !Viable(w.clock, next.value, id)
  {
    if !a.Crash? {
      if SweepPc(pc) {
        SweepStaysSweep(w, pc, a);
      } else if pc.Opening? {
        OpeningNotViable(w.clock, pc, a.wrapKey, a.refused, id);
      } else if !CreatePc(pc) && !DeletePc(pc) {
        ReadNotViable(w, pc, a, id);
      }
    }
  }

  lemma ActNotViable(w: World, c: Client, a: Action, id: Id)
    requires NoneViable(w.clock, w.pcs, id) && c in w.pcs && Fits(w, w.pcs[c], a)
    ensures NoneViable(w.clock, Moved(w.pcs, c, Move(w, w.pcs[c], a)), id)
  {
    MoveNotViable(w, w.pcs[c], a, id);
  }

  /** A Read begun now loads the mark. */
  lemma StartNotViable(w: World, c: Client, a: Action, id: Id)
    requires Tombstoned(w, id) && NoneViable(w.clock, w.pcs, id) && StartFits(w, a)
    ensures NoneViable(w.clock, w.pcs[c := StartPc(w, a)], id)
  {
    StartFrame(w, a);
  }

  lemma StepNotViable(w: World, step: Step, id: Id)
    requires Tombstoned(w, id) && NoneViable(w.clock, w.pcs, id)
    ensures NoneViable(Next(w, step).clock, Next(w, step).pcs, id)
  {
    if step.Do? && step.client in w.pcs && Fits(w, w.pcs[step.client], step.action) {
      EffectFrame(w, w.pcs[step.client], step.action);
      ActNotViable(w, step.client, step.action, id);
    } else if step.Do? && step.client !in w.pcs && StartFits(w, step.action) {
      StartFrame(w, step.action);
      StartNotViable(w, step.client, step.action, id);
    }
  }

  lemma {:induction false} NotViableNotReleased(w: World, steps: seq<Step>, id: Id)
    requires Sound(w) && Tombstoned(w, id) && NoneViable(w.clock, w.pcs, id)
    ensures var t := Run(w, steps);
            && !Released(w, t, id) && w.book.served <= t.book.served
            && Sound(t) && Tombstoned(t, id) && NoneViable(t.clock, t.pcs, id)
  {
    if steps != [] {
      var t, step := Run(w, steps[..|steps| - 1]), steps[|steps| - 1];
      NotViableNotReleased(w, steps[..|steps| - 1], id);
      StepReleasesExactly(t, step, id);
      ReleasedLater(w, t, Next(t, step), id);
      StepKeepsSound(t, step);
      StepKeeps(t, step);
      StepNotViable(t, step, id);
    }
  }

  /** Whatever the store hands back and under whatever keys it is opened: content of a deleted
      paste is released only by a Read that loaded the row before the deletion and is still on
      its way with the expiry ahead. */
  lemma ReleaseAfterDeleteNeedsReader(cfg: Config, clock: int, steps: seq<Step>, later: seq<Step>, id: Id)
    requires Tombstoned(Run(Initial(cfg, clock), steps), id)
    ensures var w := Run(Initial(cfg, clock), steps);
            Released(w, Run(w, later), id) ==> exists c :: c in w.pcs && Viable(w.clock, w.pcs[c], id)
  {
    var w := Run(Initial(cfg, clock), steps);
    Bodies.RunKeepsInv(cfg, clock, steps);
    Reads.RunKeepsGenuine(cfg, clock, steps);
    if NoneViable(w.clock, w.pcs, id) {
      NotViableNotReleased(w, later, id);
    }
  }

  // --- With an honest store and envelope ---------------------------------------------------

  /** Open succeeds on this record with this Read's own password. */
  predicate Opens(ring: Ring, kdf: KdfFunction, id: Id, m: Row, rec: EncryptedBody, password: Bytes) {
    OpenValue(ring, kdf, None, id, m.expiresAt, rec, password).Ok?
  }

  /** A Read of `id` that has the content, or a fetched record that opens under its own
      password, with the expiry ahead. */
  predicate Armed(ring: Ring, kdf: KdfFunction, clock: int, pc: Pc, id: Id) {
    && Reads.HoldsRow(pc) && pc.id == id && clock < pc.m.expiresAt
    && match pc
       case Fetched(_, m, password, reply) =>
         reply.Found? && (m.isProtected ==> password != []) && Opens(ring, kdf, id, m, reply.rec, password)
       case Opening(_, m, rec, password) => Opens(ring, kdf, id, m, rec, password)
       case _ => Reads.HoldsPlain(pc)
  }

  predicate NoneArmed(ring: Ring, kdf: KdfFunction, clock: int, pcs: map<Client, Pc>, id: Id) {
    forall c :: c in pcs ==> !Armed(ring, kdf, clock, pcs[c], id)
  }

  /** A deleted paste that a Read could still find unexpired has no body to fetch. */
  predicate Bodiless(w: World, id: Id) {
    id in w.book.born && (id in w.bodies ==> w.book.born[id] <= w.clock)
  }

  lemma TombstonedIsBodiless(w: World, id: Id)
    requires Sound(w) && Aging.Aged(w) && Tombstoned(w, id)
    ensures Bodiless(w, id)
  {
  }

  lemma FetchNotArmed(ring: Ring, kdf: KdfFunction, w: World, pc: Pc, a: Action, id: Id)
    requires pc.Fetching? && ReadFits(w, pc, a) && !a.Plant? && Bodiless(w, id) && Reads.PcGenuine(w.book, pc)
    ensures !Armed(ring, kdf, w.clock, ReadMove(w, pc, a).value, id)
  {
  }

  lemma OpenNotArmed(ring: Ring, kdf: KdfFunction, clock: int, pc: Pc, wrapKey: Bytes,
                     refused: Option<EnvelopeError>, id: Id)
    requires pc.Opening? && !Armed(ring, kdf, clock, pc, id) && HonestOpen(ring, kdf, pc, wrapKey, refused)
    ensures var next := OpenRecord(pc, wrapKey, refused); next.Some? ==> !Armed(ring, kdf, clock, next.value, id)
  {
    var refusal :| OpenValue(ring, kdf, refusal, pc.id, pc.m.expiresAt, pc.rec, pc.password)
      == if refused.Some? then Err(refused.value) else OpenWith(wrapKey, pc.id, pc.m.expiresAt, pc.rec);
    RefusalOnlyRefuses(ring, kdf, refusal, pc.id, pc.m.expiresAt, pc.rec, pc.password);
  }

  /** A gate that turns the derivation away never makes a record open. */
  lemma RefusalOnlyRefuses(ring: Ring, kdf: KdfFunction, refusal: Option<KdfError>, id: Id, expiresAt: int,
                           rec: EncryptedBody, password: Bytes)
    ensures OpenValue(ring, kdf, refusal, id, expiresAt, rec, password).Ok? ==>
              OpenValue(ring, kdf, None, id, expiresAt, rec, password).Ok?
  {
  }

  lemma ReadNotArmed(ring: Ring, kdf: KdfFunction, w: World, pc: Pc, a: Action, id: Id)
    requires ReadPc(pc) && ReadFits(w, pc, a) && !pc.Opening? && !pc.Fetching? && !Armed(ring, kdf, w.clock, pc, id)
    ensures var next := ReadMove(w, pc, a); next.Some? ==> !Armed(ring, kdf, w.clock, next.value, id)
  {
  }

  lemma NeverBecomesRead(w: World, pc: Pc, a: Action)
    requires Fits(w, pc, a) && !ReadPc(pc)
    ensures Move(w, pc, a).Some? ==> !ReadPc(Move(w, pc, a).value)
  {
    if SweepPc(pc) && !a.Crash? {
      SweepStaysSweep(w, pc, a);
    }
  }

  lemma MoveNotArmed(ring: Ring, kdf: KdfFunction, w: World, c: Client, a: Action, id: Id)
    requires ValidRing(ring) && Sound(w) && c in w.pcs && Fits(w, w.pcs[c], a) && Honest(ring, kdf, w, Do(c, a))
    requires Bodiless(w, id) && !Armed(ring, kdf, w.clock, w.pcs[c], id)
    ensures var next := Move(w, w.pcs[c], a); next.Some? ==> !Armed(ring, kdf, w.clock, next.value, id)
  {
    var pc := w.pcs[c];
    if !ReadPc(pc) {
      NeverBecomesRead(w, pc, a);
    } else if !a.Crash? {
      assert Reads.PcGenuine(w.book, pc);
      if pc.Opening? {
        OpenNotArmed(ring, kdf, w.clock, pc, a.wrapKey, a.refused, id);
      } else if pc.Fetching? {
        FetchNotArmed(ring, kdf, w, pc, a, id);
      } else {
        ReadNotArmed(ring, kdf, w, pc, a, id);
      }
    }
  }

  lemma ActNotArmed(ring: Ring, kdf: KdfFunction, w: World, c: Client, a: Action, id: Id)
    requires ValidRing(ring) && Sound(w) && c in w.pcs && Fits(w, w.pcs[c], a) && Honest(ring, kdf, w, Do(c, a))
    requires Bodiless(w, id) && NoneArmed(ring, kdf, w.clock, w.pcs, id)
    ensures NoneArmed(ring, kdf, w.clock, Moved(w.pcs, c, Move(w, w.pcs[c], a)), id)
  {
    MoveNotArmed(ring, kdf, w, c, a, id);
  }

  lemma StepNotArmed(ring: Ring, kdf: KdfFunction, w: World, step: Step, id: Id)
    requires ValidRing(ring) && Sound(w) && Honest(ring, kdf, w, step)
    requires Bodiless(w, id) && NoneArmed(ring, kdf, w.clock, w.pcs, id)
    ensures NoneArmed(ring, kdf, Next(w, step).clock, Next(w, step).pcs, id)
  {
    if step.Do? && step.client in w.pcs && Fits(w, w.pcs[step.client], step.action) {
      EffectFrame(w, w.pcs[step.client], step.action);
      ActNotArmed(ring, kdf, w, step.client, step.action, id);
    } else if step.Do? && step.client !in w.pcs && StartFits(w, step.action) {
      StartNotArmed(ring, kdf, w, step.client, step.action, id);
    }
  }

  lemma StartNotArmed(ring: Ring, kdf: KdfFunction, w: World, c: Client, a: Action, id: Id)
    requires NoneArmed(ring, kdf, w.clock, w.pcs, id) && StartFits(w, a)
    ensures var t := Shift(StartEffect(w, a), c, Some(StartPc(w, a))); NoneArmed(ring, kdf, t.clock, t.pcs, id)
  {
    StartFrame(w, a);
  }

  lemma ServerIsArmed(ring: Ring, kdf: KdfFunction, w: World, step: Step, id: Id)
    requires Serves(w, step, id)
    ensures Armed(ring, kdf, w.clock, w.pcs[step.client], id)
  {
  }

  lemma {:induction false} NotArmedNotReleased(ring: Ring, kdf: KdfFunction, w: World, steps: seq<Step>, id: Id)
    requires ValidRing(ring) && Sound(w) && Aging.Aged(w) && Tombstoned(w, id)
             && NoneArmed(ring, kdf, w.clock, w.pcs, id)
    requires HonestRun(ring, kdf, w, steps)
    ensures var t := Run(w, steps);
            && !Released(w, t, id) && w.book.served <= t.book.served
            && Sound(t) && Aging.Aged(t) && Tombstoned(t, id) && NoneArmed(ring, kdf, t.clock, t.pcs, id)
  {
    if steps != [] {
      var t, step := Run(w, steps[..|steps| - 1]), steps[|steps| - 1];
      HonestPrefix(ring, kdf, w, steps);
      NotArmedNotReleased(ring, kdf, w, steps[..|steps| - 1], id);
      NotArmedStep(ring, kdf, t, step, id);
      ReleasedLater(w, t, Next(t, step), id);
    }
  }

  lemma NotArmedStep(ring: Ring, kdf: KdfFunction, t: World, step: Step, id: Id)
    requires ValidRing(ring) && Sound(t) && Aging.Aged(t) && Tombstoned(t, id)
             && NoneArmed(ring, kdf, t.clock, t.pcs, id)
    requires Honest(ring, kdf, t, step)
    ensures var u := Next(t, step);
            && !Released(t, u, id) && t.book.served <= u.book.served
            && Sound(u) && Aging.Aged(u) && Tombstoned(u, id) && NoneArmed(ring, kdf, u.clock, u.pcs, id)
  {
    StepReleasesExactly(t, step, id);
    if Serves(t, step, id) {
      ServerIsArmed(ring, kdf, t, step, id);
    }
    StepKeepsSound(t, step);
    Aging.StepKeepsAged(t, step);
    StepKeeps(t, step);
    TombstonedIsBodiless(t, id);
    StepNotArmed(ring, kdf, t, step, id);
  }

  // --- An armed Read gets there ------------------------------------------------------------

  /** A client's own step, from where it is. */
  lemma OwnStep(w: World, c: Client, a: Action)
    requires c in w.pcs && ReadPc(w.pcs[c]) && ReadFits(w, w.pcs[c], a)
    ensures Next(w, Do(c, a)) == Shift(ReadEffect(w, w.pcs[c], a), c, ReadMove(w, w.pcs[c], a))
  {
  }

  /** The wrapping key Open comes to when it succeeds. */
  function WrapKeyOf(ring: Ring, kdf: KdfFunction, rec: EncryptedBody, password: Bytes): Bytes {
    if rec.wrapMode.WrapKEK? && rec.kekId in ring.keys then ring.keys[rec.kekId]
    else if rec.kdf.Some? then kdf(password, rec.kdf.value.salt, rec.kdf.value.costs)
    else []
  }

  /** What an armed Read does next to get there. */
  function Onwards(ring: Ring, kdf: KdfFunction, pc: Pc): Action {
    match pc
    case Opening(_, _, rec, password) => Open(WrapKeyOf(ring, kdf, rec, password), None)
    case Counting(_, _, _) => Call(Lands, 0)
    case NotingView(_, _, _) => Note
    case _ => Now
  }

  /** How many steps it has to go. */
  function Distance(pc: Pc): nat {
    match pc
    case Fetched(_, _, _, _) => 6
    case Opening(_, _, _, _) => 5
    case Opened(_, _, _) => 4
    case Counting(_, _, _) => 3
    case Counted(_, _, _) => 2
    case NotingView(_, _, _) => 1
    case _ => 0
  }

  lemma OpensWithItsKey(ring: Ring, kdf: KdfFunction, id: Id, m: Row, rec: EncryptedBody, password: Bytes)
    requires Opens(ring, kdf, id, m, rec, password)
    ensures OpenValue(ring, kdf, None, id, m.expiresAt, rec, password)
         == OpenWith(WrapKeyOf(ring, kdf, rec, password), id, m.expiresAt, rec)
  {
  }

  lemma ArmedMoves(ring: Ring, kdf: KdfFunction, w: World, pc: Pc, id: Id)
    requires Armed(ring, kdf, w.clock, pc, id) && !pc.Viewed?
    ensures var a := Onwards(ring, kdf, pc);
            && ReadFits(w, pc, a) && ReadMove(w, pc, a).Some?
               && (pc.Opening? ==> HonestOpen(ring, kdf, pc, a.wrapKey, a.refused))
            && Armed(ring, kdf, w.clock, ReadMove(w, pc, a).value, id)
               && Distance(ReadMove(w, pc, a).value) < Distance(pc)
  {
    if pc.Opening? {
      OpensWithItsKey(ring, kdf, id, pc.m, pc.rec, pc.password);
    }
  }

  lemma ArmedStep(ring: Ring, kdf: KdfFunction, w: World, c: Client, id: Id) returns (a: Action)
    requires ValidRing(ring) && c in w.pcs && Armed(ring, kdf, w.clock, w.pcs[c], id) && !w.pcs[c].Viewed?
    ensures Honest(ring, kdf, w, Do(c, a))
    ensures var t := Next(w, Do(c, a));
            && t.clock == w.clock && c in t.pcs && Armed(ring, kdf, t.clock, t.pcs[c], id)
            && Distance(t.pcs[c]) < Distance(w.pcs[c])
  {
    var pc := w.pcs[c];
    a := Onwards(ring, kdf, pc);
    ArmedMoves(ring, kdf, w, pc, id);
    OwnStep(w, c, a);
    ReadFrame(w, pc, a);
  }

  /** An armed Read can run to its end: from any point of an honest run that has released
      nothing yet, some honest steps of its own release the content. */
  lemma {:induction false} ArmedReleases(ring: Ring, kdf: KdfFunction, start: World, before: seq<Step>, c: Client,
                                         id: Id)
    returns (steps: seq<Step>)
    requires ValidRing(ring) && HonestRun(ring, kdf, start, before)
    requires var w := Run(start, before);
             c in w.pcs && Armed(ring, kdf, w.clock, w.pcs[c], id) && start.book.served <= w.book.served
    ensures HonestRun(ring, kdf, start, steps) && Released(start, Run(start, steps), id)
    decreases Distance(Run(start, before).pcs[c])
  {
    var w := Run(start, before);
    if w.pcs[c].Viewed? {
      var step := Do(c, Now);
      HonestSnoc(ring, kdf, start, before, step);
      StepReleasesExactly(w, step, id);
      ReleasedLater(start, w, Next(w, step), id);
      steps := before + [step];
    } else {
      var a := ArmedStep(ring, kdf, w, c, id);
      HonestSnoc(ring, kdf, start, before, Do(c, a));
      StepReleasesExactly(w, Do(c, a), id);
      steps := ArmedReleases(ring, kdf, start, before + [Do(c, a)], c, id);
    }
  }

  /** Once a row is marked deleted or purged, a run of an honest store and envelope still
      releases the content exactly when some Read already has it, or has fetched a record that
      opens under its own password, with the expiry ahead. */
  lemma ReleaseAfterDeleteExactly(ring: Ring, kdf: KdfFunction, cfg: Config, clock: int, steps: seq<Step>, id: Id)
    requires ValidRing(ring) && Tombstoned(Run(Initial(cfg, clock), steps), id)
    ensures var w := Run(Initial(cfg, clock), steps);
            (exists later :: HonestRun(ring, kdf, w, later) && Released(w, Run(w, later), id))
            <==> (exists c :: c in w.pcs && Armed(ring, kdf, w.clock, w.pcs[c], id))
  {
    var w := Run(Initial(cfg, clock), steps);
    Bodies.RunKeepsInv(cfg, clock, steps);
    Reads.RunKeepsGenuine(cfg, clock, steps);
    Aging.RunKeepsAged(cfg, clock, steps);
    if c :| c in w.pcs && Armed(ring, kdf, w.clock, w.pcs[c], id) {
      var later := ArmedReleases(ring, kdf, w, [], c, id);
    } else {
      forall later | HonestRun(ring, kdf, w, later) ensures !Released(w, Run(w, later), id) {
        NotArmedNotReleased(ring, kdf, w, later, id);
      }
    }
  }
}
