/** Every paste that ever had a row was sealed: some body ciphertext bears its id and the second
    of its stored expiry. */
module Seals {
  import opened Base
  import opened Envelope
  import opened PasteTable
  import opened Lifecycle

  ghost predicate SealedFor(ciphers: set<Cipher>, id: Id, expiry: int) {
    exists x :: x in ciphers && x.Sealed? && x.aad == BodyAadOf(id, expiry)
  }

  ghost predicate PcSealed(ciphers: set<Cipher>, pc: Pc) {
    pc.Timing? || pc.Putting? || pc.Inserting? ==> SealedFor(ciphers, pc.id, pc.m.expiresAt)
  }

  ghost predicate PcsSealed(ciphers: set<Cipher>, pcs: map<Client, Pc>) {
    forall c :: c in pcs ==> PcSealed(ciphers, pcs[c])
  }

  ghost predicate BornSealed(ciphers: set<Cipher>, born: map<Id, int>) {
    forall id :: id in born ==> SealedFor(ciphers, id, born[id])
  }

  ghost predicate Inv(w: World) {
    BornSealed(w.book.ciphers, w.book.born) && PcsSealed(w.book.ciphers, w.pcs)
  }

  lemma ShiftKeepsInv(w: World, t: World, c: Client, next: Option<Pc>)
    requires Inv(w) && t.pcs == w.pcs && w.book.ciphers <= t.book.ciphers && BornSealed(t.book.ciphers, t.book.born)
    requires next.Some? ==> PcSealed(t.book.ciphers, next.value)
    ensures Inv(Shift(t, c, next))
  {
    forall d | d in w.pcs ensures PcSealed(t.book.ciphers, w.pcs[d]) {
      assert PcSealed(w.book.ciphers, w.pcs[d]);
    }
  }

  lemma QuietKeepsInv(w: World, t: World, c: Client, next: Option<Pc>)
    requires Inv(w) && t.pcs == w.pcs && t.book.ciphers == w.book.ciphers && t.book.born == w.book.born
    requires next.Some? ==> PcSealed(w.book.ciphers, next.value)
    ensures Inv(Shift(t, c, next))
  {
    ShiftKeepsInv(w, t, c, next);
  }

  lemma SealKeepsInv(w: World, c: Client, a: Action)
    requires Inv(w) && c in w.pcs && w.pcs[c].Sealing? && CreateFits(w, w.pcs[c], a) && a.sealed.Some?
    ensures Inv(Shift(CreateEffect(w, w.pcs[c], a), c, CreateMove(w, w.pcs[c], a)))
  {
    var t := CreateEffect(w, w.pcs[c], a);
    assert a.sealed.value.ciphertext in t.book.ciphers;
    ShiftKeepsInv(w, t, c, CreateMove(w, w.pcs[c], a));
  }

  /** Dropping digits leaves the second, and so the associated data, alone. */
  lemma InsertKeepsInv(w: World, c: Client, a: Action)
    requires Inv(w) && c in w.pcs && w.pcs[c].Inserting? && CreateFits(w, w.pcs[c], a)
    ensures Inv(Shift(CreateEffect(w, w.pcs[c], a), c, CreateMove(w, w.pcs[c], a)))
  {
    var pc, t := w.pcs[c], CreateEffect(w, w.pcs[c], a);
    assert PcSealed(w.book.ciphers, pc);
    CoarsenKeepsSecond(w.cfg.grain, pc.m.expiresAt);
    assert BodyAadOf(pc.id, Stored(w.cfg.grain, pc.m).expiresAt) == BodyAadOf(pc.id, pc.m.expiresAt);
    ShiftKeepsInv(w, t, c, CreateMove(w, pc, a));
  }

  lemma CreateKeepsInv(w: World, c: Client, a: Action)
    requires Inv(w) && c in w.pcs && CreatePc(w.pcs[c]) && CreateFits(w, w.pcs[c], a)
    ensures Inv(Shift(CreateEffect(w, w.pcs[c], a), c, CreateMove(w, w.pcs[c], a)))
  {
    var pc := w.pcs[c];
    assert PcSealed(w.book.ciphers, pc);
    if pc.Sealing? && a.sealed.Some? {
      SealKeepsInv(w, c, a);
    } else if pc.Inserting? {
      InsertKeepsInv(w, c, a);
    } else {
      QuietKeepsInv(w, CreateEffect(w, pc, a), c, CreateMove(w, pc, a));
    }
  }

  lemma ActKeepsInv(w: World, c: Client, a: Action)
    requires Inv(w) && c in w.pcs && Fits(w, w.pcs[c], a)
    ensures Inv(Shift(Effect(w, w.pcs[c], a), c, Move(w, w.pcs[c], a)))
  {
    var pc := w.pcs[c];
    if a.Crash? {
      QuietKeepsInv(w, Effect(w, pc, a), c, None);
    } else if CreatePc(pc) {
      CreateKeepsInv(w, c, a);
    } else if DeletePc(pc) {
      DeleteFrame(w, pc, a);
      QuietKeepsInv(w, DeleteEffect(w, pc, a), c, DeleteMove(w, pc, a));
    } else if SweepPc(pc) {
      SweepFrame(w, pc, a);
      SweepStaysSweep(w, pc, a);
      QuietKeepsInv(w, SweepEffect(w, pc, a), c, SweepMove(w, pc, a));
    } else {
      ReadFrame(w, pc, a);
      ReadStaysRead(w, pc, a);
      QuietKeepsInv(w, ReadEffect(w, pc, a), c, ReadMove(w, pc, a));
    }
  }

  lemma StepKeepsInv(w: World, step: Step)
    requires Inv(w)
    ensures Inv(Next(w, step))
  {
    match step
    case Do(c, a) =>
      if c !in w.pcs {
        if StartFits(w, a) {
          StartFrame(w, a);
          QuietKeepsInv(w, StartEffect(w, a), c, Some(StartPc(w, a)));
        }
      } else if Fits(w, w.pcs[c], a) {
        ActKeepsInv(w, c, a);
      }
    case _ =>
  }

  lemma {:induction false} RunKeepsInv(cfg: Config, clock: int, steps: seq<Step>)
    ensures Inv(Run(Initial(cfg, clock), steps))
  {
    if steps != [] {
      RunKeepsInv(cfg, clock, steps[..|steps| - 1]);
      StepKeepsInv(Run(Initial(cfg, clock), steps[..|steps| - 1]), steps[|steps| - 1]);
    }
  }
}
