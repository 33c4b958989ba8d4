/** Runs of an honest store and envelope: nothing is planted, and every Seal and Open is what
    the envelope of one ring computes. */
module Honesty {
  import opened Base
  import opened Kdf
  import opened Envelope
  import opened Lifecycle

  /** The record is a result of Seal for this Create, whatever was drawn. */
  ghost predicate HonestSeal(ring: Ring, kdf: KdfFunction, pc: Pc, rec: EncryptedBody)
    requires pc.Sealing? && ValidRing(ring)
  {
    exists password, refused, d ::
      && SealValue(ring, kdf, refused, pc.id, pc.m.expiresAt, pc.canonical, password, d) == Ok(rec)
      && (pc.m.isProtected <==> password != [])
  }

  /** The outcome is the one Open has for this Read's own record and password. */
  ghost predicate HonestOpen(ring: Ring, kdf: KdfFunction, pc: Pc, wrapKey: Bytes, refused: Option<EnvelopeError>)
    requires pc.Opening?
  {
    exists refusal ::
      OpenValue(ring, kdf, refusal, pc.id, pc.m.expiresAt, pc.rec, pc.password)
      == if refused.Some? then Err(refused.value) else OpenWith(wrapKey, pc.id, pc.m.expiresAt, pc.rec)
  }

  ghost predicate Honest(ring: Ring, kdf: KdfFunction, w: World, step: Step)
    requires ValidRing(ring)
  {
    step.Do? ==>
      && !step.action.Plant?
      && (step.client in w.pcs ==>
            var pc, a := w.pcs[step.client], step.action;
            && (pc.Sealing? && a.Seal? && a.sealed.Some? ==> HonestSeal(ring, kdf, pc, a.sealed.value))
            && (pc.Opening? && a.Open? ==> HonestOpen(ring, kdf, pc, a.wrapKey, a.refused)))
  }

  ghost predicate HonestRun(ring: Ring, kdf: KdfFunction, w: World, steps: seq<Step>)
    requires ValidRing(ring)
  {
    forall i :: 0 <= i < |steps| ==> Honest(ring, kdf, Run(w, steps[..i]), steps[i])
  }

  ghost predicate HonestLeads(ring: Ring, kdf: KdfFunction, w: World, t: World)
    requires ValidRing(ring)
  {
    exists steps :: Run(w, steps) == t && HonestRun(ring, kdf, w, steps)
  }

  lemma HonestRefl(ring: Ring, kdf: KdfFunction, w: World)
    requires ValidRing(ring)
    ensures HonestLeads(ring, kdf, w, w)
  {
    assert Run(w, []) == w && HonestRun(ring, kdf, w, []);
  }

  lemma HonestSnoc(ring: Ring, kdf: KdfFunction, w: World, steps: seq<Step>, step: Step)
    requires ValidRing(ring) && HonestRun(ring, kdf, w, steps) && Honest(ring, kdf, Run(w, steps), step)
    ensures HonestRun(ring, kdf, w, steps + [step]) && Run(w, steps + [step]) == Next(Run(w, steps), step)
  {
    RunOne(w, steps, step);
    var longer := steps + [step];
    forall i | 0 <= i < |longer| ensures Honest(ring, kdf, Run(w, longer[..i]), longer[i]) {
      assert longer[..i] == steps[..i];
      assert i == |steps| ==> steps[..i] == steps;
    }
  }

  lemma HonestStep(ring: Ring, kdf: KdfFunction, w: World, t: World, step: Step)
    requires ValidRing(ring) && HonestLeads(ring, kdf, w, t) && Honest(ring, kdf, t, step)
    ensures HonestLeads(ring, kdf, w, Next(t, step))
  {
    var steps :| Run(w, steps) == t && HonestRun(ring, kdf, w, steps);
    HonestSnoc(ring, kdf, w, steps, step);
    assert Run(w, steps + [step]) == Next(t, step);
  }

  lemma HonestPrefix(ring: Ring, kdf: KdfFunction, w: World, steps: seq<Step>)
    requires ValidRing(ring) && HonestRun(ring, kdf, w, steps) && steps != []
    ensures HonestRun(ring, kdf, w, steps[..|steps| - 1])
    ensures Honest(ring, kdf, Run(w, steps[..|steps| - 1]), steps[|steps| - 1])
  {
    var init := steps[..|steps| - 1];
    forall i | 0 <= i < |init| ensures Honest(ring, kdf, Run(w, init[..i]), init[i]) {
      assert init[..i] == steps[..i];
    }
  }
}
