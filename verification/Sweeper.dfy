/** RunOnce itself (internal/sweeper/sweeper.go): its loop is a run of the lifecycle protocol
    with anything in between, and with nothing in between it computes SweepPass.Pass. */
module Sweeper {
  import opened Base
  import opened PasteTable
  import opened SweepPass
  import opened Lifecycle
  import opened Runs
  import opened Stores

  datatype Stats = Stats(expired: nat, metadataPurged: nat)

  /** How the calls of a pass end, and what others do before each: before the list, before the
      n-th step of the loop, before the marks and before the purge. */
  datatype Script = Script(listFate: Fate, bodyFate: Id -> Fate, markFate: Fate, purgeFate: Fate,
                           beforeList: seq<Step>, gap: nat -> seq<Step>, beforeMark: seq<Step>, beforePurge: seq<Step>)

  ghost predicate ForeignScript(me: Client, x: Script) {
    (forall n :: Foreign(me, x.gap(n))) && Foreign(me, x.beforeList) && Foreign(me, x.beforeMark)
      && Foreign(me, x.beforePurge)
  }

  ghost predicate Undisturbed(x: Script) {
    (forall n :: x.gap(n) == []) && x.beforeList == [] && x.beforeMark == [] && x.beforePurge == []
  }

  /** The listed rows whose body cannot be deleted. */
  function Failing(x: Script, listed: seq<Id>): set<Id> {
    set id | id in listed && !x.bodyFate(id).Lands?
  }

  lemma {:induction false} HandledSnoc(listed: seq<Id>, id: Id, failing: set<Id>)
    ensures Handled(listed + [id], failing) == Handled(listed, failing) + if id in failing then [] else [id]
  {
    if listed == [] {
      assert [] + [id] == [id] && [id][1..] == [];
      assert Handled([], failing) == [];
    } else {
      var first := if listed[0] in failing then [] else [listed[0]];
      HandledSnoc(listed[1..], id, failing);
      assert (listed + [id])[0] == listed[0] && (listed + [id])[1..] == listed[1..] + [id];
      assert Handled(listed + [id], failing) == first + Handled(listed[1..] + [id], failing);
    }
  }

  class Sweeper {
    const stores: Stores
    const cfg: SweepConfig

    /** Whatever is configured, a pass takes at least one row, so passes drain the table. */
    constructor (stores: Stores, batch: int, retentionDays: int, completedPurge: bool)
      ensures this.stores == stores && this.cfg.retentionDays == retentionDays
              && this.cfg.completedPurge == completedPurge
      ensures this.cfg.batch >= 1 && (batch >= 1 ==> this.cfg.batch == batch) && (batch < 1 ==> this.cfg.batch == 500)
    {
      this.stores := stores;
      this.cfg := SweepConfig(if batch <= 0 then 500 else batch, retentionDays, completedPurge);
    }

    /** One listed row: delete its body, then record its expiry. */
    method SweepRow(me: Client, x: Script, n: nat, now: int, todo: seq<Id>, ids: seq<Id>, retry: bool)
      returns (ids': seq<Id>, retry': bool)
      requires ForeignScript(me, x) && todo != []
      requires Place(stores.w, me) == Some(Sweeping(now, cfg, todo, ids, retry))
      modifies stores
      ensures Leads(old(stores.w), stores.w)
      ensures Place(stores.w, me) == Onward(now, cfg, todo[1..], ids', retry')
      ensures x.bodyFate(todo[0]).Lands? ==> ids' == ids + [todo[0]] && retry' == retry
      ensures !x.bodyFate(todo[0]).Lands? ==> ids' == ids && retry'
      ensures Undisturbed(x) ==> stores.w.rows == old(stores.w.rows)
    {
      stores.Others(me, x.gap(n));
      var fate := x.bodyFate(todo[0]);
      ghost var before := stores.w;
      LeadsBody(old(stores.w), before, me, now, cfg, todo, ids, retry, fate);
      var ok := stores.Delete(todo[0], fate);
      DroppedIsDropBody(before, stores.w, todo[0], fate);
      if !ok {
        stores.Move(me, Onward(now, cfg, todo[1..], ids, true));
        return ids, true;
      }
      stores.Move(me, Some(NotingExpired(now, cfg, todo, ids, retry)));
      ghost var deleted := stores.w;
      RecordRow(me, x, n, now, todo, ids, retry);
      LeadsTrans(old(stores.w), deleted, stores.w);
      return ids + [todo[0]], retry;
    }

    method RecordRow(me: Client, x: Script, n: nat, now: int, todo: seq<Id>, ids: seq<Id>, retry: bool)
      requires ForeignScript(me, x) && todo != []
      requires Place(stores.w, me) == Some(NotingExpired(now, cfg, todo, ids, retry))
      modifies stores
      ensures Leads(old(stores.w), stores.w)
      ensures Place(stores.w, me) == Onward(now, cfg, todo[1..], ids + [todo[0]], retry)
      ensures Undisturbed(x) ==> stores.w.rows == old(stores.w.rows)
    {
      stores.Others(me, x.gap(n + 1));
      ghost var before := stores.w;
      LeadsStep(old(stores.w), before, Do(me, Note));
      stores.Record(PasteExpired(todo[0]));
      stores.Move(me, Onward(now, cfg, todo[1..], ids + [todo[0]], retry));
      assert stores.w == Next(before, Do(me, Note));
    }

    /** The loop over the listed rows. */
    method SweepAll(me: Client, x: Script, now: int, listed: seq<Id>) returns (ids: seq<Id>, retry: bool)
      requires ForeignScript(me, x)
      requires Place(stores.w, me) == Onward(now, cfg, listed, [], |listed| >= cfg.batch)
      modifies stores
      ensures Leads(old(stores.w), stores.w)
      ensures Place(stores.w, me) == Onward(now, cfg, [], ids, retry)
      ensures ids == Handled(listed, Failing(x, listed)) && retry == RetryPending(listed, cfg.batch, Failing(x, listed))
      ensures Undisturbed(x) ==> stores.w.rows == old(stores.w.rows)
    {
      ids, retry := [], |listed| >= cfg.batch;
      ghost var failing := Failing(x, listed);
      LeadsRefl(stores.w);
      assert listed[0..] == listed;
      for i := 0 to |listed|
        invariant Leads(old(stores.w), stores.w)
        invariant Place(stores.w, me) == Onward(now, cfg, listed[i..], ids, retry)
        invariant ids == Handled(listed[..i], failing)
        invariant retry <==> |listed| >= cfg.batch || exists k :: 0 <= k < i && listed[k] in failing
        invariant Undisturbed(x) ==> stores.w.rows == old(stores.w.rows)
      {
        ghost var before := stores.w;
        ids, retry := SweepRow(me, x, 2 * i, now, listed[i..], ids, retry);
        LeadsTrans(old(stores.w), before, stores.w);
        assert listed[i..][1..] == listed[i + 1..] && listed[i..][0] == listed[i];
        assert listed[..i + 1] == listed[..i] + [listed[i]];
        HandledSnoc(listed[..i], listed[i], failing);
      }
      assert listed[|listed|..] == [] && listed[..|listed|] == listed;
    }

    /** The marks and the retention purge that end a pass. */
    method Finish(me: Client, x: Script, now: int, ids: seq<Id>, retry: bool) returns (r: Option<Stats>)
      requires ForeignScript(me, x)
      requires Place(stores.w, me) == Onward(now, cfg, [], ids, retry)
      modifies stores
      ensures Leads(old(stores.w), stores.w) && me !in stores.w.pcs
      ensures r.Some? ==> r.value.expired == |ids|
      ensures Undisturbed(x) && x.markFate.Lands? && x.purgeFate.Lands? ==>
                && r.Some?
                && stores.w.rows == Purged(MarkExpiredAudited(old(stores.w.rows), ids, now), now, cfg, retry)
                && r.value.metadataPurged == |old(stores.w.rows).Keys - stores.w.rows.Keys|
    {
      LeadsRefl(stores.w);
      if |ids| > 0 {
        var ok := Mark(me, x, now, ids, retry);
        if !ok {
          return None;
        }
      }
      NothingToMark(old(stores.w.rows), now);
      assert |ids| == 0 ==> ids == [];
      ghost var marked := stores.w;
      var count := Retain(me, x, now, retry);
      LeadsTrans(old(stores.w), marked, stores.w);
      if count.None? {
        return None;
      }
      return Some(Stats(|ids|, count.value));
    }

    method Mark(me: Client, x: Script, now: int, ids: seq<Id>, retry: bool) returns (ok: bool)
      requires ForeignScript(me, x) && ids != []
      requires Place(stores.w, me) == Some(MarkingAudited(now, cfg, ids, retry))
      modifies stores
      ensures Leads(old(stores.w), stores.w)
      ensures ok <==> x.markFate.Lands?
      ensures Place(stores.w, me) == if ok then AfterMarks(now, cfg, retry) else None
      ensures Undisturbed(x) && ok ==> stores.w.rows == MarkExpiredAudited(old(stores.w.rows), ids, now)
    {
      stores.Others(me, x.beforeMark);
      ghost var before := stores.w;
      LeadsMark(old(stores.w), before, me, now, cfg, ids, retry, x.markFate);
      ok := stores.MarkRowsAudited(ids, now, x.markFate);
      if !x.markFate.Fails? {
        AuditedIsMarked(before.rows, stores.w.rows, ids, now);
      }
      if !ok {
        stores.Move(me, None);
        return;
      }
      stores.Move(me, AfterMarks(now, cfg, retry));
    }

    /** Retention: the completed purge where the store has it, else the plain one, and only
        when no expiry work is left. */
    method Retain(me: Client, x: Script, now: int, retry: bool) returns (count: Option<nat>)
      requires ForeignScript(me, x)
      requires Place(stores.w, me) == AfterMarks(now, cfg, retry)
      modifies stores
      ensures Leads(old(stores.w), stores.w) && me !in stores.w.pcs
      ensures Undisturbed(x) && x.purgeFate.Lands? ==>
                && stores.w.rows == Purged(old(stores.w.rows), now, cfg, retry)
                && count == Some(|old(stores.w.rows).Keys - stores.w.rows.Keys|)
    {
      LeadsRefl(stores.w);
      count := Some(0);
      assert |stores.w.rows.Keys - stores.w.rows.Keys| == 0;
      if cfg.retentionDays > 0 && (cfg.completedPurge || !retry) {
        count := Purge(me, x, now);
      }
    }

    method Purge(me: Client, x: Script, now: int) returns (count: Option<nat>)
      requires ForeignScript(me, x)
      requires Place(stores.w, me) == Some(Purging(now, cfg))
      modifies stores
      ensures Leads(old(stores.w), stores.w) && me !in stores.w.pcs
      ensures Undisturbed(x) && x.purgeFate.Lands? ==>
                && stores.w.rows == PurgeRows(old(stores.w.rows), now, cfg)
                && count == Some(|old(stores.w.rows).Keys - stores.w.rows.Keys|)
    {
      stores.Others(me, x.beforePurge);
      LeadsPurge(old(stores.w), stores.w, me, x.purgeFate);
      count := PurgeAndRecord(me, now, x.purgeFate);
    }

    /** The purge and the record of how many rows went. */
    method PurgeAndRecord(me: Client, now: int, fate: Fate) returns (count: Option<nat>)
      modifies stores
      ensures stores.w == Shift(PurgeEffect(old(stores.w), now, cfg, fate), me, None)
      ensures fate.Lands? ==> stores.w.rows == PurgeRows(old(stores.w.rows), now, cfg)
      ensures count == if fate.Lands? then Some(|old(stores.w.rows).Keys - stores.w.rows.Keys|) else None
    {
      count := stores.PurgeRows(cfg.completedPurge, Cutoff(now, cfg.retentionDays), fate);
      if !fate.Fails? {
        PurgedIsPurge(old(stores.w.rows), stores.w.rows, now, cfg);
      }
      if count.Some? && count.value > 0 {
        stores.Record(MetadataPurged(count.value));
      }
      stores.Move(me, None);
    }

    /** The pass once its instant is fixed. */
    method RunFrom(me: Client, x: Script, now: int) returns (r: Option<Stats>)
      requires ForeignScript(me, x) && Place(stores.w, me) == Some(Listing(now, cfg))
      modifies stores
      ensures Leads(old(stores.w), stores.w) && me !in stores.w.pcs
      ensures Undisturbed(x) && x.listFate.Lands? && x.markFate.Lands? && x.purgeFate.Lands? ==>
                var listed := ListExpiredUnaudited(old(stores.w.rows), now, cfg.batch);
                && r.Some? && r.value.expired == |Handled(listed, Failing(x, listed))|
                && stores.w.rows == Pass(old(stores.w.rows), now, cfg, Failing(x, listed))
                && r.value.metadataPurged == |old(stores.w.rows).Keys - stores.w.rows.Keys|
    {
      var listed := List(me, x, now);
      if listed.None? {
        return None;
      }
      ghost var listing := stores.w;
      var ids, retry := SweepAll(me, x, now, listed.value);
      LeadsTrans(old(stores.w), listing, stores.w);
      ghost var swept := stores.w;
      r := Finish(me, x, now, ids, retry);
      LeadsTrans(old(stores.w), swept, stores.w);
    }

    method List(me: Client, x: Script, now: int) returns (listed: Option<seq<Id>>)
      requires ForeignScript(me, x) && Place(stores.w, me) == Some(Listing(now, cfg))
      modifies stores
      ensures Leads(old(stores.w), stores.w)
      ensures listed.Some? <==> x.listFate.Lands?
      ensures listed.Some? ==> listed.value == ListExpiredUnaudited(stores.w.rows, now, cfg.batch)
      ensures Place(stores.w, me) == if listed.None? then None
              else Onward(now, cfg, listed.value, [], |listed.value| >= cfg.batch)
      ensures Undisturbed(x) ==> stores.w.rows == old(stores.w.rows)
    {
      stores.Others(me, x.beforeList);
      ghost var before := stores.w;
      LeadsStep(old(stores.w), before, Do(me, Call(x.listFate, 0)));
      if !x.listFate.Lands? {
        stores.Move(me, None);
        assert stores.w == Next(before, Do(me, Call(x.listFate, 0)));
        return None;
      }
      var rows := ListExpiredUnaudited(stores.w.rows, now, cfg.batch);
      stores.Move(me, Onward(now, cfg, rows, [], |rows| >= cfg.batch));
      assert stores.w == Next(before, Do(me, Call(x.listFate, 0)));
      return Some(rows);
    }

    /** RunOnce.  Whatever happens between its calls, the pass is a run of the protocol; when
        nothing does and its calls succeed, the table it leaves is SweepPass.Pass, the
        failing rows being those whose body could not be deleted. */
    method RunOnce(me: Client, x: Script) returns (r: Option<Stats>)
      requires ForeignScript(me, x) && me !in stores.w.pcs
      modifies stores
      ensures Leads(old(stores.w), stores.w) && me !in stores.w.pcs
      ensures Undisturbed(x) && x.listFate.Lands? && x.markFate.Lands? && x.purgeFate.Lands? ==>
                var now := old(stores.w.clock);
                var listed := ListExpiredUnaudited(old(stores.w.rows), now, cfg.batch);
                && r.Some? && r.value.expired == |Handled(listed, Failing(x, listed))|
                && stores.w.rows == Pass(old(stores.w.rows), now, cfg, Failing(x, listed))
                && r.value.metadataPurged == |old(stores.w.rows).Keys - stores.w.rows.Keys|
    {
      var now := stores.w.clock;
      LeadsRefl(stores.w);
      LeadsStep(stores.w, stores.w, Do(me, BeginSweep(cfg)));
      stores.Move(me, Some(Listing(now, cfg)));
      assert stores.w == Next(old(stores.w), Do(me, BeginSweep(cfg)));
      ghost var begun := stores.w;
      r := RunFrom(me, x, now);
      LeadsTrans(old(stores.w), begun, stores.w);
    }
  }

  lemma LeadsBody(start: World, w: World, me: Client, now: int, cfg: SweepConfig, todo: seq<Id>, ids: seq<Id>,
                  retry: bool, fate: Fate)
    requires Leads(start, w) && me in w.pcs && w.pcs[me] == Sweeping(now, cfg, todo, ids, retry) && todo != []
    ensures Leads(start, Shift(DropBody(w, todo[0], fate), me,
                               if fate.Lands? then Some(NotingExpired(now, cfg, todo, ids, retry))
                               else Onward(now, cfg, todo[1..], ids, true)))
  {
    LeadsStep(start, w, Do(me, Call(fate, 0)));
  }

  lemma LeadsMark(start: World, w: World, me: Client, now: int, cfg: SweepConfig, ids: seq<Id>, retry: bool, fate: Fate)
    requires Leads(start, w) && me in w.pcs && w.pcs[me] == MarkingAudited(now, cfg, ids, retry)
    ensures Leads(start, Shift(MarkEffect(w, now, ids, fate), me,
                               if fate.Lands? then AfterMarks(now, cfg, retry) else None))
  {
    LeadsStep(start, w, Do(me, Call(fate, 0)));
  }

  lemma LeadsPurge(start: World, w: World, me: Client, fate: Fate)
    requires Leads(start, w) && me in w.pcs && w.pcs[me].Purging?
    ensures Leads(start, Shift(PurgeEffect(w, w.pcs[me].now, w.pcs[me].cfg, fate), me, None))
  {
    PurgeStep(w, me, w.pcs[me].now, w.pcs[me].cfg, fate);
    LeadsStep(start, w, Do(me, Call(fate, 0)));
  }

  lemma SweepAct(w: World, me: Client, pc: Pc, a: Action)
    requires me in w.pcs && w.pcs[me] == pc && SweepPc(pc) && SweepFits(pc, a)
    ensures Next(w, Do(me, a)) == Shift(SweepEffect(w, pc, a), me, SweepMove(w, pc, a))
  {
    assert Fits(w, pc, a);
  }

  lemma PurgeIsEffect(w: World, now: int, cfg: SweepConfig, fate: Fate)
    ensures SweepEffect(w, Purging(now, cfg), Call(fate, 0)) == PurgeEffect(w, now, cfg, fate)
    ensures SweepMove(w, Purging(now, cfg), Call(fate, 0)) == None
  {
  }

  lemma PurgeStep(w: World, me: Client, now: int, cfg: SweepConfig, fate: Fate)
    requires me in w.pcs && w.pcs[me] == Purging(now, cfg)
    ensures Next(w, Do(me, Call(fate, 0))) == Shift(PurgeEffect(w, now, cfg, fate), me, None)
  {
    SweepAct(w, me, Purging(now, cfg), Call(fate, 0));
    PurgeIsEffect(w, now, cfg, fate);
  }

  lemma NothingToMark(t: Table, now: int)
    ensures MarkExpiredAudited(t, [], now) == t
  {
  }
}
