/** How often an expiry is recorded: with a single sweeper, once for the pass that marked the
    row plus once for every earlier pass that recorded it and failed to mark it. */
module Expiries {
  import opened Base
  import opened PasteTable
  import opened SweepPass
  import opened Lifecycle
  import Bodies

  function Recordings(log: seq<Event>, id: Id): nat {
    multiset(log)[PasteExpired(id)]
  }

  /** The bodies a pass still has to delete. */
  function Todo(pc: Pc): seq<Id> {
    match pc
    case Sweeping(_, _, todo, _, _) => todo
    case NotingExpired(_, _, todo, _, _) => todo
    case _ => []
  }

  function TodoOf(pcs: map<Client, Pc>, s: Client): seq<Id> {
    if s in pcs then Todo(pcs[s]) else []
  }

  function RecordedOf(pcs: map<Client, Pc>, s: Client): seq<Id> {
    if s in pcs then Recorded(pcs[s]) else []
  }

  predicate Unaudited(rows: Table, id: Id) {
    id in rows && rows[id].auditedAt.None?
  }

  /** What a pass is still to delete and what it has recorded are apart, and all unmarked. */
  predicate PassSound(rows: Table, todo: seq<Id>, ids: seq<Id>) {
    && Distinct(todo)
    && (forall id :: id in todo ==> id !in ids && Unaudited(rows, id))
    && (forall id :: id in ids ==> Unaudited(rows, id))
  }

  predicate Tally(rows: Table, log: seq<Event>, b: Book, ids: seq<Id>, id: Id) {
    && (id in rows ==> Recordings(log, id) == Lost(b, id) + if rows[id].auditedAt.Some? || id in ids then 1 else 0)
    && (id !in b.born ==> Recordings(log, id) == 0 && Lost(b, id) == 0)
  }

  ghost predicate AllTally(rows: Table, log: seq<Event>, b: Book, ids: seq<Id>) {
    forall id :: Tally(rows, log, b, ids, id)
  }

  predicate OnlySweeper(pcs: map<Client, Pc>, s: Client) {
    forall c :: c in pcs && SweepPc(pcs[c]) ==> c == s
  }

  ghost predicate Inv(w: World, s: Client) {
    && OnlySweeper(w.pcs, s)
    && PassSound(w.rows, TodoOf(w.pcs, s), RecordedOf(w.pcs, s))
    && AllTally(w.rows, w.log, w.book, RecordedOf(w.pcs, s))
  }

  // --- Clients that do not sweep -----------------------------------------------------------

  predicate Unrecorded(log: seq<Event>, after: seq<Event>) {
    after == log || (|after| > 0 && after == log + [after[|after| - 1]] && !after[|after| - 1].PasteExpired?)
  }

  predicate SameAudits(rows: Table, after: Table) {
    rows.Keys == after.Keys && forall id :: id in rows ==> after[id].auditedAt == rows[id].auditedAt
  }

  lemma SameAuditsTally(rows: Table, after: Table, log: seq<Event>, later: seq<Event>, b: Book, d: Book, ids: seq<Id>)
    requires AllTally(rows, log, b, ids) && SameAudits(rows, after) && Unrecorded(log, later)
    requires d.lost == b.lost && d.born == b.born
    ensures AllTally(after, later, d, ids)
  {
    forall id ensures Tally(after, later, d, ids, id) {
      assert Tally(rows, log, b, ids, id);
    }
  }

  lemma QuietKeepsInv(w: World, t: World, s: Client, c: Client, next: Option<Pc>)
    requires Inv(w, s) && t.pcs == w.pcs && SameAudits(w.rows, t.rows) && Unrecorded(w.log, t.log)
    requires t.book.lost == w.book.lost && t.book.born == w.book.born
    requires c in w.pcs ==> !SweepPc(w.pcs[c])
    requires next.Some? ==> !SweepPc(next.value) || (next.value.Listing? && c == s)
    ensures Inv(Shift(t, c, next), s)
  {
    var u := Shift(t, c, next);
    assert TodoOf(u.pcs, s) == TodoOf(w.pcs, s) && RecordedOf(u.pcs, s) == RecordedOf(w.pcs, s);
    SameAuditsTally(w.rows, t.rows, w.log, t.log, w.book, t.book, RecordedOf(w.pcs, s));
  }

  /** A new row has never been recorded. */
  lemma BirthKeepsInv(w: World, s: Client, c: Client, id: Id, row: Row, next: Option<Pc>)
    requires Bodies.Inv(w) && Inv(w, s) && id !in w.book.born && row.auditedAt.None?
    requires c in w.pcs ==> !SweepPc(w.pcs[c])
    requires next.Some? ==> !SweepPc(next.value)
    ensures Inv(Shift(w.(rows := w.rows[id := row], book := w.book.(born := w.book.born[id := row.expiresAt])), c,
                      next), s)
  {
    var t := w.(rows := w.rows[id := row], book := w.book.(born := w.book.born[id := row.expiresAt]));
    var u := Shift(t, c, next);
    assert TodoOf(u.pcs, s) == TodoOf(w.pcs, s) && RecordedOf(u.pcs, s) == RecordedOf(w.pcs, s);
    assert id !in w.rows && id !in RecordedOf(w.pcs, s);
    forall x ensures Tally(t.rows, t.log, t.book, RecordedOf(w.pcs, s), x) {
      assert Tally(w.rows, w.log, w.book, RecordedOf(w.pcs, s), x);
    }
  }

  lemma CreateKeepsInv(w: World, s: Client, c: Client, a: Action)
    requires Bodies.Inv(w) && Inv(w, s) && c in w.pcs && CreatePc(w.pcs[c]) && CreateFits(w, w.pcs[c], a)
    ensures Inv(Shift(CreateEffect(w, w.pcs[c], a), c, CreateMove(w, w.pcs[c], a)), s)
  {
    var pc := w.pcs[c];
    assert Bodies.PcInv(w.bodies, w.book.born, w.book.issued, pc);
    if pc.Inserting? && CreateEffect(w, pc, a) != w {
      BirthKeepsInv(w, s, c, pc.id, Stored(w.cfg.grain, pc.m), CreateMove(w, pc, a));
    } else {
      CreateFrame(w, pc, a);
      QuietKeepsInv(w, CreateEffect(w, pc, a), s, c, CreateMove(w, pc, a));
    }
  }

  lemma DeleteKeepsInv(w: World, s: Client, c: Client, a: Action)
    requires Inv(w, s) && c in w.pcs && DeletePc(w.pcs[c]) && DeleteFits(w.pcs[c], a)
    ensures Inv(Shift(DeleteEffect(w, w.pcs[c], a), c, DeleteMove(w, w.pcs[c], a)), s)
  {
    DeleteFrame(w, w.pcs[c], a);
    QuietKeepsInv(w, DeleteEffect(w, w.pcs[c], a), s, c, DeleteMove(w, w.pcs[c], a));
  }

  lemma ReadIsQuiet(w: World, pc: Pc, a: Action)
    requires ReadPc(pc) && ReadFits(w, pc, a)
    ensures Unrecorded(w.log, ReadEffect(w, pc, a).log)
  {
  }

  lemma ReadKeepsInv(w: World, s: Client, c: Client, a: Action)
    requires Inv(w, s) && c in w.pcs && ReadPc(w.pcs[c]) && ReadFits(w, w.pcs[c], a)
    ensures Inv(Shift(ReadEffect(w, w.pcs[c], a), c, ReadMove(w, w.pcs[c], a)), s)
  {
    ReadFrame(w, w.pcs[c], a);
    ReadStaysRead(w, w.pcs[c], a);
    ReadIsQuiet(w, w.pcs[c], a);
    QuietKeepsInv(w, ReadEffect(w, w.pcs[c], a), s, c, ReadMove(w, w.pcs[c], a));
  }

  // --- The sweeper -------------------------------------------------------------------------

  /** The sweeper moves on, its lists and the tally made good. */
  lemma SweepShiftKeepsInv(w: World, t: World, s: Client, next: Option<Pc>, todo: seq<Id>, ids: seq<Id>)
    requires OnlySweeper(w.pcs, s) && t.pcs == w.pcs
    requires next.Some? ==> Todo(next.value) == todo && Recorded(next.value) == ids
    requires next.None? ==> todo == [] && ids == []
    requires PassSound(t.rows, todo, ids) && AllTally(t.rows, t.log, t.book, ids)
    ensures Inv(Shift(t, s, next), s)
  {
  }

  lemma OnwardLists(now: int, cfg: SweepConfig, todo: seq<Id>, ids: seq<Id>, retry: bool)
    ensures var next := Onward(now, cfg, todo, ids, retry);
            if next.Some? then Todo(next.value) == todo && Recorded(next.value) == ids else todo == [] && ids == []
  {
  }

  lemma DistinctPrefix(r: seq<Id>, all: seq<Id>)
    requires r <= all && Distinct(all)
    ensures Distinct(r)
  {
  }

  lemma ListedIsSound(rows: Table, now: int, limit: nat)
    ensures PassSound(rows, ListExpiredUnaudited(rows, now, limit), [])
  {
    var r, all := ListExpiredUnaudited(rows, now, limit), PendingOrder(rows, now);
    OrderedContents(rows, PendingIds(rows, now));
    DistinctPrefix(r, all);
    forall id | id in r ensures Unaudited(rows, id) {
      assert id in Elements(all);
    }
  }

  lemma ListKeepsInv(w: World, s: Client, a: Action)
    requires Inv(w, s) && s in w.pcs && w.pcs[s].Listing? && SweepFits(w.pcs[s], a)
    ensures Inv(Shift(w, s, SweepMove(w, w.pcs[s], a)), s)
  {
    var pc := w.pcs[s];
    var listed := ListExpiredUnaudited(w.rows, pc.now, pc.cfg.batch);
    ListedIsSound(w.rows, pc.now, pc.cfg.batch);
    OnwardLists(pc.now, pc.cfg, listed, [], |listed| >= pc.cfg.batch);
    var next := SweepMove(w, pc, a);
    SweepShiftKeepsInv(w, w, s, next, if next.None? then [] else listed, []);
  }

  lemma RestIsSound(rows: Table, todo: seq<Id>, ids: seq<Id>)
    requires PassSound(rows, todo, ids) && todo != []
    ensures PassSound(rows, todo[1..], ids) && PassSound(rows, todo[1..], ids + [todo[0]])
  {
    forall id | id in todo[1..] ensures id != todo[0] && id in todo {
      var i :| 0 <= i < |todo[1..]| && todo[1..][i] == id;
      assert todo[i + 1] == id;
    }
    assert Distinct(todo[1..]);
  }

  lemma BodyKeepsInv(w: World, s: Client, a: Action)
    requires Inv(w, s) && s in w.pcs && w.pcs[s].Sweeping? && SweepFits(w.pcs[s], a)
    ensures Inv(Shift(DropBody(w, w.pcs[s].todo[0], a.fate), s, SweepMove(w, w.pcs[s], a)), s)
  {
    var pc, next := w.pcs[s], SweepMove(w, w.pcs[s], a);
    var t := DropBody(w, pc.todo[0], a.fate);
    if a.fate.Lands? {
      SweepShiftKeepsInv(w, t, s, next, pc.todo, pc.ids);
    } else {
      RestIsSound(w.rows, pc.todo, pc.ids);
      OnwardLists(pc.now, pc.cfg, pc.todo[1..], pc.ids, true);
      SweepShiftKeepsInv(w, t, s, next, pc.todo[1..], pc.ids);
    }
  }

  lemma RecordKeepsInv(w: World, s: Client, a: Action)
    requires Bodies.Inv(w) && Inv(w, s) && s in w.pcs && w.pcs[s].NotingExpired? && SweepFits(w.pcs[s], a)
    ensures Inv(Shift(Lifecycle.Record(w, PasteExpired(w.pcs[s].todo[0])), s, SweepMove(w, w.pcs[s], a)), s)
  {
    var pc := w.pcs[s];
    var t := Lifecycle.Record(w, PasteExpired(pc.todo[0]));
    var ids := pc.ids + [pc.todo[0]];
    RestIsSound(w.rows, pc.todo, pc.ids);
    OnwardLists(pc.now, pc.cfg, pc.todo[1..], ids, pc.retry);
    assert pc.todo[0] in pc.todo;
    forall id ensures Tally(t.rows, t.log, t.book, ids, id) {
      assert Tally(w.rows, w.log, w.book, pc.ids, id);
      assert id in ids <==> id in pc.ids || id == pc.todo[0];
    }
    SweepShiftKeepsInv(w, t, s, SweepMove(w, pc, a), pc.todo[1..], ids);
  }

  lemma MarkTallies(w: World, now: int, ids: seq<Id>, fate: Fate, id: Id)
    requires Bodies.Inv(w) && Tally(w.rows, w.log, w.book, ids, id) && (id in ids ==> Unaudited(w.rows, id))
    ensures var t := MarkEffect(w, now, ids, fate); Tally(t.rows, t.log, t.book, [], id)
  {
    if fate.Fails? {
      LoseTallies(w.rows, w.log, w.book, ids, id);
    }
  }

  /** A pass that ends without its marks turns what it recorded into lost recordings. */
  lemma LoseTallies(rows: Table, log: seq<Event>, b: Book, ids: seq<Id>, id: Id)
    requires Tally(rows, log, b, ids, id) && (id in ids ==> id in b.born && id in rows && rows[id].auditedAt.None?)
    ensures Tally(rows, log, LosePass(b, ids), [], id)
  {
    var d := LosePass(b, ids);
    assert id in ids <==> id in Elements(ids);
    assert Lost(d, id) == Lost(b, id) + if id in ids then 1 else 0;
  }

  lemma MarkKeepsInv(w: World, s: Client, a: Action)
    requires Bodies.Inv(w) && Inv(w, s) && s in w.pcs && w.pcs[s].MarkingAudited? && SweepFits(w.pcs[s], a)
    ensures Inv(Shift(MarkEffect(w, w.pcs[s].now, w.pcs[s].ids, a.fate), s, SweepMove(w, w.pcs[s], a)), s)
  {
    var pc := w.pcs[s];
    var t := MarkEffect(w, pc.now, pc.ids, a.fate);
    forall id ensures Tally(t.rows, t.log, t.book, [], id) {
      assert Tally(w.rows, w.log, w.book, pc.ids, id);
      MarkTallies(w, pc.now, pc.ids, a.fate, id);
    }
    SweepShiftKeepsInv(w, t, s, SweepMove(w, pc, a), [], []);
  }

  lemma FewerRowsTally(rows: Table, fewer: Table, log: seq<Event>, later: seq<Event>, b: Book)
    requires AllTally(rows, log, b, []) && Within(fewer, rows) && Unrecorded(log, later)
    ensures AllTally(fewer, later, b, [])
  {
    forall id ensures Tally(fewer, later, b, [], id) {
      assert Tally(rows, log, b, [], id);
    }
  }

  lemma KeepRowsIsQuiet(w: World, rows: Table, replied: bool)
    ensures Unrecorded(w.log, KeepRows(w, rows, replied).log)
  {
  }

  lemma PurgeKeepsInv(w: World, s: Client, a: Action)
    requires Inv(w, s) && s in w.pcs && w.pcs[s].Purging? && SweepFits(w.pcs[s], a)
    ensures Inv(Shift(PurgeEffect(w, w.pcs[s].now, w.pcs[s].cfg, a.fate), s, None), s)
  {
    var pc := w.pcs[s];
    var t := PurgeEffect(w, pc.now, pc.cfg, a.fate);
    PurgeFrame(w, pc.now, pc.cfg, a.fate);
    KeepRowsIsQuiet(w, PurgeRows(w.rows, pc.now, pc.cfg), a.fate.Lands?);
    FewerRowsTally(w.rows, t.rows, w.log, t.log, w.book);
    SweepShiftKeepsInv(w, t, s, None, [], []);
  }

  lemma SweepKeepsInv(w: World, s: Client, a: Action)
    requires Bodies.Inv(w) && Inv(w, s) && s in w.pcs && SweepPc(w.pcs[s]) && SweepFits(w.pcs[s], a)
    ensures Inv(Shift(SweepEffect(w, w.pcs[s], a), s, SweepMove(w, w.pcs[s], a)), s)
  {
    var pc := w.pcs[s];
    if pc.Listing? {
      ListKeepsInv(w, s, a);
    } else if pc.Sweeping? {
      BodyKeepsInv(w, s, a);
    } else if pc.NotingExpired? {
      RecordKeepsInv(w, s, a);
    } else if pc.MarkingAudited? {
      MarkKeepsInv(w, s, a);
    } else {
      PurgeKeepsInv(w, s, a);
    }
  }

  lemma CrashKeepsInv(w: World, s: Client, c: Client)
    requires Bodies.Inv(w) && Inv(w, s) && c in w.pcs
    ensures Inv(Shift(Effect(w, w.pcs[c], Crash), c, None), s)
  {
    var pc, t := w.pcs[c], Effect(w, w.pcs[c], Crash);
    if SweepPc(pc) {
      assert c == s;
      forall id ensures Tally(t.rows, t.log, t.book, [], id) {
        assert Tally(w.rows, w.log, w.book, Recorded(pc), id);
        LoseTallies(w.rows, w.log, w.book, Recorded(pc), id);
      }
      SweepShiftKeepsInv(w, t, s, None, [], []);
    } else {
      QuietKeepsInv(w, t, s, c, None);
    }
  }

  // --- Every run ---------------------------------------------------------------------------

  /** Only client `s` runs sweeper passes, one after the other. */
  predicate SingleSweeper(steps: seq<Step>, s: Client) {
    forall i :: 0 <= i < |steps| && steps[i].Do? && steps[i].action.BeginSweep? ==> steps[i].client == s
  }

  lemma StartKeepsInv(w: World, s: Client, c: Client, a: Action)
    requires Inv(w, s) && c !in w.pcs && StartFits(w, a) && (a.BeginSweep? ==> c == s)
    ensures Inv(Shift(StartEffect(w, a), c, Some(StartPc(w, a))), s)
  {
    StartFrame(w, a);
    QuietKeepsInv(w, StartEffect(w, a), s, c, Some(StartPc(w, a)));
  }

  lemma ActKeepsInv(w: World, s: Client, c: Client, a: Action)
    requires Bodies.Inv(w) && Inv(w, s) && c in w.pcs && Fits(w, w.pcs[c], a)
    ensures Inv(Shift(Effect(w, w.pcs[c], a), c, Move(w, w.pcs[c], a)), s)
  {
    var pc := w.pcs[c];
    if a.Crash? {
      CrashKeepsInv(w, s, c);
    } else if CreatePc(pc) {
      CreateKeepsInv(w, s, c, a);
    } else if DeletePc(pc) {
      DeleteKeepsInv(w, s, c, a);
    } else if SweepPc(pc) {
      SweepKeepsInv(w, s, a);
    } else {
      ReadKeepsInv(w, s, c, a);
    }
  }

  lemma StepKeepsInv(w: World, s: Client, step: Step)
    requires Bodies.Inv(w) && Inv(w, s) && SingleSweeper([step], s)
    ensures Inv(Next(w, step), s)
  {
    assert [step][0] == step;
    if step.Do? {
      if step.client !in w.pcs {
        if StartFits(w, step.action) {
          StartKeepsInv(w, s, step.client, step.action);
        }
      } else if Fits(w, w.pcs[step.client], step.action) {
        ActKeepsInv(w, s, step.client, step.action);
      }
    } else {
      SameAuditsTally(w.rows, w.rows, w.log, w.log, w.book, w.book, RecordedOf(w.pcs, s));
    }
  }

  lemma {:induction false} RunKeepsInv(cfg: Config, clock: int, steps: seq<Step>, s: Client)
    requires SingleSweeper(steps, s)
    ensures Inv(Run(Initial(cfg, clock), steps), s)
  {
    if steps != [] {
      var before := steps[..|steps| - 1];
      RunKeepsInv(cfg, clock, before, s);
      Bodies.RunKeepsInv(cfg, clock, before);
      StepKeepsInv(Run(Initial(cfg, clock), before), s, steps[|steps| - 1]);
    }
  }

  /** Over any run with a single sweeper, an audited row's expiry is recorded exactly once for
      the pass that marked it and once for each pass that recorded it without marking it; and
      a row not audited yet is recorded once for each such pass and at most once more. */
  lemma ExpiriesRecorded(cfg: Config, clock: int, steps: seq<Step>, s: Client, id: Id)
    requires SingleSweeper(steps, s) && id in Run(Initial(cfg, clock), steps).rows
    ensures var w := Run(Initial(cfg, clock), steps);
            if w.rows[id].auditedAt.Some? then Recordings(w.log, id) == 1 + Lost(w.book, id)
              && PasteExpired(id) in w.log
            else Recordings(w.log, id) == Lost(w.book, id) + if id in RecordedOf(w.pcs, s) then 1 else 0
  {
    RunKeepsInv(cfg, clock, steps, s);
    var w := Run(Initial(cfg, clock), steps);
    assert Tally(w.rows, w.log, w.book, RecordedOf(w.pcs, s), id);
    assert PasteExpired(id) in multiset(w.log) ==> PasteExpired(id) in w.log;
  }
}
