/** Which rows can come to be both deleted and expiry-audited: the exact condition on a state
    that a run can reach, over every way the run can go on. */
module BothMarks {
  import opened Base
  import opened PasteTable
  import opened SweepPass
  import opened Lifecycle
  import opened Marks
  import opened Runs
  import Bodies
  import Reads

  /** A deletion of `id` that has found the row neither deleted nor expired. */
  predicate Deleter(pc: Pc, id: Id) {
    (pc.DeletingBody? || pc.MarkingDeleted?) && pc.id == id
  }

  predicate Deleting(pcs: map<Client, Pc>, id: Id) {
    exists c :: c in pcs && Deleter(pcs[c], id)
  }

  predicate InSomeList(pcs: map<Client, Pc>, id: Id) {
    exists c :: c in pcs && id in Listed(pcs[c])
  }

  /** An undeleted row is unexpired or has a deletion past its check; a deleted one without the
      audit mark is still on the list of some pass. */
  predicate Markable(w: World, id: Id)
    requires id in w.rows
  {
    var m := w.rows[id];
    if m.deletedAt.None? then w.clock < m.expiresAt || Deleting(w.pcs, id)
    else m.auditedAt.Some? || InSomeList(w.pcs, id)
  }

  predicate HasBoth(w: World, id: Id) {
    id in w.rows && Both(w.rows[id])
  }

  /** Some way of going on gives the row both marks. */
  ghost predicate Doubles(w: World, id: Id) {
    exists t :: Leads(w, t) && HasBoth(t, id)
  }

  // --- What clients know -------------------------------------------------------------------

  /** A deletion holds the row's expiry, and a pass works on a list that is not empty. */
  predicate Knows(b: Book, pc: Pc) {
    && (pc.DeleteTiming? ==> pc.id in b.born && pc.m.expiresAt == b.born[pc.id])
    && (pc.Sweeping? || pc.NotingExpired? ==> pc.todo != [])
  }

  predicate AllKnow(w: World) {
    forall c :: c in w.pcs ==> Knows(w.book, w.pcs[c])
  }

  lemma MoveKnows(w: World, c: Client, a: Action, b: Book)
    requires c in w.pcs && Knows(w.book, w.pcs[c]) && Fits(w, w.pcs[c], a)
    ensures var next := Move(w, w.pcs[c], a); next.Some? ==> Knows(b, next.value)
  {
    if ReadPc(w.pcs[c]) && !a.Crash? {
      ReadStaysRead(w, w.pcs[c], a);
    }
  }

  lemma StartKnows(w: World, a: Action)
    requires Reads.Genuine(w) && StartFits(w, a)
    ensures Knows(StartEffect(w, a).book, StartPc(w, a))
  {
    StartFrame(w, a);
  }

  lemma StepKnows(w: World, step: Step)
    requires Sound(w) && AllKnow(w)
    ensures AllKnow(Next(w, step))
  {
    var t := Next(w, step);
    StepKeeps(w, step);
    forall c | c in t.pcs ensures Knows(t.book, t.pcs[c]) {
      if step.Do? && step.client == c {
        if c in w.pcs && Fits(w, w.pcs[c], step.action) {
          EffectFrame(w, w.pcs[c], step.action);
          MoveKnows(w, c, step.action, t.book);
        } else if c !in w.pcs && StartFits(w, step.action) {
          StartKnows(w, step.action);
        }
      } else {
        ForeignStep(w, step, c);
        assert Place(t, c) == Place(w, c);
        assert Knows(w.book, w.pcs[c]);
      }
    }
  }

  lemma {:induction false} RunKnows(cfg: Config, clock: int, steps: seq<Step>)
    ensures Sound(Run(Initial(cfg, clock), steps)) && AllKnow(Run(Initial(cfg, clock), steps))
  {
    InitialIsSound(cfg, clock);
    RunKeepsPast(Initial(cfg, clock), steps);
    if steps != [] {
      var before := steps[..|steps| - 1];
      RunKnows(cfg, clock, before);
      StepKnows(Run(Initial(cfg, clock), before), steps[|steps| - 1]);
    }
  }

  // --- A row that is not markable never gets both marks -------------------------------------

  /** No second mark is on its way from this client. */
  predicate Harmless(m: Row, id: Id, pc: Pc) {
    (m.deletedAt.None? ==> !Deleter(pc, id)) && (m.deletedAt.Some? && m.auditedAt.None? ==> id !in Listed(pc))
  }

  predicate RowShut(m: Row, clock: int) {
    !Both(m) && (m.deletedAt.None? ==> m.expiresAt <= clock)
  }

  predicate Shut(rows: Table, clock: int, pcs: map<Client, Pc>, id: Id) {
    id in rows ==> RowShut(rows[id], clock) && forall c :: c in pcs ==> Harmless(rows[id], id, pcs[c])
  }

  lemma ShutExactly(w: World, id: Id)
    requires id in w.rows
    ensures Shut(w.rows, w.clock, w.pcs, id) <==> !Both(w.rows[id]) && !Markable(w, id)
  {
  }

  /** The new row is deleted exactly when the old one is, and audited at least when it is. */
  predicate Onwards(m: Row, n: Row) {
    && n.expiresAt == m.expiresAt && (n.deletedAt.Some? <==> m.deletedAt.Some?)
    && (m.auditedAt.Some? ==> n.auditedAt.Some?) && (m.deletedAt.Some? && m.auditedAt.None? ==> n.auditedAt.None?)
  }

  lemma ShiftStaysShut(w: World, t: World, c: Client, next: Option<Pc>, id: Id)
    requires Shut(w.rows, w.clock, w.pcs, id) && w.clock <= t.clock && t.pcs == w.pcs
    requires id in t.rows ==> id in w.rows && Onwards(w.rows[id], t.rows[id])
    requires id in w.rows && next.Some? ==> Harmless(w.rows[id], id, next.value)
    ensures Shut(t.rows, t.clock, Moved(t.pcs, c, next), id)
  {
    if id in t.rows {
      forall d | d in Moved(t.pcs, c, next) ensures Harmless(t.rows[id], id, Moved(t.pcs, c, next)[d]) {
        if d == c && next.Some? {
        } else {
          assert Harmless(w.rows[id], id, w.pcs[d]);
        }
      }
    }
  }

  lemma MoveDeleter(w: World, pc: Pc, a: Action, id: Id)
    requires Fits(w, pc, a) && Move(w, pc, a).Some? && Deleter(Move(w, pc, a).value, id)
    ensures Deleter(pc, id) || (pc.DeleteTiming? && pc.id == id && w.clock < pc.m.expiresAt)
  {
    if ReadPc(pc) {
      ReadStaysRead(w, pc, a);
    } else if SweepPc(pc) {
      SweepStaysSweep(w, pc, a);
    }
  }

  lemma MoveListed(w: World, pc: Pc, a: Action, id: Id)
    requires Fits(w, pc, a) && Move(w, pc, a).Some? && id in Listed(Move(w, pc, a).value)
    ensures id in Listed(pc) || (pc.Listing? && id in w.rows && Pending(w.rows[id], pc.now))
  {
    if ReadPc(pc) {
      ReadStaysRead(w, pc, a);
    } else if SweepPc(pc) {
      if pc.Listing? {
        var listed := ListExpiredUnaudited(w.rows, pc.now, pc.cfg.batch);
        OnwardListed(pc.now, pc.cfg, listed, [], |listed| >= pc.cfg.batch, id);
        ListedPending(w.rows, pc.now, pc.cfg.batch);
        assert id in Elements(listed);
      } else {
        SweepMoveListed(w, pc, a, id);
      }
    }
  }

  lemma MoveHarmless(w: World, c: Client, a: Action, id: Id)
    requires Reads.Genuine(w) && AllKnow(w) && Shut(w.rows, w.clock, w.pcs, id)
    requires c in w.pcs && Fits(w, w.pcs[c], a) && id in w.rows
    ensures var next := Move(w, w.pcs[c], a); next.Some? ==> Harmless(w.rows[id], id, next.value)
  {
    var pc, next := w.pcs[c], Move(w, w.pcs[c], a);
    assert Knows(w.book, pc) && Harmless(w.rows[id], id, pc);
    if next.Some? && Deleter(next.value, id) {
      MoveDeleter(w, pc, a, id);
    }
    if next.Some? && id in Listed(next.value) {
      MoveListed(w, pc, a, id);
    }
  }

  lemma ExpiryStays(w: World, t: World, id: Id)
    requires Reads.RowsGenuine(w.book, w.rows) && Reads.RowsGenuine(t.book, t.rows) && Reads.Grows(w.book, t.book)
    requires id in w.rows && id in t.rows
    ensures t.rows[id].expiresAt == w.rows[id].expiresAt
  {
  }

  lemma ActOnwards(w: World, c: Client, a: Action, id: Id)
    requires Bodies.Inv(w) && Shut(w.rows, w.clock, w.pcs, id) && id in w.book.born
    requires c in w.pcs && Fits(w, w.pcs[c], a) && id in Effect(w, w.pcs[c], a).rows
    requires var t := Effect(w, w.pcs[c], a); Reads.RowsGenuine(w.book, w.rows) && Reads.RowsGenuine(t.book, t.rows)
    ensures id in w.rows && Onwards(w.rows[id], Effect(w, w.pcs[c], a).rows[id])
  {
    var t := Effect(w, w.pcs[c], a);
    assert id in w.rows && Reads.Grows(w.book, t.book) by {
      EffectKeeps(w, c, a);
    }
    ExpiryStays(w, t, id);
    ActMarks(w, c, a, id);
    assert Harmless(w.rows[id], id, w.pcs[c]);
  }

  lemma ActStaysShut(w: World, c: Client, a: Action, id: Id)
    requires Sound(w) && AllKnow(w) && id in w.book.born && Shut(w.rows, w.clock, w.pcs, id)
    requires c in w.pcs && Fits(w, w.pcs[c], a)
    requires Reads.Genuine(Shift(Effect(w, w.pcs[c], a), c, Move(w, w.pcs[c], a)))
    ensures var t := Shift(Effect(w, w.pcs[c], a), c, Move(w, w.pcs[c], a)); Shut(t.rows, t.clock, t.pcs, id)
  {
    var t, next := Effect(w, w.pcs[c], a), Move(w, w.pcs[c], a);
    EffectFrame(w, w.pcs[c], a);
    if id in t.rows {
      ActOnwards(w, c, a, id);
      MoveHarmless(w, c, a, id);
      ShiftStaysShut(w, t, c, next, id);
    }
  }

  lemma StartStaysShut(w: World, c: Client, a: Action, id: Id)
    requires Shut(w.rows, w.clock, w.pcs, id) && StartFits(w, a)
    ensures var t := Shift(StartEffect(w, a), c, Some(StartPc(w, a))); Shut(t.rows, t.clock, t.pcs, id)
  {
    StartFrame(w, a);
    ShiftStaysShut(w, StartEffect(w, a), c, Some(StartPc(w, a)), id);
  }

  lemma StepStaysShut(w: World, step: Step, id: Id)
    requires Sound(w) && AllKnow(w) && id in w.book.born && Shut(w.rows, w.clock, w.pcs, id)
    ensures var t := Next(w, step); Shut(t.rows, t.clock, t.pcs, id)
  {
    match step
    case Do(c, a) =>
      if c !in w.pcs {
        if StartFits(w, a) {
          StartStaysShut(w, c, a, id);
        }
      } else if Fits(w, w.pcs[c], a) {
        Reads.StepKeepsGenuine(w, step);
        ActStaysShut(w, c, a, id);
      }
    case _ =>
  }

  lemma {:induction false} RunStaysShut(w: World, steps: seq<Step>, id: Id)
    requires Sound(w) && AllKnow(w) && id in w.book.born && Shut(w.rows, w.clock, w.pcs, id)
    ensures var t := Run(w, steps); Sound(t) && AllKnow(t) && id in t.book.born && Shut(t.rows, t.clock, t.pcs, id)
  {
    if steps != [] {
      var t := Run(w, steps[..|steps| - 1]);
      RunStaysShut(w, steps[..|steps| - 1], id);
      StepStaysShut(t, steps[|steps| - 1], id);
      StepKeeps(t, steps[|steps| - 1]);
      StepKeepsSound(t, steps[|steps| - 1]);
      StepKnows(t, steps[|steps| - 1]);
    }
  }

  // --- A markable row can get both marks ---------------------------------------------------

  lemma {:induction false} SomeClientIsFree(pcs: map<Client, Pc>) returns (c: Client)
    ensures c !in pcs
  {
    c := 0;
    var below: set<Client> := {};
    while c in pcs
      invariant below <= pcs.Keys && forall d :: d in below <==> 0 <= d < c
      decreases pcs.Keys - below
    {
      below := below + {c};
      c := c + 1;
    }
  }

  /** Everyone but `c` is where they were. */
  ghost predicate OthersStay(w: World, t: World, c: Client) {
    forall d :: d != c ==> Place(t, d) == Place(w, d)
  }

  /** How many steps a pass has before its mark. */
  function Rest(pc: Pc): nat {
    if pc.Sweeping? then 2 * |pc.todo| else if pc.NotingExpired? && pc.todo != [] then 2 * |pc.todo| - 1 else 0
  }

  /** A pass goes on, without a failed call, to its mark. */
  lemma {:induction false} PassAudits(w: World, c: Client, id: Id) returns (t: World)
    requires c in w.pcs && id in Listed(w.pcs[c]) && Knows(w.book, w.pcs[c]) && id in w.rows
    ensures Leads(w, t) && OthersStay(w, t, c) && t.clock == w.clock
    ensures id in t.rows && t.rows[id].auditedAt.Some? && t.rows[id].deletedAt == w.rows[id].deletedAt
    decreases Rest(w.pcs[c])
  {
    var step := Do(c, if w.pcs[c].NotingExpired? then Note else Call(Lands, 0));
    var u := Next(w, step);
    LeadsRefl(w);
    LeadsStep(w, w, step);
    if w.pcs[c].MarkingAudited? {
      t := u;
    } else {
      PassGoesOn(w, c, id);
      t := PassAudits(u, c, id);
      LeadsTrans(w, u, t);
    }
  }

  lemma ShiftLeavesOthers(w: World, t: World, c: Client, next: Option<Pc>)
    requires t.pcs == w.pcs
    ensures OthersStay(w, Shift(t, c, next), c)
  {
  }

  lemma SweepingStep(w: World, c: Client, now: int, cfg: SweepConfig, todo: seq<Id>, ids: seq<Id>, retry: bool)
    requires c in w.pcs && w.pcs[c] == Sweeping(now, cfg, todo, ids, retry) && todo != []
    ensures Next(w, Do(c, Call(Lands, 0)))
         == Shift(w.(bodies := w.bodies - {todo[0]}), c, Some(NotingExpired(now, cfg, todo, ids, retry)))
  {
  }

  lemma NotingStep(w: World, c: Client, now: int, cfg: SweepConfig, todo: seq<Id>, ids: seq<Id>, retry: bool)
    requires c in w.pcs && w.pcs[c] == NotingExpired(now, cfg, todo, ids, retry) && todo != []
    ensures Next(w, Do(c, Note))
         == Shift(Record(w, PasteExpired(todo[0])), c, Onward(now, cfg, todo[1..], ids + [todo[0]], retry))
  {
  }

  lemma NotedListed(todo: seq<Id>, ids: seq<Id>, id: Id)
    requires todo != [] && id in todo + ids
    ensures id in todo[1..] + (ids + [todo[0]]) && ids + [todo[0]] != []
    ensures todo[1..] == [] ==> id in ids + [todo[0]]
  {
    assert todo == [todo[0]] + todo[1..];
  }

  /** The pass is one step nearer to its mark, which will still cover `id`. */
  ghost predicate Nearer(w: World, u: World, c: Client, id: Id)
    requires c in w.pcs
  {
    && c in u.pcs && id in Listed(u.pcs[c]) && Knows(u.book, u.pcs[c]) && OthersStay(w, u, c)
    && u.rows == w.rows && u.clock == w.clock && Rest(u.pcs[c]) < Rest(w.pcs[c])
  }

  lemma SweepingNearer(w: World, c: Client, now: int, cfg: SweepConfig, todo: seq<Id>, ids: seq<Id>, retry: bool,
                       id: Id)
    requires c in w.pcs && w.pcs[c] == Sweeping(now, cfg, todo, ids, retry) && todo != [] && id in todo + ids
    ensures Nearer(w, Shift(w.(bodies := w.bodies - {todo[0]}), c, Some(NotingExpired(now, cfg, todo, ids, retry))), c,
                   id)
  {
    ShiftLeavesOthers(w, w.(bodies := w.bodies - {todo[0]}), c, Some(NotingExpired(now, cfg, todo, ids, retry)));
  }

  lemma NotingNearer(w: World, c: Client, now: int, cfg: SweepConfig, todo: seq<Id>, ids: seq<Id>, retry: bool, id: Id)
    requires c in w.pcs && w.pcs[c] == NotingExpired(now, cfg, todo, ids, retry) && todo != [] && id in todo + ids
    ensures var next := Onward(now, cfg, todo[1..], ids + [todo[0]], retry);
            Nearer(w, Shift(Record(w, PasteExpired(todo[0])), c, next), c, id)
  {
    NotedListed(todo, ids, id);
    ShiftLeavesOthers(w, Record(w, PasteExpired(todo[0])), c, Onward(now, cfg, todo[1..], ids + [todo[0]], retry));
  }

  lemma PassGoesOn(w: World, c: Client, id: Id)
    requires c in w.pcs && id in Listed(w.pcs[c]) && Knows(w.book, w.pcs[c]) && !w.pcs[c].MarkingAudited?
    ensures Nearer(w, Next(w, Do(c, if w.pcs[c].NotingExpired? then Note else Call(Lands, 0))), c, id)
  {
    match w.pcs[c]
    case Sweeping(now, cfg, todo, ids, retry) =>
      SweepingStep(w, c, now, cfg, todo, ids, retry);
      SweepingNearer(w, c, now, cfg, todo, ids, retry, id);
    case NotingExpired(now, cfg, todo, ids, retry) =>
      NotingStep(w, c, now, cfg, todo, ids, retry);
      NotingNearer(w, c, now, cfg, todo, ids, retry, id);
  }

  lemma SweepBegins(w: World, c: Client, cfg: SweepConfig)
    requires c !in w.pcs
    ensures Next(w, Do(c, BeginSweep(cfg))) == Shift(w, c, Some(Listing(w.clock, cfg)))
  {
  }

  lemma ListingStep(w: World, c: Client, now: int, cfg: SweepConfig, listed: seq<Id>)
    requires c in w.pcs && w.pcs[c] == Listing(now, cfg) && listed != []
    requires listed == ListExpiredUnaudited(w.rows, now, cfg.batch)
    ensures Next(w, Do(c, Call(Lands, 0))) == Shift(w, c, Some(Sweeping(now, cfg, listed, [], |listed| >= cfg.batch)))
  {
  }

  lemma AllAreListed(rows: Table, now: int, id: Id)
    requires id in rows && Pending(rows[id], now)
    ensures var order := PendingOrder(rows, now); id in order && ListExpiredUnaudited(rows, now, |order|) == order
  {
    var order := PendingOrder(rows, now);
    OrderedContents(rows, PendingIds(rows, now));
    assert id in Elements(order);
    assert order[..|order|] == order;
  }

  lemma PassBegins(w: World, c: Client, cfg: SweepConfig, listed: seq<Id>)
    requires c !in w.pcs && listed != [] && listed == ListExpiredUnaudited(w.rows, w.clock, cfg.batch)
    ensures Leads(w, Shift(w, c, Some(Sweeping(w.clock, cfg, listed, [], |listed| >= cfg.batch))))
  {
    var u := Shift(w, c, Some(Listing(w.clock, cfg)));
    SweepBegins(w, c, cfg);
    ListingStep(u, c, w.clock, cfg, listed);
    RunTwo(w, Do(c, BeginSweep(cfg)), Do(c, Call(Lands, 0)), u);
    var t := Shift(w, c, Some(Sweeping(w.clock, cfg, listed, [], |listed| >= cfg.batch)));
    assert t.pcs == Shift(u, c, Some(Sweeping(w.clock, cfg, listed, [], |listed| >= cfg.batch))).pcs;
  }

  /** A pass begins and lists every pending row. */
  lemma PassLists(w: World, id: Id) returns (t: World, c: Client)
    requires id in w.rows && Pending(w.rows[id], w.clock)
    ensures Leads(w, t) && OthersStay(w, t, c) && c !in w.pcs && t.rows == w.rows
    ensures c in t.pcs && id in Listed(t.pcs[c]) && Knows(t.book, t.pcs[c])
  {
    c := SomeClientIsFree(w.pcs);
    var listed := PendingOrder(w.rows, w.clock);
    var cfg := SweepConfig(|listed|, 0, true);
    AllAreListed(w.rows, w.clock, id);
    PassBegins(w, c, cfg, listed);
    t := Shift(w, c, Some(Sweeping(w.clock, cfg, listed, [], true)));
  }

  /** A deletion goes on, without a failed call, to its mark. */
  lemma DeletionMarks(w: World, c: Client, id: Id) returns (t: World)
    requires c in w.pcs && Deleter(w.pcs[c], id) && id in w.rows
    ensures Leads(w, t) && id in t.rows && t.rows[id].deletedAt.Some? && t.rows[id].auditedAt == w.rows[id].auditedAt
  {
    LeadsRefl(w);
    var u := w;
    if w.pcs[c].DeletingBody? {
      u := Next(w, Do(c, Call(Lands, 0)));
      LeadsStep(w, w, Do(c, Call(Lands, 0)));
    }
    assert u.pcs[c].MarkingDeleted? && u.pcs[c].id == id && u.rows == w.rows;
    t := Next(u, Do(c, Call(Lands, 0)));
    LeadsStep(w, u, Do(c, Call(Lands, 0)));
  }

  /** A deletion of an unexpired row begins and passes its check. */
  lemma DeletionBegins(w: World, id: Id) returns (t: World, c: Client)
    requires id in w.rows && w.rows[id].deletedAt.None? && w.clock < w.rows[id].expiresAt
    ensures Leads(w, t) && t.rows == w.rows && c in t.pcs && Deleter(t.pcs[c], id)
  {
    c := SomeClientIsFree(w.pcs);
    var who := Principal(w.rows[id].owner, false);
    var u := Next(w, Do(c, BeginDelete(id, who, Lands)));
    assert u.pcs[c] == DeleteTiming(id, w.rows[id], who);
    t := Next(u, Do(c, Now));
    LeadsRefl(w);
    LeadsStep(w, w, Do(c, BeginDelete(id, who, Lands)));
    LeadsStep(w, u, Do(c, Now));
  }

  /** A pass audits the undeleted row behind the deletion's back, which then marks it. */
  lemma DeleterGivesBoth(w: World, c: Client, id: Id) returns (t: World)
    requires c in w.pcs && Deleter(w.pcs[c], id) && id in w.rows && w.rows[id].deletedAt.None?
    ensures Leads(w, t) && HasBoth(t, id)
  {
    var audited := w;
    LeadsRefl(w);
    if w.rows[id].auditedAt.None? {
      var wait := if w.rows[id].expiresAt <= w.clock then 0 else w.rows[id].expiresAt - w.clock;
      var late := Next(w, Tick(wait));
      LeadsStep(w, w, Tick(wait));
      var listed, d := PassLists(late, id);
      LeadsTrans(w, late, listed);
      audited := PassAudits(listed, d, id);
      LeadsTrans(w, listed, audited);
      assert Place(audited, c) == Place(listed, c) == Place(late, c) == Place(w, c);
    }
    t := DeletionMarks(audited, c, id);
    LeadsTrans(w, audited, t);
  }

  lemma MarkableGivesBoth(w: World, id: Id) returns (t: World)
    requires AllKnow(w) && id in w.rows && (Both(w.rows[id]) || Markable(w, id))
    ensures Leads(w, t) && HasBoth(t, id)
  {
    if Both(w.rows[id]) {
      LeadsRefl(w);
      t := w;
    } else if w.rows[id].deletedAt.Some? {
      var c :| c in w.pcs && id in Listed(w.pcs[c]);
      t := PassAudits(w, c, id);
    } else if Deleting(w.pcs, id) {
      var c :| c in w.pcs && Deleter(w.pcs[c], id);
      t := DeleterGivesBoth(w, c, id);
    } else {
      var u, c := DeletionBegins(w, id);
      t := DeleterGivesBoth(u, c, id);
      LeadsTrans(w, u, t);
    }
  }

  lemma NeverBothFrom(w: World, id: Id)
    requires Sound(w) && AllKnow(w) && id in w.rows && !Both(w.rows[id]) && !Markable(w, id)
    ensures !Doubles(w, id)
  {
    ShutExactly(w, id);
    forall t | Leads(w, t) ensures !HasBoth(t, id) {
      var later :| Run(w, later) == t;
      RunStaysShut(w, later, id);
    }
  }

  /** From a state that some run has reached, a row can come to be both deleted and
      expiry-audited exactly when it already is, or it is undeleted and either not yet expired
      or in the hands of a deletion past its check, or it is deleted and still on some pass's
      list. */
  lemma BothMarksExactly(cfg: Config, clock: int, steps: seq<Step>, id: Id)
    requires id in Run(Initial(cfg, clock), steps).rows
    ensures var w := Run(Initial(cfg, clock), steps);
            Doubles(w, id) <==> Both(w.rows[id]) || Markable(w, id)
  {
    var w := Run(Initial(cfg, clock), steps);
    RunKnows(cfg, clock, steps);
    if Both(w.rows[id]) || Markable(w, id) {
      var t := MarkableGivesBoth(w, id);
    } else {
      NeverBothFrom(w, id);
    }
  }
}
