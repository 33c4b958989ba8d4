/** How often a paste is reported unavailable: at most once per Redis lifetime, as long as
    marker writes land within an hour of the clock reading that sized them. */
module Unavailable {
  import opened Base
  import opened PasteTable
  import opened Lifecycle
  import Bodies
  import Reads

  function Reports(log: seq<Event>, id: Id, epoch: nat): nat {
    multiset(log)[PasteUnavailable(id, epoch)]
  }

  /** A client that won the marker and has its report still to record. */
  predicate Reporting(pcs: map<Client, Pc>, c: Client, id: Id, epoch: nat) {
    c in pcs && pcs[c] == NotingUnavailable(id, epoch)
  }

  /** One win yields one report: recorded, still to come, or lost with its client. */
  ghost predicate Once(log: seq<Event>, pcs: map<Client, Pc>, won: set<(Id, nat)>, id: Id, epoch: nat) {
    && Reports(log, id, epoch) <= 1
    && (forall c :: Reporting(pcs, c, id, epoch) ==> Reports(log, id, epoch) == 0 && (id, epoch) in won)
    && (forall c, d :: Reporting(pcs, c, id, epoch) && Reporting(pcs, d, id, epoch) ==> c == d)
    && ((id, epoch) !in won ==> Reports(log, id, epoch) == 0)
  }

  /** When the marker of a paste with this expiry may be gone again. */
  function Horizon(cfg: Config, expiry: int): int {
    expiry + HOUR - cfg.slack
  }

  /** A marker won in this lifetime stands until an hour past the expiry. */
  predicate Standing(cfg: Config, clock: int, markers: map<Id, int>, born: map<Id, int>, id: Id) {
    id in born && (Horizon(cfg, born[id]) <= clock || (id in markers && Horizon(cfg, born[id]) <= markers[id]))
  }

  predicate PcTimely(clock: int, pc: Pc) {
    pc.MarkingUnavailable? ==> pc.readAt <= clock && pc.readAt < pc.m.expiresAt
  }

  ghost predicate Epochs(won: set<(Id, nat)>, epoch: nat) {
    forall id, e :: (id, e) in won ==> e <= epoch
  }

  ghost predicate AllOnce(log: seq<Event>, pcs: map<Client, Pc>, won: set<(Id, nat)>) {
    forall id, e :: Once(log, pcs, won, id, e)
  }

  ghost predicate AllStanding(w: World) {
    forall id :: (id, w.epoch) in w.book.won ==> Standing(w.cfg, w.clock, w.markers, w.book.born, id)
  }

  predicate PcsTimely(clock: int, pcs: map<Client, Pc>) {
    forall c :: c in pcs ==> PcTimely(clock, pcs[c])
  }

  ghost predicate Inv(w: World) {
    && PcsTimely(w.clock, w.pcs) && Epochs(w.book.won, w.epoch)
    && (!w.book.late ==> AllOnce(w.log, w.pcs, w.book.won) && AllStanding(w))
  }

  // --- Steps that report nothing -----------------------------------------------------------

  predicate Unreported(log: seq<Event>, after: seq<Event>) {
    after == log || (|after| > 0 && after == log + [after[|after| - 1]] && !after[|after| - 1].PasteUnavailable?)
  }

  lemma UnreportedCounts(log: seq<Event>, after: seq<Event>, id: Id, e: nat)
    requires Unreported(log, after)
    ensures Reports(after, id, e) == Reports(log, id, e)
  {
  }

  /** The other clients' steps: no marker, no report, no birth undone. */
  lemma QuietKeepsInv(w: World, t: World, c: Client, next: Option<Pc>)
    requires Inv(w) && t.cfg == w.cfg && t.clock == w.clock && t.markers == w.markers && t.epoch == w.epoch
             && t.pcs == w.pcs
    requires t.book.won == w.book.won && t.book.late == w.book.late && Unreported(w.log, t.log)
    requires forall id :: id in w.book.born ==> id in t.book.born && t.book.born[id] == w.book.born[id]
    requires next.Some? ==> PcTimely(w.clock, next.value) && !next.value.NotingUnavailable?
    ensures Inv(Shift(t, c, next))
  {
    if !w.book.late {
      var u := Shift(t, c, next);
      forall id, e ensures Once(u.log, u.pcs, u.book.won, id, e) {
        assert Once(w.log, w.pcs, w.book.won, id, e);
        UnreportedCounts(w.log, t.log, id, e);
        assert forall d :: Reporting(u.pcs, d, id, e) ==> Reporting(w.pcs, d, id, e);
      }
    }
  }

  lemma CreateKeepsInv(w: World, c: Client, a: Action)
    requires Bodies.Inv(w) && Inv(w) && c in w.pcs && CreatePc(w.pcs[c]) && CreateFits(w, w.pcs[c], a)
    ensures Inv(Shift(CreateEffect(w, w.pcs[c], a), c, CreateMove(w, w.pcs[c], a)))
  {
    var pc := w.pcs[c];
    assert Bodies.PcInv(w.bodies, w.book.born, w.book.issued, pc);
    CreateFrame(w, pc, a);
    CreateIsQuiet(w, pc, a);
    QuietKeepsInv(w, CreateEffect(w, pc, a), c, CreateMove(w, pc, a));
  }

  lemma CreateIsQuiet(w: World, pc: Pc, a: Action)
    requires CreatePc(pc) && CreateFits(w, pc, a) && (pc.Inserting? ==> pc.id !in w.book.born)
    ensures var t := CreateEffect(w, pc, a);
            && Unreported(w.log, t.log)
            && forall id :: id in w.book.born ==> id in t.book.born && t.book.born[id] == w.book.born[id]
    ensures var next := CreateMove(w, pc, a); next.Some? ==> CreatePc(next.value)
  {
  }

  lemma DeleteKeepsInv(w: World, c: Client, a: Action)
    requires Inv(w) && c in w.pcs && DeletePc(w.pcs[c]) && DeleteFits(w.pcs[c], a)
    ensures Inv(Shift(DeleteEffect(w, w.pcs[c], a), c, DeleteMove(w, w.pcs[c], a)))
  {
    DeleteFrame(w, w.pcs[c], a);
    QuietKeepsInv(w, DeleteEffect(w, w.pcs[c], a), c, DeleteMove(w, w.pcs[c], a));
  }

  lemma SweepIsQuiet(w: World, pc: Pc, a: Action)
    requires SweepPc(pc) && SweepFits(pc, a)
    ensures Unreported(w.log, SweepEffect(w, pc, a).log)
  {
    if pc.Purging? {
      KeepRowsIsQuiet(w, PurgeRows(w.rows, pc.now, pc.cfg), a.fate.Lands?);
    }
  }

  lemma KeepRowsIsQuiet(w: World, rows: Table, replied: bool)
    ensures Unreported(w.log, KeepRows(w, rows, replied).log)
  {
  }

  lemma SweepKeepsInv(w: World, c: Client, a: Action)
    requires Inv(w) && c in w.pcs && SweepPc(w.pcs[c]) && SweepFits(w.pcs[c], a)
    ensures Inv(Shift(SweepEffect(w, w.pcs[c], a), c, SweepMove(w, w.pcs[c], a)))
  {
    SweepFrame(w, w.pcs[c], a);
    SweepStaysSweep(w, w.pcs[c], a);
    SweepIsQuiet(w, w.pcs[c], a);
    QuietKeepsInv(w, SweepEffect(w, w.pcs[c], a), c, SweepMove(w, w.pcs[c], a));
  }

  // --- Read --------------------------------------------------------------------------------

  /** A second win in one Redis lifetime comes after the first marker's horizon, and so more
      than an hour after the reading that found the paste unexpired. */
  lemma SecondWinIsLate(w: World, pc: Pc, slip: nat)
    requires Inv(w) && !w.book.late && pc.MarkingUnavailable? && PcTimely(w.clock, pc) && Reads.PcGenuine(w.book, pc)
    requires pc.id !in w.markers && (pc.id, w.epoch) in w.book.won
    ensures WinMarker(w, pc, slip).book.late
  {
    assert Standing(w.cfg, w.clock, w.markers, w.book.born, pc.id);
  }

  lemma WinKeepsInv(w: World, c: Client, slip: nat, next: Option<Pc>)
    requires Inv(w) && c in w.pcs && w.pcs[c].MarkingUnavailable? && w.pcs[c].id !in w.markers && slip <= w.cfg.slack
    requires Reads.PcGenuine(w.book, w.pcs[c])
    requires next == None || next == Some(NotingUnavailable(w.pcs[c].id, w.epoch))
    ensures Inv(Shift(WinMarker(w, w.pcs[c], slip), c, next))
  {
    var pc, t := w.pcs[c], WinMarker(w, w.pcs[c], slip);
    var u := Shift(t, c, next);
    assert PcTimely(w.clock, pc);
    if !t.book.late {
      if (pc.id, w.epoch) in w.book.won {
        SecondWinIsLate(w, pc, slip);
      }
      forall id, e ensures Once(u.log, u.pcs, u.book.won, id, e) {
        WinIsOnce(w, c, slip, next, id, e);
      }
      forall id | (id, u.epoch) in u.book.won ensures Standing(u.cfg, u.clock, u.markers, u.book.born, id) {
        if id != pc.id {
          assert Standing(w.cfg, w.clock, w.markers, w.book.born, id);
        }
      }
    }
  }

  lemma WinIsOnce(w: World, c: Client, slip: nat, next: Option<Pc>, id: Id, e: nat)
    requires c in w.pcs && w.pcs[c].MarkingUnavailable? && (w.pcs[c].id, w.epoch) !in w.book.won
    requires next == None || next == Some(NotingUnavailable(w.pcs[c].id, w.epoch))
    requires AllOnce(w.log, w.pcs, w.book.won)
    ensures var u := Shift(WinMarker(w, w.pcs[c], slip), c, next); Once(u.log, u.pcs, u.book.won, id, e)
  {
    var pc, u := w.pcs[c], Shift(WinMarker(w, w.pcs[c], slip), c, next);
    assert Once(w.log, w.pcs, w.book.won, id, e) && Once(w.log, w.pcs, w.book.won, pc.id, w.epoch);
    assert forall d :: Reporting(u.pcs, d, id, e) ==>
             Reporting(w.pcs, d, id, e) || (d == c && id == pc.id && e == w.epoch);
    assert forall d :: !Reporting(w.pcs, d, pc.id, w.epoch);
  }

  lemma ReportKeepsInv(w: World, c: Client)
    requires Inv(w) && c in w.pcs && w.pcs[c].NotingUnavailable?
    ensures Inv(Shift(Lifecycle.Record(w, PasteUnavailable(w.pcs[c].id, w.pcs[c].epoch)), c, None))
  {
    var pc := w.pcs[c];
    var u := Shift(Lifecycle.Record(w, PasteUnavailable(pc.id, pc.epoch)), c, None);
    if !w.book.late {
      assert Reporting(w.pcs, c, pc.id, pc.epoch);
      forall id, e ensures Once(u.log, u.pcs, u.book.won, id, e) {
        assert Once(w.log, w.pcs, w.book.won, id, e);
        assert forall d :: Reporting(u.pcs, d, id, e) ==> Reporting(w.pcs, d, id, e) && d != c;
      }
    }
  }

  lemma ReadIsQuiet(w: World, pc: Pc, a: Action)
    requires ReadPc(pc) && ReadFits(w, pc, a)
    requires !pc.NotingUnavailable? && (pc.MarkingUnavailable? ==> a.fate.Fails? || pc.id in w.markers)
    ensures var t := ReadEffect(w, pc, a);
            t.markers == w.markers && t.book.won == w.book.won && t.book.late == w.book.late && Unreported(w.log, t.log)
  {
  }

  lemma ReadMovesTimely(w: World, pc: Pc, a: Action)
    requires ReadPc(pc) && ReadFits(w, pc, a) && PcTimely(w.clock, pc)
    requires !pc.NotingUnavailable? && (pc.MarkingUnavailable? ==> a.fate.Fails? || pc.id in w.markers)
    ensures var next := ReadMove(w, pc, a); next.Some? ==>
              PcTimely(w.clock, next.value) && !next.value.NotingUnavailable?
  {
  }

  lemma ReadKeepsInv(w: World, c: Client, a: Action)
    requires Reads.Genuine(w) && Inv(w) && c in w.pcs && ReadPc(w.pcs[c]) && ReadFits(w, w.pcs[c], a)
    ensures Inv(Shift(ReadEffect(w, w.pcs[c], a), c, ReadMove(w, w.pcs[c], a)))
  {
    var pc := w.pcs[c];
    assert PcTimely(w.clock, pc) && Reads.PcGenuine(w.book, pc);
    if pc.NotingUnavailable? {
      ReportKeepsInv(w, c);
    } else if pc.MarkingUnavailable? && !a.fate.Fails? && pc.id !in w.markers {
      WinKeepsInv(w, c, a.slip, ReadMove(w, pc, a));
    } else {
      ReadFrame(w, pc, a);
      ReadIsQuiet(w, pc, a);
      ReadMovesTimely(w, pc, a);
      QuietKeepsInv(w, ReadEffect(w, pc, a), c, ReadMove(w, pc, a));
    }
  }

  // --- Every run ---------------------------------------------------------------------------

  lemma StartKeepsInv(w: World, c: Client, a: Action)
    requires Inv(w) && StartFits(w, a)
    ensures Inv(Shift(StartEffect(w, a), c, Some(StartPc(w, a))))
  {
    StartFrame(w, a);
    QuietKeepsInv(w, StartEffect(w, a), c, Some(StartPc(w, a)));
  }

  lemma CrashKeepsInv(w: World, c: Client)
    requires Bodies.Inv(w) && Reads.Genuine(w) && Inv(w) && c in w.pcs
    ensures Inv(Shift(Effect(w, w.pcs[c], Crash), c, None))
  {
    QuietKeepsInv(w, Effect(w, w.pcs[c], Crash), c, None);
  }

  lemma ActKeepsInv(w: World, c: Client, a: Action)
    requires Bodies.Inv(w) && Reads.Genuine(w) && Inv(w) && c in w.pcs && Fits(w, w.pcs[c], a)
    ensures Inv(Shift(Effect(w, w.pcs[c], a), c, Move(w, w.pcs[c], a)))
  {
    var pc := w.pcs[c];
    if a.Crash? {
      CrashKeepsInv(w, c);
    } else if CreatePc(pc) {
      CreateKeepsInv(w, c, a);
    } else if DeletePc(pc) {
      DeleteKeepsInv(w, c, a);
    } else if SweepPc(pc) {
      SweepKeepsInv(w, c, a);
    } else {
      ReadKeepsInv(w, c, a);
    }
  }

  /** Time passes: a marker goes only after its deadline, which is past the horizon. */
  lemma WorldKeepsInv(w: World, step: Step)
    requires Inv(w) && !step.Do?
    ensures Inv(Next(w, step))
  {
    var t := Next(w, step);
    if !w.book.late {
      forall id | (id, t.epoch) in t.book.won ensures Standing(t.cfg, t.clock, t.markers, t.book.born, id) {
        assert Standing(w.cfg, w.clock, w.markers, w.book.born, id);
      }
    }
  }

  lemma StepKeepsInv(w: World, step: Step)
    requires Bodies.Inv(w) && Reads.Genuine(w) && Inv(w)
    ensures Inv(Next(w, step))
  {
    if !step.Do? {
      WorldKeepsInv(w, step);
    } else if step.client !in w.pcs {
      if StartFits(w, step.action) {
        StartKeepsInv(w, step.client, step.action);
      }
    } else if Fits(w, w.pcs[step.client], step.action) {
      ActKeepsInv(w, step.client, step.action);
    }
  }

  lemma {:induction false} RunKeepsInv(cfg: Config, clock: int, steps: seq<Step>)
    ensures Inv(Run(Initial(cfg, clock), steps))
  {
    if steps == [] {
      assert forall id, e :: Once([], map[], {}, id, e);
    } else {
      var before := steps[..|steps| - 1];
      RunKeepsInv(cfg, clock, before);
      Bodies.RunKeepsInv(cfg, clock, before);
      Reads.RunKeepsGenuine(cfg, clock, before);
      StepKeepsInv(Run(Initial(cfg, clock), before), steps[|steps| - 1]);
    }
  }

  /** Over any run in which every marker write lands within an hour (less the slack of Redis
      expiries) of the reading that sized it, a paste is reported unavailable at most once in
      each Redis lifetime. */
  lemma ReportedAtMostOnce(cfg: Config, clock: int, steps: seq<Step>, id: Id, epoch: nat)
    requires !Run(Initial(cfg, clock), steps).book.late
    ensures Reports(Run(Initial(cfg, clock), steps).log, id, epoch) <= 1
  {
    RunKeepsInv(cfg, clock, steps);
    var w := Run(Initial(cfg, clock), steps);
    assert Once(w.log, w.pcs, w.book.won, id, epoch);
  }

  /** The client's marker write lands and its report is recorded. */
  function Reported(w: World, c: Client): World
    requires c in w.pcs && w.pcs[c].MarkingUnavailable?
  {
    Shift(Lifecycle.Record(WinMarker(w, w.pcs[c], 0), PasteUnavailable(w.pcs[c].id, w.epoch)), c, None)
  }

  lemma WriteAndReport(w: World, c: Client)
    requires c in w.pcs && w.pcs[c].MarkingUnavailable? && w.pcs[c].id !in w.markers
    ensures Next(Next(w, Do(c, Call(Lands, 0))), Do(c, Note)) == Reported(w, c)
  {
    var pc := w.pcs[c];
    var t := Shift(WinMarker(w, pc, 0), c, Some(NotingUnavailable(pc.id, w.epoch)));
    WriteLands(w, c);
    ReportLands(t, c, pc.id, w.epoch);
    assert t.pcs - {c} == w.pcs - {c};
  }

  lemma WriteLands(w: World, c: Client)
    requires c in w.pcs && w.pcs[c].MarkingUnavailable? && w.pcs[c].id !in w.markers
    ensures Next(w, Do(c, Call(Lands, 0)))
            == Shift(WinMarker(w, w.pcs[c], 0), c, Some(NotingUnavailable(w.pcs[c].id, w.epoch)))
  {
  }

  lemma ReportLands(w: World, c: Client, id: Id, epoch: nat)
    requires c in w.pcs && w.pcs[c] == NotingUnavailable(id, epoch)
    ensures Next(w, Do(c, Note)) == Shift(Lifecycle.Record(w, PasteUnavailable(id, epoch)), c, None)
  {
  }

  /** Long enough later the marker is gone. */
  lemma MarkerGoes(w: World, id: Id, wait: nat)
    requires id in w.markers && w.markers[id] <= w.clock + wait
    ensures Next(Next(w, Tick(wait)), MarkerExpires(id)) == w.(clock := w.clock + wait, markers := w.markers - {id})
  {
  }

  /** The hour is needed: two readers that both found the body missing can report it twice in
      one Redis lifetime, if the second write is delayed past the first marker's life. */
  lemma DelayedWriteReportsTwice(w: World, c: Client, d: Client, wait: nat)
    requires c != d && c in w.pcs && d in w.pcs && w.pcs[c].MarkingUnavailable? && w.pcs[d].MarkingUnavailable?
    requires w.pcs[c].id == w.pcs[d].id && w.pcs[c].id !in w.markers
    requires w.pcs[c].m.expiresAt - w.pcs[c].readAt + HOUR <= wait
    ensures Reports(Run(w, DelayedWrite(c, d, w.pcs[c].id, wait)).log, w.pcs[c].id, w.epoch)
         == Reports(w.log, w.pcs[c].id, w.epoch) + 2
  {
    var id := w.pcs[c].id;
    var w1 := Reported(w, c);
    var w2 := w1.(clock := w1.clock + wait, markers := w1.markers - {id});
    WriteRuns(w, c);
    MarkerGoes(w1, id, wait);
    RunTwo(w1, Tick(wait), MarkerExpires(id), Next(w1, Tick(wait)));
    WriteRuns(w2, d);
    RunConcat(w, WriteSteps(c), [Tick(wait), MarkerExpires(id)]);
    RunConcat(w, WriteSteps(c) + [Tick(wait), MarkerExpires(id)], WriteSteps(d));
    ReportedCounts(w, c);
    ReportedCounts(w2, d);
  }

  function WriteSteps(c: Client): seq<Step> {
    [Do(c, Call(Lands, 0)), Do(c, Note)]
  }

  /** One client writes and reports, the marker's life passes, and the other does the same. */
  function DelayedWrite(c: Client, d: Client, id: Id, wait: nat): seq<Step> {
    WriteSteps(c) + [Tick(wait), MarkerExpires(id)] + WriteSteps(d)
  }

  lemma WriteRuns(w: World, c: Client)
    requires c in w.pcs && w.pcs[c].MarkingUnavailable? && w.pcs[c].id !in w.markers
    ensures Run(w, WriteSteps(c)) == Reported(w, c)
  {
    WriteAndReport(w, c);
    RunTwo(w, Do(c, Call(Lands, 0)), Do(c, Note), Next(w, Do(c, Call(Lands, 0))));
  }

  lemma ReportedCounts(w: World, c: Client)
    requires c in w.pcs && w.pcs[c].MarkingUnavailable?
    ensures Reports(Reported(w, c).log, w.pcs[c].id, w.epoch) == Reports(w.log, w.pcs[c].id, w.epoch) + 1
  {
  }
}
