/** The life of pastes as a protocol: any number of clients interleave the store calls, clock
    readings and audit records of Create, Read, Delete and sweeper passes
    (internal/paste/service.go, internal/sweeper/sweeper.go, internal/store/redis/body.go). */
module Lifecycle {
  import opened Base
  import opened Canonical
  import opened Envelope
  import opened PasteTable
  import opened SweepPass
  import Utf8

  type Client = nat

  datatype Limits = Limits(maxSize: int, ttlDefault: int, ttlMin: int, ttlMax: int)

  /** `grain` is the precision of the table's timestamps; `slack` bounds how much earlier than
      asked Redis may expire a key, because it counts in whole milliseconds. */
  datatype Config = Config(limits: Limits, grain: Grain, slack: nat)

  datatype Principal = Principal(user: Id, isAdmin: bool)

  // --- The body store ----------------------------------------------------------------------

  /** A key paste:{id}; None would be a key without expiry. */
  datatype Body = Body(rec: EncryptedBody, deadline: Option<int>)

  /** expiringTTL: positive durations below a millisecond are rounded up to one. */
  function ExpiringTtl(ttl: int): Option<int> {
    if ttl <= 0 then None else if ttl < MILLISECOND then Some(MILLISECOND) else Some(ttl)
  }

  /** SET with an expiration; the client library writes a persistent key for zero. */
  function DeadlineFor(clock: int, expiration: int, slip: nat): Option<int> {
    if expiration == 0 then None else Some(clock + expiration - slip)
  }

  /** What a GET of a body came back with. */
  datatype Fetch = Found(rec: EncryptedBody) | Missing | FetchFailed

  // --- Events and clients ------------------------------------------------------------------

  /** Audit events; `Unavailable` also says in which Redis lifetime its marker was won. */
  datatype Event =
    | PasteCreated(id: Id) | PasteViewed(id: Id) | UnlockSuccess(id: Id) | UnlockFailure(id: Id)
    | PasteDeleted(id: Id) | PasteExpired(id: Id) | PasteUnavailable(id: Id, epoch: nat) | MetadataPurged(count: nat)

  /** Where a client is between two atomic actions, with the locals it still needs. */
  datatype Pc =
    // Create
    | Sealing(id: Id, m: Row, canonical: Bytes)
    | Timing(id: Id, m: Row, rec: EncryptedBody)
    | Putting(id: Id, m: Row, rec: EncryptedBody, remaining: int)
    | Inserting(id: Id, m: Row)
    | RollingBack(id: Id)
    | NotingCreate(id: Id)
    // Delete
    | DeleteTiming(id: Id, m: Row, who: Principal)
    | DeletingBody(id: Id, who: Principal, at: int)
    | MarkingDeleted(id: Id, who: Principal, at: int)
    | NotingDelete(id: Id)
    // Read
    | ReadTiming(id: Id, m: Row, password: Bytes)
    | Fetching(id: Id, m: Row, password: Bytes)
    | Fetched(id: Id, m: Row, password: Bytes, reply: Fetch)
    | MarkingUnavailable(id: Id, m: Row, readAt: int)
    | NotingUnavailable(id: Id, epoch: nat)
    | Opening(id: Id, m: Row, rec: EncryptedBody, password: Bytes)
    | NotingFailure(id: Id)
    | Opened(id: Id, m: Row, plain: Bytes)
    | Counting(id: Id, m: Row, plain: Bytes)
    | Counted(id: Id, m: Row, plain: Bytes)
    | NotingView(id: Id, m: Row, plain: Bytes)
    | Viewed(id: Id, m: Row, plain: Bytes)
    // Sweep
    | Listing(now: int, cfg: SweepConfig)
    | Sweeping(now: int, cfg: SweepConfig, todo: seq<Id>, ids: seq<Id>, retry: bool)
    | NotingExpired(now: int, cfg: SweepConfig, todo: seq<Id>, ids: seq<Id>, retry: bool)
    | MarkingAudited(now: int, cfg: SweepConfig, ids: seq<Id>, retry: bool)
    | Purging(now: int, cfg: SweepConfig)

  datatype Action =
    | BeginCreate(owner: Id, content: Bytes, password: Bytes, ttlSeconds: int, id: Id)
    | BeginRead(id: Id, password: Bytes, fate: Fate)
    | BeginDelete(id: Id, who: Principal, fate: Fate)
    | BeginSweep(cfg: SweepConfig)
    | Seal(sealed: Option<EncryptedBody>)
    | Open(wrapKey: Bytes, refused: Option<EnvelopeError>)
    | Now
    | Call(fate: Fate, slip: nat)
    | Plant(rec: EncryptedBody)
    | Note
    | Crash

  datatype Step =
    | Tick(elapsed: nat)
    | BodyExpires(id: Id)
    | MarkerExpires(id: Id)
    | RedisRestart
    | Do(client: Client, action: Action)

  /** Content handed to a caller of Read: the row it was read under and the last clock reading. */
  datatype Served = Served(id: Id, m: Row, content: Bytes, at: int)

  /** History.  `issued` are the ids ever drawn, `made` the canonical bytes each Create fixed,
      `born` the stored expiry of every row that ever existed, `ciphers` all body ciphertexts,
      `lost` how many passes recorded a row's expiry without its mark taking effect, `won` the
      unavailability markers won per Redis lifetime, and `late` whether some marker write
      landed an hour (less the slack) or more after the clock reading that sized it. */
  datatype Book = Book(
    issued: set<Id>, made: map<Id, Bytes>, born: map<Id, int>, ciphers: set<Cipher>, served: seq<Served>,
    lost: map<Id, nat>, won: set<(Id, nat)>, late: bool)

  datatype World = World(
    cfg: Config, clock: int, rows: Table, bodies: map<Id, Body>, markers: map<Id, int>, epoch: nat,
    log: seq<Event>, pcs: map<Client, Pc>, book: Book)

  function Moved(pcs: map<Client, Pc>, c: Client, pc: Option<Pc>): map<Client, Pc> {
    match pc
    case Some(p) => pcs[c := p]
    case None => pcs - {c}
  }

  /** The client goes on at `pc`, or is done. */
  function Shift(w: World, c: Client, pc: Option<Pc>): World {
    w.(pcs := Moved(w.pcs, c, pc))
  }

  function Record(w: World, e: Event): World {
    w.(log := w.log + [e])
  }

  function DropBody(w: World, id: Id, fate: Fate): World {
    if fate.Fails? then w else w.(bodies := w.bodies - {id})
  }

  function Lost(b: Book, id: Id): nat {
    if id in b.lost then b.lost[id] else 0
  }

  /** The pass that recorded these expiries ended without marking them. */
  function LosePass(b: Book, ids: seq<Id>): Book {
    b.(lost := map id | id in b.lost.Keys + Elements(ids) :: Lost(b, id) + if id in ids then 1 else 0)
  }

  // --- Create ------------------------------------------------------------------------------

  function ChosenTtl(limits: Limits, ttlSeconds: int): int {
    if ttlSeconds == 0 then limits.ttlDefault else ttlSeconds
  }

  predicate ValidPassword(password: Bytes) {
    Utf8.Valid(password) && (password == [] || Utf8.RuneCount(password) <= 128)
  }

  datatype CreateError = InvalidTtl | InvalidPassword | BadContent(error: CanonicalError)

  /** The checks before anything is stored: the lifetime in seconds and the canonical bytes. */
  function CheckInput(limits: Limits, content: Bytes, password: Bytes, ttlSeconds: int): Result<Bytes, CreateError> {
    var ttl := ChosenTtl(limits, ttlSeconds);
    if ttl < limits.ttlMin || ttl > limits.ttlMax then Err(InvalidTtl)
    else if !ValidPassword(password) then Err(InvalidPassword)
    else
      match Canonicalize(content, limits.maxSize)
      case Ok(canonical) => Ok(canonical)
      case Err(e) => Err(BadContent(e))
  }

  function NewRow(owner: Id, now: int, ttl: int, canonical: Bytes, isProtected: bool): Row {
    Row(owner, now, now + ttl * SECOND, ttl, |canonical|, HashHex(canonical), isProtected, "", 0, None, None, None)
  }

  /** A record Seal can return for this id, expiry and plaintext. */
  predicate SealsFor(rec: EncryptedBody, id: Id, expiresAt: int, plain: Bytes) {
    rec.ciphertext.Sealed? && rec.ciphertext.aad == BodyAadOf(id, expiresAt) && rec.ciphertext.plain == plain
  }

  predicate CreatePc(pc: Pc) {
    pc.Sealing? || pc.Timing? || pc.Putting? || pc.Inserting? || pc.RollingBack? || pc.NotingCreate?
  }

  /** Whether `a` is what a Create at `pc` does next. */
  predicate CreateFits(w: World, pc: Pc, a: Action) {
    match pc
    case Sealing(id, m, canonical) => a.Seal?
      && (a.sealed.Some? ==> SealsFor(a.sealed.value, id, m.expiresAt, canonical))
    case Timing(_, _, _) => a.Now?
    case Putting(_, _, _, _) => a.Call? && a.slip <= w.cfg.slack
    case NotingCreate(_) => a.Note?
    case _ => a.Call?
  }

  /** What it does to the stores. */
  function CreateEffect(w: World, pc: Pc, a: Action): World
    requires CreatePc(pc) && CreateFits(w, pc, a)
  {
    match pc
    case Sealing(_, _, _) =>
      if a.sealed.None? then w else w.(book := w.book.(ciphers := w.book.ciphers + {a.sealed.value.ciphertext}))
    case Putting(id, _, rec, remaining) =>
      var ttl := ExpiringTtl(remaining);
      if a.fate.Fails? || ttl.None? then w
      else w.(bodies := w.bodies[id := Body(rec, DeadlineFor(w.clock, ttl.value, a.slip))])
    case Inserting(id, m) =>
      if a.fate.Fails? || !Insertable(w.rows, id, m) then w
      else
        var row := Stored(w.cfg.grain, m);
        w.(rows := w.rows[id := row], book := w.book.(born := w.book.born[id := row.expiresAt]))
    case RollingBack(id) => DropBody(w, id, a.fate)
    case NotingCreate(id) => Record(w, PasteCreated(id))
    case _ => w
  }

  /** Where it goes from there. */
  function CreateMove(w: World, pc: Pc, a: Action): Option<Pc>
    requires CreatePc(pc) && CreateFits(w, pc, a)
  {
    match pc
    case Sealing(id, m, _) =>
      if a.sealed.None? then None
      else Some(Timing(id, if m.isProtected then m else m.(kekId := a.sealed.value.kekId), a.sealed.value))
    case Timing(id, m, rec) =>
      if m.expiresAt - w.clock <= 0 then None else Some(Putting(id, m, rec, m.expiresAt - w.clock))
    case Putting(id, m, _, remaining) =>
      if a.fate.Lands? && ExpiringTtl(remaining).Some? then Some(Inserting(id, m)) else None
    case Inserting(id, m) =>
      if a.fate.Lands? && Insertable(w.rows, id, m) then Some(NotingCreate(id)) else Some(RollingBack(id))
    case _ => None
  }

  // --- Delete ------------------------------------------------------------------------------

  predicate DeletePc(pc: Pc) {
    pc.DeleteTiming? || pc.DeletingBody? || pc.MarkingDeleted? || pc.NotingDelete?
  }

  predicate DeleteFits(pc: Pc, a: Action) {
    if pc.DeleteTiming? then a.Now? else if pc.NotingDelete? then a.Note? else a.Call?
  }

  function DeleteEffect(w: World, pc: Pc, a: Action): World
    requires DeletePc(pc) && DeleteFits(pc, a)
  {
    match pc
    case DeletingBody(id, _, _) => DropBody(w, id, a.fate)
    case MarkingDeleted(id, who, at) => if a.fate.Fails? then w else w.(rows := MarkDeleted(w.rows, id, who.user, at))
    case NotingDelete(id) => Record(w, PasteDeleted(id))
    case _ => w
  }

  function DeleteMove(w: World, pc: Pc, a: Action): Option<Pc>
    requires DeletePc(pc) && DeleteFits(pc, a)
  {
    match pc
    case DeleteTiming(id, m, who) =>
      if m.deletedAt.Some? || m.expiresAt <= w.clock then None else Some(DeletingBody(id, who, w.clock))
    case DeletingBody(id, who, at) => if a.fate.Lands? then Some(MarkingDeleted(id, who, at)) else None
    case MarkingDeleted(id, _, _) => if a.fate.Lands? then Some(NotingDelete(id)) else None
    case _ => None
  }

  // --- Read --------------------------------------------------------------------------------

  predicate ReadPc(pc: Pc) {
    || pc.ReadTiming? || pc.Fetching? || pc.Fetched? || pc.MarkingUnavailable? || pc.NotingUnavailable? || pc.Opening?
    || pc.NotingFailure? || pc.Opened? || pc.Counting? || pc.Counted? || pc.NotingView? || pc.Viewed?
  }

  /** A record the body store may hand back in place of the right one: any recombination of
      records sealed for any paste, or bytes that are no ciphertext at all. */
  predicate Plantable(b: Book, rec: EncryptedBody) {
    rec.ciphertext.Sealed? && rec.ciphertext.aad.BodyAad? ==> rec.ciphertext in b.ciphers
  }

  predicate ReadFits(w: World, pc: Pc, a: Action) {
    match pc
    case Fetching(_, _, _) => a.Call? || (a.Plant? && Plantable(w.book, a.rec))
    case MarkingUnavailable(_, _, _) => a.Call? && a.slip <= w.cfg.slack
    case Counting(_, _, _) => a.Call?
    case Opening(_, _, _, _) => a.Open?
    case NotingUnavailable(_, _) => a.Note?
    case NotingFailure(_) => a.Note?
    case NotingView(_, _, _) => a.Note?
    case _ => a.Now?
  }

  /** SETNX of the marker: the first caller of a Redis lifetime wins it. */
  function WinMarker(w: World, pc: Pc, slip: nat): World
    requires pc.MarkingUnavailable?
  {
    w.(markers := w.markers[pc.id := w.clock + (pc.m.expiresAt - pc.readAt + HOUR) - slip],
       book := w.book.(won := w.book.won + {(pc.id, w.epoch)},
                       late := w.book.late || pc.readAt + HOUR - w.cfg.slack <= w.clock))
  }

  function ReadEffect(w: World, pc: Pc, a: Action): World
    requires ReadPc(pc) && ReadFits(w, pc, a)
  {
    match pc
    case MarkingUnavailable(id, _, _) => if a.fate.Fails? || id in w.markers then w else WinMarker(w, pc, a.slip)
    case NotingUnavailable(id, epoch) => Record(w, PasteUnavailable(id, epoch))
    case NotingFailure(id) => Record(w, UnlockFailure(id))
    case Counting(id, _, _) => if a.fate.Fails? then w else w.(rows := IncrementViews(w.rows, id))
    case NotingView(id, m, _) => Record(w, if m.isProtected then UnlockSuccess(id) else PasteViewed(id))
    case Viewed(id, m, plain) =>
      if m.expiresAt <= w.clock then w
      else w.(book := w.book.(served := w.book.served + [Served(id, m, plain, w.clock)]))
    case _ => w
  }

  function OpenRecord(pc: Pc, wrapKey: Bytes, refused: Option<EnvelopeError>): Option<Pc>
    requires pc.Opening?
  {
    var r := if refused.Some? then Err(refused.value) else OpenWith(wrapKey, pc.id, pc.m.expiresAt, pc.rec);
    if r.Ok? then Some(Opened(pc.id, pc.m, r.value))
    else if r.error.WrongPassword? then Some(NotingFailure(pc.id))
    else None
  }

  /** What the store's answer to a GET is, when it is honest. */
  function FetchOf(w: World, id: Id, fate: Fate): Fetch {
    if !fate.Lands? then FetchFailed else if id in w.bodies then Found(w.bodies[id].rec) else Missing
  }

  function ReadMove(w: World, pc: Pc, a: Action): Option<Pc>
    requires ReadPc(pc) && ReadFits(w, pc, a)
  {
    match pc
    case ReadTiming(id, m, password) => if StatusOf(m, w.clock) != Active then None else Some(Fetching(id, m, password))
    case Fetching(id, m, password) => Some(Fetched(id, m, password,
                                                   if a.Plant? then Found(a.rec) else FetchOf(w, id, a.fate)))
    case Fetched(id, m, password, reply) =>
      if m.expiresAt <= w.clock then None
      else if reply.Missing? then Some(MarkingUnavailable(id, m, w.clock))
      else if reply.FetchFailed? || (m.isProtected && password == []) then None
      else Some(Opening(id, m, reply.rec, password))
    case MarkingUnavailable(id, _, _) =>
      if a.fate.Lands? && id !in w.markers then Some(NotingUnavailable(id, w.epoch)) else None
    case Opening(_, _, _, _) => OpenRecord(pc, a.wrapKey, a.refused)
    case Opened(id, m, plain) => if m.expiresAt <= w.clock then None else Some(Counting(id, m, plain))
    case Counting(id, m, plain) => Some(Counted(id, m, plain))
    case Counted(id, m, plain) => if m.expiresAt <= w.clock then None else Some(NotingView(id, m, plain))
    case NotingView(id, m, plain) => Some(Viewed(id, m, plain))
    case _ => None
  }

  // --- Sweep -------------------------------------------------------------------------------

  predicate SweepPc(pc: Pc) {
    pc.Listing? || pc.Sweeping? || pc.NotingExpired? || pc.MarkingAudited? || pc.Purging?
  }

  predicate SweepFits(pc: Pc, a: Action) {
    match pc
    case Sweeping(_, _, todo, _, _) => a.Call? && todo != []
    case NotingExpired(_, _, todo, _, _) => a.Note? && todo != []
    case _ => a.Call?
  }

  function PurgeRows(t: Table, now: int, cfg: SweepConfig): Table {
    var cutoff := Cutoff(now, cfg.retentionDays);
    if cfg.completedPurge then PurgeCompletedOlderThan(t, cutoff) else PurgeOlderThan(t, cutoff)
  }

  function MarkEffect(w: World, now: int, ids: seq<Id>, fate: Fate): World {
    if fate.Fails? then w.(book := LosePass(w.book, ids)) else w.(rows := MarkExpiredAudited(w.rows, ids, now))
  }

  /** The purge is recorded when its reply arrived and something went. */
  function KeepRows(w: World, rows: Table, replied: bool): World {
    var count := |w.rows.Keys - rows.Keys|;
    if replied && count > 0 then Record(w.(rows := rows), MetadataPurged(count)) else w.(rows := rows)
  }

  function PurgeEffect(w: World, now: int, cfg: SweepConfig, fate: Fate): World {
    if fate.Fails? then w else KeepRows(w, PurgeRows(w.rows, now, cfg), fate.Lands?)
  }

  function SweepEffect(w: World, pc: Pc, a: Action): World
    requires SweepPc(pc) && SweepFits(pc, a)
  {
    match pc
    case Sweeping(_, _, todo, _, _) => DropBody(w, todo[0], a.fate)
    case NotingExpired(_, _, todo, _, _) => Record(w, PasteExpired(todo[0]))
    case MarkingAudited(now, _, ids, _) => MarkEffect(w, now, ids, a.fate)
    case Purging(now, cfg) => PurgeEffect(w, now, cfg, a.fate)
    case _ => w
  }

  /** Where a pass goes with these bodies left and these rows to mark. */
  function Onward(now: int, cfg: SweepConfig, todo: seq<Id>, ids: seq<Id>, retry: bool): Option<Pc> {
    if todo != [] then Some(Sweeping(now, cfg, todo, ids, retry))
    else if ids != [] then Some(MarkingAudited(now, cfg, ids, retry))
    else AfterMarks(now, cfg, retry)
  }

  function AfterMarks(now: int, cfg: SweepConfig, retry: bool): Option<Pc> {
    if cfg.retentionDays > 0 && (cfg.completedPurge || !retry) then Some(Purging(now, cfg)) else None
  }

  function SweepMove(w: World, pc: Pc, a: Action): Option<Pc>
    requires SweepPc(pc) && SweepFits(pc, a)
  {
    match pc
    case Listing(now, cfg) =>
      var listed := ListExpiredUnaudited(w.rows, now, cfg.batch);
      if a.fate.Lands? then Onward(now, cfg, listed, [], |listed| >= cfg.batch) else None
    case Sweeping(now, cfg, todo, ids, retry) =>
      if a.fate.Lands? then Some(NotingExpired(now, cfg, todo, ids, retry)) else Onward(now, cfg, todo[1..], ids, true)
    case NotingExpired(now, cfg, todo, ids, retry) => Onward(now, cfg, todo[1..], ids + [todo[0]], retry)
    case MarkingAudited(now, cfg, _, retry) => if a.fate.Lands? then AfterMarks(now, cfg, retry) else None
    case _ => None
  }

  // --- All together ------------------------------------------------------------------------

  /** The rows a pass has recorded as expired but not yet marked. */
  function Recorded(pc: Pc): seq<Id> {
    match pc
    case Sweeping(_, _, _, ids, _) => ids
    case NotingExpired(_, _, _, ids, _) => ids
    case MarkingAudited(_, _, ids, _) => ids
    case _ => []
  }

  predicate Fits(w: World, pc: Pc, a: Action) {
    if a.Crash? then true
    else if CreatePc(pc) then CreateFits(w, pc, a)
    else if DeletePc(pc) then DeleteFits(pc, a)
    else if SweepPc(pc) then SweepFits(pc, a)
    else ReadFits(w, pc, a)
  }

  /** A client that dies takes its locals with it; a pass that dies leaves its marks unwritten. */
  function Effect(w: World, pc: Pc, a: Action): World
    requires Fits(w, pc, a)
  {
    if a.Crash? then (if Recorded(pc) == [] then w else w.(book := LosePass(w.book, Recorded(pc))))
    else if CreatePc(pc) then CreateEffect(w, pc, a)
    else if DeletePc(pc) then DeleteEffect(w, pc, a)
    else if SweepPc(pc) then SweepEffect(w, pc, a)
    else ReadEffect(w, pc, a)
  }

  function Move(w: World, pc: Pc, a: Action): Option<Pc>
    requires Fits(w, pc, a)
  {
    if a.Crash? then None
    else if CreatePc(pc) then CreateMove(w, pc, a)
    else if DeletePc(pc) then DeleteMove(w, pc, a)
    else if SweepPc(pc) then SweepMove(w, pc, a)
    else ReadMove(w, pc, a)
  }

  /** Whether a call gets past its checks and first query to where other clients can interfere. */
  predicate StartFits(w: World, a: Action) {
    match a
    case BeginCreate(_, content, password, ttl, id) =>
      CheckInput(w.cfg.limits, content, password, ttl).Ok? && id !in w.book.issued  // uuid.New never repeats an id
    case BeginRead(id, _, fate) => fate.Lands? && id in w.rows
    case BeginDelete(id, who, fate) => fate.Lands? && id in w.rows && (w.rows[id].owner == who.user || who.isAdmin)
    case BeginSweep(_) => true
    case _ => false
  }

  function StartEffect(w: World, a: Action): World
    requires StartFits(w, a)
  {
    match a
    case BeginCreate(_, content, password, ttl, id) =>
      var canonical := CheckInput(w.cfg.limits, content, password, ttl).value;
      w.(book := w.book.(issued := w.book.issued + {id}, made := w.book.made[id := canonical]))
    case _ => w
  }

  function StartPc(w: World, a: Action): Pc
    requires StartFits(w, a)
  {
    match a
    case BeginCreate(owner, content, password, ttl, id) =>
      var canonical := CheckInput(w.cfg.limits, content, password, ttl).value;
      Sealing(id, NewRow(owner, w.clock, ChosenTtl(w.cfg.limits, ttl), canonical, password != []), canonical)
    case BeginRead(id, password, _) => ReadTiming(id, w.rows[id], password)
    case BeginDelete(id, who, _) => DeleteTiming(id, w.rows[id], who)
    case BeginSweep(cfg) => Listing(w.clock, cfg)
  }

  /** An action that does not fit where the client is changes nothing. */
  function Act(w: World, c: Client, a: Action): World {
    if c !in w.pcs then (if StartFits(w, a) then Shift(StartEffect(w, a), c, Some(StartPc(w, a))) else w)
    else if Fits(w, w.pcs[c], a) then Shift(Effect(w, w.pcs[c], a), c, Move(w, w.pcs[c], a))
    else w
  }

  function Next(w: World, step: Step): World {
    match step
    case Tick(d) => w.(clock := w.clock + d)
    case BodyExpires(id) =>
      if id in w.bodies && w.bodies[id].deadline.Some? && w.bodies[id].deadline.value <= w.clock
      then w.(bodies := w.bodies - {id})
      else w
    case MarkerExpires(id) =>
      if id in w.markers && w.markers[id] <= w.clock then w.(markers := w.markers - {id}) else w
    case RedisRestart => w.(bodies := map[], markers := map[], epoch := w.epoch + 1)
    case Do(c, a) => Act(w, c, a)
  }

  function Run(w: World, steps: seq<Step>): World {
    if steps == [] then w else Next(Run(w, steps[..|steps| - 1]), steps[|steps| - 1])
  }

  lemma RunOne(w: World, steps: seq<Step>, step: Step)
    ensures Run(w, steps + [step]) == Next(Run(w, steps), step)
  {
    assert (steps + [step])[..|steps|] == steps;
  }

  lemma RunSingle(w: World, step: Step)
    ensures Run(w, [step]) == Next(w, step)
  {
    assert [] + [step] == [step];
    RunOne(w, [], step);
  }

  lemma RunTwo(w: World, first: Step, second: Step, t: World)
    requires t == Next(w, first)
    ensures Run(w, [first, second]) == Next(t, second)
  {
    RunSingle(w, first);
    RunOne(w, [first], second);
    assert [first] + [second] == [first, second];
  }

  lemma {:induction false} RunConcat(w: World, a: seq<Step>, b: seq<Step>)
    ensures Run(w, a + b) == Run(Run(w, a), b)
  {
    if b == [] {
      assert a + b == a;
    } else {
      RunConcat(w, a, b[..|b| - 1]);
      assert (a + b)[..|a + b| - 1] == a + b[..|b| - 1];
    }
  }

  // --- What each kind of client leaves alone ------------------------------------------------

  lemma StartFrame(w: World, a: Action)
    requires StartFits(w, a)
    ensures var t := StartEffect(w, a);
            && t.(book := w.book) == w && t.book.(issued := w.book.issued, made := w.book.made) == w.book
            && (t == w || (a.BeginCreate? && a.id !in w.book.issued && t.book.issued == w.book.issued + {a.id}))
    ensures var pc := StartPc(w, a);
            match a
            case BeginCreate(_, content, _, _, id) =>
              && pc.Sealing? && pc.id == id && StartEffect(w, a).book.made == w.book.made[id := pc.canonical]
              && Canonicalize(content, w.cfg.limits.maxSize) == Ok(pc.canonical) && pc.m.hash == HashHex(pc.canonical)
              && !Completed(pc.m) && pc.m.expiresAt <= w.clock + w.cfg.limits.ttlMax * SECOND
            case BeginRead(id, _, _) => pc.ReadTiming? && pc.id == id && id in w.rows && pc.m == w.rows[id]
            case BeginDelete(id, _, _) => pc.DeleteTiming? && pc.id == id && id in w.rows
            case _ => pc.Listing?
  {
  }

  lemma CreateFrame(w: World, pc: Pc, a: Action)
    requires CreatePc(pc) && CreateFits(w, pc, a)
    ensures var t := CreateEffect(w, pc, a);
            && t.cfg == w.cfg && t.clock == w.clock && t.markers == w.markers && t.epoch == w.epoch && t.pcs == w.pcs
            && t.book.issued == w.book.issued && t.book.made == w.book.made && t.book.served == w.book.served
            && t.book.lost == w.book.lost && t.book.won == w.book.won && t.book.late == w.book.late
  {
  }

  lemma DeleteFrame(w: World, pc: Pc, a: Action)
    requires DeletePc(pc) && DeleteFits(pc, a)
    ensures var t := DeleteEffect(w, pc, a);
            && t.cfg == w.cfg && t.clock == w.clock && t.markers == w.markers && t.epoch == w.epoch && t.pcs == w.pcs
            && t.book == w.book
  {
  }

  /** A Read changes nothing but view counts, markers, the log and what it served. */
  lemma ReadFrame(w: World, pc: Pc, a: Action)
    requires ReadPc(pc) && ReadFits(w, pc, a)
    ensures var t := ReadEffect(w, pc, a);
            && t.cfg == w.cfg && t.clock == w.clock && t.bodies == w.bodies && t.epoch == w.epoch && t.pcs == w.pcs
            && t.book.issued == w.book.issued && t.book.made == w.book.made && t.book.born == w.book.born
            && t.book.ciphers == w.book.ciphers && t.book.lost == w.book.lost
            && (t.rows == w.rows || t.rows == IncrementViews(w.rows, pc.id))
  {
    var t := ReadEffect(w, pc, a);
    if pc.Counting? {
      assert t.(rows := w.rows) == w;
    } else if pc.MarkingUnavailable? {
      assert t.(markers := w.markers, book := w.book) == w;
      assert t.book.(won := w.book.won, late := w.book.late) == w.book;
    } else if pc.Viewed? {
      assert t.(book := w.book) == w && t.book.(served := w.book.served) == w.book;
    } else {
      assert t.(log := w.log) == w;
    }
  }

  lemma ReadStaysRead(w: World, pc: Pc, a: Action)
    requires ReadPc(pc) && ReadFits(w, pc, a)
    ensures ReadMove(w, pc, a).Some? ==> ReadPc(ReadMove(w, pc, a).value) && ReadMove(w, pc, a).value.id == pc.id
  {
  }

  /** Nothing but rows and the log differs. */
  predicate Same(w: World, t: World) {
    t.(rows := w.rows, log := w.log) == w
  }

  /** Rows of `fewer` are rows of `all`. */
  predicate Within(fewer: Table, all: Table) {
    forall id :: id in fewer ==> id in all && fewer[id] == all[id]
  }

  lemma PurgedWithin(t: Table, now: int, cfg: SweepConfig)
    ensures Within(PurgeRows(t, now, cfg), t)
  {
  }

  lemma KeepRowsFrame(w: World, rows: Table, replied: bool)
    ensures var t := KeepRows(w, rows, replied); Same(w, t) && t.rows == rows
  {
  }

  lemma PurgeFrame(w: World, now: int, cfg: SweepConfig, fate: Fate)
    ensures var t := PurgeEffect(w, now, cfg, fate);
            Same(w, t) && Within(t.rows, w.rows)
  {
    PurgedWithin(w.rows, now, cfg);
    KeepRowsFrame(w, PurgeRows(w.rows, now, cfg), fate.Lands?);
  }

  lemma SweepFrame(w: World, pc: Pc, a: Action)
    requires SweepPc(pc) && SweepFits(pc, a)
    ensures var t := SweepEffect(w, pc, a);
            && t.cfg == w.cfg && t.clock == w.clock && t.markers == w.markers && t.epoch == w.epoch && t.pcs == w.pcs
            && t.book.(lost := w.book.lost) == w.book
            && (t.bodies == w.bodies || (pc.Sweeping? && t.bodies == w.bodies - {pc.todo[0]}))
  {
    if pc.Purging? {
      PurgeFrame(w, pc.now, pc.cfg, a.fate);
    }
  }

  lemma SweepStaysSweep(w: World, pc: Pc, a: Action)
    requires SweepPc(pc) && SweepFits(pc, a)
    ensures var next := SweepMove(w, pc, a);
            next.Some? ==>
              SweepPc(next.value) && !next.value.Listing? && next.value.cfg == pc.cfg && next.value.now == pc.now
  {
  }

  lemma CrashFrame(w: World, pc: Pc)
    ensures var t := Effect(w, pc, Crash); t.(book := w.book) == w && t.book.(lost := w.book.lost) == w.book
  {
  }

  /** Once begun, nobody changes the configuration, the clock or what Creates fixed. */
  lemma EffectFrame(w: World, pc: Pc, a: Action)
    requires Fits(w, pc, a)
    ensures var t := Effect(w, pc, a);
            t.cfg == w.cfg && t.clock == w.clock && t.pcs == w.pcs && t.book.issued == w.book.issued
              && t.book.made == w.book.made
  {
    if a.Crash? {
      CrashFrame(w, pc);
    } else if CreatePc(pc) {
      CreateFrame(w, pc, a);
    } else if DeletePc(pc) {
      DeleteFrame(w, pc, a);
    } else if SweepPc(pc) {
      SweepFrame(w, pc, a);
    } else {
      ReadFrame(w, pc, a);
    }
  }

  lemma StepKeepsConfig(w: World, step: Step)
    ensures Next(w, step).cfg == w.cfg
  {
    if step.Do? && step.client in w.pcs && Fits(w, w.pcs[step.client], step.action) {
      EffectFrame(w, w.pcs[step.client], step.action);
    }
  }

  lemma {:induction false} ConfigNeverChanges(w: World, steps: seq<Step>)
    ensures Run(w, steps).cfg == w.cfg
  {
    if steps != [] {
      ConfigNeverChanges(w, steps[..|steps| - 1]);
      StepKeepsConfig(Run(w, steps[..|steps| - 1]), steps[|steps| - 1]);
    }
  }

  function Initial(cfg: Config, clock: int): World {
    World(cfg, clock, map[], map[], map[], 0, [], map[], Book({}, map[], map[], {}, [], map[], {}, false))
  }
}
