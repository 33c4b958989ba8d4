/** The session store as a protocol: any number of clients interleave the atomic Redis
    commands and clock readings of Create, Get, Touch and Delete
    (internal/store/redis/sessions.go). */
module Sessions {
  import opened Base
  import opened SessionTime
  import Base64
  import Decimal

  type Client = nat

  /** One hash sess:{id}; `user` is None when the stored text is no UUID.  The key's Redis
      deadline is a whole number of milliseconds. */
  datatype Entry = Entry(user: Option<nat>, createdRaw: string, absRaw: string, csrf: string, deadlineMs: int)

  datatype Session = Session(id: string, user: nat, createdAt: int, absoluteExpiry: int, csrf: string)

  datatype SessionError =
    | NotFound | Malformed | Backend | AbsoluteNotPositive | Deadline(cause: DeadlineError)
    | ExpiredDuringWrite | NoUniqueId

  type Keys = map<string, Entry>

  function UnixMilli(t: int): int {
    t / 1_000_000
  }

  /** auth.RandomToken(32) for the bytes drawn. */
  function RandomToken(raw: Bytes32): string {
    Base64.Encode(Base64.Url, raw)
  }

  predicate ValidSessionToken(value: string) {
    var raw := Base64.Decode(Base64.Url, value);
    raw.Some? && |raw.value| == 32
  }

  // --- The two Lua scripts, each one atomic step -------------------------------------------

  datatype Reply = Reply(keys: Keys, code: int)

  /** PEXPIREAT with a time that is not in the future deletes the key and still answers 1. */
  function CreateScript(keys: Keys, clock: int, id: string, e: Entry): Reply {
    if id in keys then Reply(keys, 0)
    else if e.deadlineMs * MILLISECOND <= clock then Reply(keys, -1)
    else Reply(keys[id := e], 1)
  }

  function TouchScript(keys: Keys, clock: int, id: string, absRaw: string, deadlineMs: int): Reply {
    if id !in keys then Reply(keys, 0)
    else if keys[id].absRaw != absRaw then Reply(keys, -1)
    else if deadlineMs * MILLISECOND <= clock then Reply(keys - {id}, 1)
    else Reply(keys[id := keys[id].(deadlineMs := deadlineMs)], 1)
  }

  /** What Create has fixed before it draws tokens, with both times already encoded. */
  datatype Draft = Draft(user: nat, now: int, absoluteExpiry: int, deadline: int, createdRaw: string, absRaw: string)

  function NewDraft(user: nat, now: int, absoluteExpiry: int, deadline: int): Draft {
    Draft(user, now, absoluteExpiry, deadline, EncodeTime(now), EncodeTime(absoluteExpiry))
  }

  function NewEntry(d: Draft, csrf: string): Entry {
    Entry(Some(d.user), d.createdRaw, d.absRaw, csrf, UnixMilli(d.deadline))
  }

  function NewSession(d: Draft, id: string, csrf: string): Session {
    Session(id, d.user, d.now, d.absoluteExpiry, csrf)
  }

  /** The checks `get` makes on a stored hash before it looks at the clock. */
  function ReadEntry(id: string, e: Entry): Result<Session, SessionError> {
    var created, abs := DecodeTime(e.createdRaw), DecodeTime(e.absRaw);
    if e.user.None? || created.None? || abs.None? then Err(Malformed)
    else if abs.value <= created.value || !ValidSessionToken(e.csrf) then Err(Malformed)
    else Ok(Session(id, e.user.value, created.value, abs.value, e.csrf))
  }

  // --- The machine -------------------------------------------------------------------------

  /** Where a client is between two atomic actions. */
  datatype Pc =
    | Trying(draft: Draft, left: nat)
    | Created(session: Session, deadline: int, code: int)
    | Loaded(session: Session, absRaw: string, touch: Option<int>)
    | Sizing(session: Session, absRaw: string, idleTTL: int)
    | Writing(id: string, absRaw: string, deadline: int)
    | Written(id: string, deadline: int)
    | Dropping(id: string)

  datatype Action =
    | BeginCreate(user: nat, idleTTL: int, absoluteTTL: int)
    | Attempt(id: string, csrf: string, fate: Fate)
    | BeginLoad(id: string, touch: Option<int>, fate: Fate)
    | Now
    | Write(fate: Fate)
    | Drop(fate: Fate)
    | DeleteKey(id: string, fate: Fate)
    | Crash

  datatype Step = Tick(elapsed: nat) | Expire(id: string) | Restart | Do(client: Client, action: Action)

  /** `skewed` records that some Create asked for an absolute expiry the stored field cannot hold. */
  datatype State = State(clock: int, keys: Keys, pcs: map<Client, Pc>, skewed: bool)

  function At(s: State, c: Client, pc: Pc): State {
    s.(pcs := s.pcs[c := pc])
  }

  function Idle(s: State, c: Client): State {
    s.(pcs := s.pcs - {c})
  }

  function Next(s: State, step: Step): State {
    match step
    case Tick(d) => s.(clock := s.clock + d)
    case Expire(id) =>
      if id in s.keys && s.keys[id].deadlineMs * MILLISECOND <= s.clock then s.(keys := s.keys - {id}) else s
    case Restart => s.(keys := map[])
    case Do(c, Crash) => Idle(s, c)
    case Do(c, a) => if c in s.pcs then Continue(s, c, s.pcs[c], a) else Begin(s, c, a)
  }

  function Begin(s: State, c: Client, a: Action): State {
    match a
    case BeginCreate(user, idle, ttl) => StartCreate(s, c, user, idle, ttl)
    case BeginLoad(id, touch, fate) => StartLoad(s, c, id, touch, fate)
    case DeleteKey(id, fate) => if fate.Fails? then s else s.(keys := s.keys - {id})
    case _ => s
  }

  function StartCreate(s: State, c: Client, user: nat, idle: int, ttl: int): State {
    var abs := s.clock + ttl;
    var deadline := SessionDeadline(idle, abs, s.clock);
    if ttl <= 0 || deadline.Err? then s
    else At(s.(skewed := s.skewed || !Storable(abs)), c, Trying(NewDraft(user, s.clock, abs, deadline.value), 4))
  }

  /** HGETALL and the checks on what it returned; Touch first checks its idle time. */
  function StartLoad(s: State, c: Client, id: string, touch: Option<int>, fate: Fate): State {
    if (touch.Some? && touch.value <= 0) || id == "" || !fate.Lands? || id !in s.keys then s
    else
      var read := ReadEntry(id, s.keys[id]);
      if read.Err? then s else At(s, c, Loaded(read.value, s.keys[id].absRaw, touch))
  }

  /** The client's next action; an action that does not fit where the client is changes nothing. */
  function Continue(s: State, c: Client, pc: Pc, a: Action): State {
    match a
    case Attempt(id, csrf, fate) => if pc.Trying? then TryId(s, c, pc, id, csrf, fate) else s
    case Now => ReadClock(s, c, pc)
    case Write(fate) => if pc.Writing? then WriteDeadline(s, c, pc, fate) else s
    case Drop(fate) =>
      if pc.Dropping? then Idle(if fate.Fails? then s else s.(keys := s.keys - {pc.id}), c) else s
    case _ => s
  }

  function TryId(s: State, c: Client, pc: Pc, id: string, csrf: string, fate: Fate): State
    requires pc.Trying?
  {
    var reply := CreateScript(s.keys, s.clock, id, NewEntry(pc.draft, csrf));
    if fate.Fails? then Idle(s, c)
    else if fate.FailsAfter? then Idle(s.(keys := reply.keys), c)
    else if reply.code == 0 then (if pc.left <= 1 then Idle(s, c) else At(s, c, Trying(pc.draft, pc.left - 1)))
    else At(s.(keys := reply.keys), c, Created(NewSession(pc.draft, id, csrf), pc.draft.deadline, reply.code))
  }

  function WriteDeadline(s: State, c: Client, pc: Pc, fate: Fate): State
    requires pc.Writing?
  {
    var reply := TouchScript(s.keys, s.clock, pc.id, pc.absRaw, UnixMilli(pc.deadline));
    if fate.Fails? then Idle(s, c)
    else if fate.FailsAfter? || reply.code != 1 then Idle(s.(keys := reply.keys), c)
    else At(s.(keys := reply.keys), c, Written(pc.id, pc.deadline))
  }

  /** A clock reading and what the client concludes from it; the stored keys are untouched. */
  function ReadClock(s: State, c: Client, pc: Pc): State {
    match pc
    case Created(session, deadline, code) =>
      if code == -1 || deadline <= s.clock then At(s, c, Dropping(session.id)) else Idle(s, c)
    case Loaded(session, absRaw, touch) =>
      if session.absoluteExpiry <= s.clock then At(s, c, Dropping(session.id))
      else if touch.None? then Idle(s, c)
      else At(s, c, Sizing(session, absRaw, touch.value))
    case Sizing(session, absRaw, idle) =>
      var deadline := SessionDeadline(idle, session.absoluteExpiry, s.clock);
      if deadline.Ok? then At(s, c, Writing(session.id, absRaw, deadline.value))
      else if session.absoluteExpiry <= s.clock then At(s, c, Dropping(session.id))
      else Idle(s, c)
    case Written(id, deadline) =>
      if deadline <= s.clock then At(s, c, Dropping(id)) else Idle(s, c)
    case _ => s
  }

  function Run(s: State, steps: seq<Step>): State {
    if steps == [] then s else Next(Run(s, steps[..|steps| - 1]), steps[|steps| - 1])
  }

  lemma RunOne(s: State, steps: seq<Step>, step: Step)
    ensures Run(s, steps + [step]) == Next(Run(s, steps), step)
  {
    assert (steps + [step])[..|steps|] == steps;
  }

  lemma RunSingle(s: State, a: Step)
    ensures Run(s, [a]) == Next(s, a)
  {
    assert [] + [a] == [a];
    RunOne(s, [], a);
  }

  lemma RunTwo(s: State, a: Step, b: Step, t: State)
    requires t == Next(s, a)
    ensures Run(s, [a] + [b]) == Next(t, b)
  {
    RunSingle(s, a);
    RunOne(s, [a], b);
  }

  lemma {:induction false} RunConcat(s: State, a: seq<Step>, b: seq<Step>)
    ensures Run(s, a + b) == Run(Run(s, a), b)
  {
    if b == [] {
      assert a + b == a;
    } else {
      RunConcat(s, a, b[..|b| - 1]);
      assert (a + b)[..|a + b| - 1] == a + b[..|b| - 1];
    }
  }

  /** Some run leads from `s` to `t`. */
  ghost predicate Leads(s: State, t: State) {
    exists steps :: Run(s, steps) == t
  }

  lemma LeadsRefl(s: State)
    ensures Leads(s, s)
  {
    assert Run(s, []) == s;
  }

  lemma LeadsStep(s: State, t: State, step: Step)
    requires Leads(s, t)
    ensures Leads(s, Next(t, step))
  {
    var steps :| Run(s, steps) == t;
    RunOne(s, steps, step);
    assert Run(s, steps + [step]) == Next(t, step);
  }

  lemma LeadsTrans(s: State, t: State, u: State)
    requires Leads(s, t) && Leads(t, u)
    ensures Leads(s, u)
  {
    var a :| Run(s, a) == t;
    var b :| Run(t, b) == u;
    RunConcat(s, a, b);
    assert Run(s, a + b) == u;
  }

  /** Steps of the environment and of other clients. */
  predicate Foreign(me: Client, steps: seq<Step>) {
    forall i :: 0 <= i < |steps| ==> steps[i].Do? ==> steps[i].client != me
  }

  predicate SamePlace(s: State, t: State, me: Client) {
    (me in s.pcs <==> me in t.pcs) && (me in s.pcs ==> s.pcs[me] == t.pcs[me])
  }

  /** No one else moves a client. */
  lemma ForeignStep(s: State, step: Step, me: Client)
    requires step.Do? ==> step.client != me
    ensures SamePlace(s, Next(s, step), me) && s.clock <= Next(s, step).clock
  {
  }

  // --- What every interleaving keeps -------------------------------------------------------

  /** A deadline never later than the absolute expiry the raw field decodes to. */
  predicate Bounded(absRaw: string, deadlineMs: int) {
    DecodeTime(absRaw).Some? ==> deadlineMs * MILLISECOND <= DecodeTime(absRaw).value
  }

  predicate PcInv(pc: Pc) {
    match pc
    case Trying(draft, _) => Bounded(draft.absRaw, UnixMilli(draft.deadline))
    case Loaded(session, absRaw, _) => DecodeTime(absRaw) == Some(session.absoluteExpiry)
    case Sizing(session, absRaw, _) => DecodeTime(absRaw) == Some(session.absoluteExpiry)
    case Writing(_, absRaw, deadline) => Bounded(absRaw, UnixMilli(deadline))
    case _ => true
  }

  ghost predicate KeysInv(keys: Keys) {
    forall id :: id in keys ==> Bounded(keys[id].absRaw, keys[id].deadlineMs)
  }

  ghost predicate PcsInv(pcs: map<Client, Pc>) {
    forall c :: c in pcs ==> PcInv(pcs[c])
  }

  ghost predicate Inv(s: State) {
    KeysInv(s.keys) && PcsInv(s.pcs)
  }

  lemma CreateScriptKeepsInv(keys: Keys, clock: int, id: string, e: Entry)
    requires KeysInv(keys) && Bounded(e.absRaw, e.deadlineMs)
    ensures KeysInv(CreateScript(keys, clock, id, e).keys)
  {
  }

  lemma TouchScriptKeepsInv(keys: Keys, clock: int, id: string, absRaw: string, deadlineMs: int)
    requires KeysInv(keys) && Bounded(absRaw, deadlineMs)
    ensures KeysInv(TouchScript(keys, clock, id, absRaw, deadlineMs).keys)
  {
  }

  /** Moving one client to a sound point, or retiring it, keeps all clients sound. */
  lemma MoveKeepsInv(s: State, c: Client, pc: Pc)
    requires PcsInv(s.pcs)
    ensures PcInv(pc) ==> PcsInv(At(s, c, pc).pcs)
    ensures PcsInv(Idle(s, c).pcs)
  {
  }

  lemma NewDraftBounded(user: nat, now: int, abs: int, deadline: int)
    requires Storable(abs) && deadline <= abs
    ensures Bounded(NewDraft(user, now, abs, deadline).absRaw, UnixMilli(deadline))
  {
    DecodeEncodeExact(abs);
  }

  lemma TryIdKeepsInv(s: State, c: Client, id: string, csrf: string, fate: Fate)
    requires Inv(s) && c in s.pcs && s.pcs[c].Trying?
    ensures Inv(TryId(s, c, s.pcs[c], id, csrf, fate))
  {
    var pc := s.pcs[c];
    assert PcInv(pc);
    CreateScriptKeepsInv(s.keys, s.clock, id, NewEntry(pc.draft, csrf));
    var s' := TryId(s, c, pc, id, csrf, fate);
    MoveKeepsInv(s, c, if c in s'.pcs then s'.pcs[c] else pc);
  }

  lemma WriteDeadlineKeepsInv(s: State, c: Client, fate: Fate)
    requires Inv(s) && c in s.pcs && s.pcs[c].Writing?
    ensures Inv(WriteDeadline(s, c, s.pcs[c], fate))
  {
    var pc := s.pcs[c];
    assert PcInv(pc);
    TouchScriptKeepsInv(s.keys, s.clock, pc.id, pc.absRaw, UnixMilli(pc.deadline));
    MoveKeepsInv(s, c, Written(pc.id, pc.deadline));
  }

  lemma ReadClockKeepsInv(s: State, c: Client)
    requires Inv(s) && c in s.pcs
    ensures Inv(ReadClock(s, c, s.pcs[c]))
  {
    var pc, s' := s.pcs[c], ReadClock(s, c, s.pcs[c]);
    assert PcInv(pc);
    MoveKeepsInv(s, c, if c in s'.pcs then s'.pcs[c] else pc);
  }

  lemma StartCreateKeepsInv(s: State, c: Client, user: nat, idle: int, ttl: int)
    requires Inv(s) && !StartCreate(s, c, user, idle, ttl).skewed
    ensures Inv(StartCreate(s, c, user, idle, ttl))
  {
    var abs := s.clock + ttl;
    var deadline := SessionDeadline(idle, abs, s.clock);
    if ttl > 0 && deadline.Ok? {
      DeadlineIsLastAdmissible(idle, abs, s.clock);
      DraftKeepsInv(s, c, user, abs, deadline.value);
    }
  }

  lemma DraftKeepsInv(s: State, c: Client, user: nat, abs: int, deadline: int)
    requires Inv(s) && Storable(abs) && deadline <= abs
    ensures Inv(At(s, c, Trying(NewDraft(user, s.clock, abs, deadline), 4)))
  {
    NewDraftBounded(user, s.clock, abs, deadline);
    MoveKeepsInv(s, c, Trying(NewDraft(user, s.clock, abs, deadline), 4));
  }

  lemma StartLoadKeepsInv(s: State, c: Client, id: string, touch: Option<int>, fate: Fate)
    requires Inv(s)
    ensures Inv(StartLoad(s, c, id, touch, fate))
  {
    var s' := StartLoad(s, c, id, touch, fate);
    if s' != s {
      MoveKeepsInv(s, c, s'.pcs[c]);
    }
  }

  lemma StepKeepsInv(s: State, step: Step)
    requires Inv(s) && !Next(s, step).skewed
    ensures Inv(Next(s, step))
  {
    if step.Do? && step.client in s.pcs {
      var c := step.client;
      match step.action
      case Attempt(id, csrf, fate) =>
        if s.pcs[c].Trying? {
          TryIdKeepsInv(s, c, id, csrf, fate);
        }
      case Write(fate) =>
        if s.pcs[c].Writing? {
          WriteDeadlineKeepsInv(s, c, fate);
        }
      case Now => ReadClockKeepsInv(s, c);
      case _ =>
    } else if step.Do? {
      match step.action
      case BeginCreate(user, idle, ttl) => StartCreateKeepsInv(s, step.client, user, idle, ttl);
      case BeginLoad(id, touch, fate) => StartLoadKeepsInv(s, step.client, id, touch, fate);
      case _ =>
    }
  }

  lemma SkewStays(s: State, step: Step)
    ensures s.skewed ==> Next(s, step).skewed
  {
  }

  /** In every reachable state, unless some Create asked for an expiry the field cannot hold,
      no key outlives the absolute expiry stored in it. */
  lemma {:induction false} DeadlinesBounded(s: State, steps: seq<Step>)
    requires Inv(s)
    ensures !Run(s, steps).skewed ==> Inv(Run(s, steps))
  {
    if steps != [] {
      var before := Run(s, steps[..|steps| - 1]);
      DeadlinesBounded(s, steps[..|steps| - 1]);
      if !Run(s, steps).skewed {
        SkewStays(before, steps[|steps| - 1]);
        StepKeepsInv(before, steps[|steps| - 1]);
      }
    }
  }

  /** The steps of an undisturbed Create up to its first script. */
  function CreateSteps(c: Client, user: nat, idle: int, ttl: int, id: string, csrf: string): seq<Step> {
    [Do(c, BeginCreate(user, idle, ttl))] + [Do(c, Attempt(id, csrf, Lands))]
  }

  lemma BeginsCreate(s: State, c: Client, user: nat, idle: int, ttl: int)
    requires c !in s.pcs
    ensures Next(s, Do(c, BeginCreate(user, idle, ttl))) == StartCreate(s, c, user, idle, ttl)
  {
  }

  lemma CreateStarts(s: State, c: Client, user: nat, idle: int, ttl: int, deadline: int)
    requires c !in s.pcs && ttl > 0 && SessionDeadline(idle, s.clock + ttl, s.clock) == Ok(deadline)
    ensures var t := StartCreate(s, c, user, idle, ttl);
            && t.keys == s.keys && t.clock == s.clock && t.skewed == (s.skewed || !Storable(s.clock + ttl))
            && c in t.pcs && t.pcs[c] == Trying(NewDraft(user, s.clock, s.clock + ttl, deadline), 4)
  {
  }

  lemma CreateAlone(s: State, c: Client, user: nat, idle: int, ttl: int, deadline: int, id: string, csrf: string)
    requires c !in s.pcs && id !in s.keys && ttl > 0
    requires SessionDeadline(idle, s.clock + ttl, s.clock) == Ok(deadline)
    ensures var t := Run(s, CreateSteps(c, user, idle, ttl, id, csrf));
            && t.keys == s.keys[id := NewEntry(NewDraft(user, s.clock, s.clock + ttl, deadline), csrf)]
            && t.skewed == (s.skewed || !Storable(s.clock + ttl))
  {
    var a, b := Do(c, BeginCreate(user, idle, ttl)), Do(c, Attempt(id, csrf, Lands));
    var t := StartCreate(s, c, user, idle, ttl);
    BeginsCreate(s, c, user, idle, ttl);
    CreateStarts(s, c, user, idle, ttl, deadline);
    DeadlineFacts(idle, s.clock + ttl, s.clock, deadline);
    assert UnixMilli(deadline) * MILLISECOND == deadline;
    FirstToken(t, c, id, csrf);
    RunTwo(s, a, b, t);
  }

  /** A free token is taken as long as the deadline is still ahead. */
  lemma FirstToken(s: State, c: Client, id: string, csrf: string)
    requires c in s.pcs && s.pcs[c].Trying? && id !in s.keys
    requires s.clock < UnixMilli(s.pcs[c].draft.deadline) * MILLISECOND
    ensures var t := Next(s, Do(c, Attempt(id, csrf, Lands)));
            t.keys == s.keys[id := NewEntry(s.pcs[c].draft, csrf)] && t.skewed == s.skewed
  {
  }

  /** Past the year 2262 the stored expiry wraps around to before the epoch. */
  lemma WrappedExpiry(abs: int)
    requires Decimal.INT64_MAX < abs < TWO_64
    ensures !Storable(abs) && DecodeTime(EncodeTime(abs)).Some? && DecodeTime(EncodeTime(abs)).value < 0
  {
    assert UnixNano(abs) == abs - TWO_64;
    DecodeOfFormatted(UnixNano(abs));
  }

  /** What the field holds of an instant in range: counts below 10^12 are read as seconds. */
  lemma StoredExpiry(abs: int)
    requires Decimal.INT64_MIN <= abs <= Decimal.INT64_MAX
    ensures DecodeTime(EncodeTime(abs)) == Some(if -SECONDS_BOUND < abs < SECONDS_BOUND then abs * SECOND else abs)
  {
    DecodeOfFormatted(abs);
  }

  /** The bound holds of a new key exactly when the requested expiry fits signed 64-bit
      nanoseconds and, should it fall within the 1000 seconds before the epoch, the deadline is
      no later than that many seconds before the epoch.  Clock and lifetime are any that Go
      itself keeps in signed 64-bit nanoseconds. */
  lemma CreateBoundExact(s: State, c: Client, user: nat, idle: int, ttl: int, abs: int, deadline: int, id: string,
                         csrf: string)
    requires c !in s.pcs && id !in s.keys && abs == s.clock + ttl
    requires Decimal.INT64_MIN <= s.clock <= Decimal.INT64_MAX && 0 < ttl <= Decimal.INT64_MAX
    requires SessionDeadline(idle, abs, s.clock) == Ok(deadline)
    ensures var e := NewEntry(NewDraft(user, s.clock, abs, deadline), csrf);
            && Run(s, CreateSteps(c, user, idle, ttl, id, csrf)).keys == s.keys[id := e]
            && (Bounded(e.absRaw, e.deadlineMs) <==>
                  abs <= Decimal.INT64_MAX && (-SECONDS_BOUND < abs < 0 ==> deadline <= abs * SECOND))
  {
    assert Run(s, CreateSteps(c, user, idle, ttl, id, csrf)).keys
        == s.keys[id := NewEntry(NewDraft(user, s.clock, abs, deadline), csrf)] by {
      CreateAlone(s, c, user, idle, ttl, deadline, id, csrf);
    }
    EntryBoundExact(user, idle, s.clock, abs, deadline, csrf);
  }

  lemma EntryBoundExact(user: nat, idle: int, now: int, abs: int, deadline: int, csrf: string)
    requires Decimal.INT64_MIN <= now <= Decimal.INT64_MAX && now < abs <= now + Decimal.INT64_MAX
    requires SessionDeadline(idle, abs, now) == Ok(deadline)
    ensures var e := NewEntry(NewDraft(user, now, abs, deadline), csrf);
            Bounded(e.absRaw, e.deadlineMs) <==>
              abs <= Decimal.INT64_MAX && (-SECONDS_BOUND < abs < 0 ==> deadline <= abs * SECOND)
  {
    DeadlineFacts(idle, abs, now, deadline);
    BoundExact(abs, deadline);
    EntryHolds(user, now, abs, deadline, csrf);
  }

  lemma DeadlineFacts(idle: int, abs: int, now: int, deadline: int)
    requires SessionDeadline(idle, abs, now) == Ok(deadline)
    ensures now < deadline <= abs && deadline % MILLISECOND == 0
  {
    DeadlineIsLastAdmissible(idle, abs, now);
  }

  lemma EntryHolds(user: nat, now: int, abs: int, deadline: int, csrf: string)
    ensures var e := NewEntry(NewDraft(user, now, abs, deadline), csrf);
            e.absRaw == EncodeTime(abs) && e.deadlineMs == UnixMilli(deadline)
  {
  }

  lemma BoundExact(abs: int, deadline: int)
    requires Decimal.INT64_MIN <= abs < TWO_64 && deadline <= abs && deadline % MILLISECOND == 0
    requires abs > Decimal.INT64_MAX ==> deadline > 0
    ensures Bounded(EncodeTime(abs), UnixMilli(deadline)) <==>
              abs <= Decimal.INT64_MAX && (-SECONDS_BOUND < abs < 0 ==> deadline <= abs * SECOND)
  {
    assert UnixMilli(deadline) * MILLISECOND == deadline;
    if abs <= Decimal.INT64_MAX {
      StoredExpiry(abs);
    } else {
      WrappedExpiry(abs);
    }
  }

  /** An empty store. */
  function Initial(clock: int): State {
    State(clock, map[], map[], false)
  }

  lemma InitialIsSound(clock: int)
    ensures Inv(Initial(clock)) && !Initial(clock).skewed
  {
  }

  predicate SameIdentity(a: Entry, b: Entry) {
    a.user == b.user && a.createdRaw == b.createdRaw && a.absRaw == b.absRaw && a.csrf == b.csrf
  }

  /** While a key exists, nothing but its deadline changes. */
  lemma StepKeepsIdentity(s: State, step: Step, id: string)
    requires id in s.keys && id in Next(s, step).keys
    ensures SameIdentity(s.keys[id], Next(s, step).keys[id])
  {
  }

  lemma {:induction false} IdentityNeverChanges(s: State, steps: seq<Step>, id: string)
    requires forall i :: 0 <= i <= |steps| ==> id in Run(s, steps[..i]).keys
    ensures id in s.keys && id in Run(s, steps).keys
    ensures SameIdentity(s.keys[id], Run(s, steps).keys[id])
  {
    assert steps[..0] == [] && steps[..|steps|] == steps;
    if steps != [] {
      var init := steps[..|steps| - 1];
      forall i | 0 <= i <= |init| ensures id in Run(s, init[..i]).keys {
        assert init[..i] == steps[..i];
      }
      IdentityNeverChanges(s, init, id);
      StepKeepsIdentity(Run(s, init), steps[|steps| - 1], id);
    }
  }

  /** Only a create script that lands makes a key appear, it leaves every other key alone and
      writes what that client's Create computed; so Create never overwrites, and no Touch,
      Get or Delete ever brings a key into being. */
  lemma OnlyCreateAddsKeys(s: State, step: Step, id: string)
    requires id !in s.keys && id in Next(s, step).keys
    ensures step.Do? && step.action.Attempt? && !step.action.fate.Fails?
    ensures step.client in s.pcs && s.pcs[step.client].Trying?
    ensures id == step.action.id
    ensures Next(s, step).keys[id] == NewEntry(s.pcs[step.client].draft, step.action.csrf)
    ensures forall other :: other in s.keys ==>
              other in Next(s, step).keys && Next(s, step).keys[other] == s.keys[other]
  {
  }

  /** A deadline moves only by a touch script that lands, to the deadline that client computed
      from a read of the very same absolute expiry. */
  lemma OnlyTouchMovesDeadlines(s: State, step: Step, id: string)
    requires id in s.keys && id in Next(s, step).keys
    requires Next(s, step).keys[id].deadlineMs != s.keys[id].deadlineMs
    ensures step.Do? && step.client in s.pcs && s.pcs[step.client].Writing?
    ensures var pc := s.pcs[step.client];
            pc.id == id && pc.absRaw == s.keys[id].absRaw
            && Next(s, step).keys[id].deadlineMs == UnixMilli(pc.deadline) && s.clock < pc.deadline
  {
  }

  lemma TokensAreValid(raw: Bytes32)
    ensures ValidSessionToken(RandomToken(raw))
  {
    Base64.DecodeEncode(Base64.Url, raw);
  }

  /** What Create stores, Get reads back. */
  lemma ReadBack(id: string, user: nat, now: int, abs: int, deadline: int, csrfBytes: Bytes32)
    requires Storable(now) && Storable(abs) && now < abs
    ensures var d, csrf := NewDraft(user, now, abs, deadline), RandomToken(csrfBytes);
            ReadEntry(id, NewEntry(d, csrf)) == Ok(NewSession(d, id, csrf))
  {
    DecodeEncodeExact(now);
    DecodeEncodeExact(abs);
    TokensAreValid(csrfBytes);
  }
}
