/** OIDC login as a protocol: any number of browsers interleave the steps of Start and
    Complete (internal/auth/oidc.go, internal/store/redis/oidcstate.go). */
module Oidc {
  import opened Base
  import opened Users
  import opened Claims

  type Client = nat

  const STATE_TTL: int := 300 * SECOND

  /** Go's zero time, 1 January of year 1. */
  const ZERO_TIME: int := -62_135_596_800 * SECOND

  datatype Saved = Saved(pending: Pending, deadline: int)

  /** The redirect Start returns: the state, the S256 challenge and the nonce. */
  datatype AuthUrl = AuthUrl(state: string, challenge: Challenge, nonce: string)

  datatype Login = Login(state: string, verifier: string, at: int, token: IdToken, user: User, account: Id)

  /** A token that passed the nonce, identity and group checks for a state, and the user it names. */
  datatype Accepted = Accepted(state: string, token: IdToken, user: User)

  datatype Event = LoggedIn(account: Id) | Denied(subject: string, reason: string)

  datatype Pc =
    | Saving(state: string, pending: Pending)
    | Taken(state: string, pending: Pending, code: string)
    | Exchanging(state: string, pending: Pending, now: int)
    | Upserting(state: string, pending: Pending, now: int, token: IdToken, user: User)

  datatype Action =
    | BeginStart(state: string, verifier: string, nonce: string)
    | Save(fate: Fate)
    | Take(state: string, code: string, fate: Fate)
    | Now
    | Exchange(token: Option<IdToken>)
    | Upsert(newId: Id, fate: Fate)
    | Crash

  datatype Step =
    | Tick(elapsed: nat)
    | Expire(state: string)
    | Restart
    | Disable(id: Id, disabled: bool)
    | AddUser(id: Id, user: User)
    | Do(client: Client, action: Action)

  /** History: every request ever begun, every redirect handed out, every state taken from
      the store, every token accepted, and every completed login with the states they used. */
  datatype Book = Book(started: map<string, Pending>, urls: map<string, AuthUrl>, consumed: set<string>,
                       accepted: set<Accepted>, logins: seq<Login>, used: set<string>)

  datatype State = State(clock: int, cfg: Config, saved: map<string, Saved>, users: Table, pcs: map<Client, Pc>,
                         events: seq<Event>, book: Book)

  predicate ValidState(state: string, p: Pending) {
    state != "" && p.verifier != "" && p.nonce != "" && p.createdAt != ZERO_TIME
  }

  /** The checks Complete makes on a taken state and the clock. */
  predicate Current(p: Pending, now: int) {
    && p.verifier != "" && p.nonce != "" && p.createdAt != ZERO_TIME
    && p.createdAt <= now < p.createdAt + STATE_TTL
  }

  function At(s: State, c: Client, pc: Pc): State {
    s.(pcs := s.pcs[c := pc])
  }

  function Idle(s: State, c: Client): State {
    s.(pcs := s.pcs - {c})
  }

  function Note(s: State, e: Event): State {
    s.(events := s.events + [e])
  }

  predicate SameRequests(s: State, t: State) {
    s.cfg == t.cfg && s.book.started == t.book.started
  }

  /** No client but `c` has moved. */
  predicate OnlyMoves(s: State, t: State, c: Client) {
    s.pcs - {c} == t.pcs - {c}
  }

  function Next(s: State, step: Step): State
    requires Unique(s.users)
  {
    match step
    case Tick(d) => s.(clock := s.clock + d)
    case Expire(st) => if st in s.saved && s.saved[st].deadline <= s.clock then s.(saved := s.saved - {st}) else s
    case Restart => s.(saved := map[])
    case Disable(id, disabled) => s.(users := SetDisabled(s.users, id, disabled))
    case AddUser(id, u) => s.(users := CreateUser(s.users, id, u))
    case Do(c, a) => if c in s.pcs then Continue(s, c, s.pcs[c], a) else Begin(s, c, a)
  }

  function Begin(s: State, c: Client, a: Action): State {
    match a
    case BeginStart(state, verifier, nonce) =>
      // RandomToken never repeats a state
      if state in s.book.started then s
      else
        var p := Pending(verifier, nonce, s.clock);
        At(s.(book := s.book.(started := s.book.started[state := p])), c, Saving(state, p))
    case Take(state, code, fate) => TakeState(s, c, state, code, fate)
    case _ => s
  }

  /** GETDEL: the state is gone whether or not the reply arrives or parses. */
  function TakeState(s: State, c: Client, state: string, code: string, fate: Fate): (t: State)
    ensures t.users == s.users && SameRequests(s, t) && OnlyMoves(s, t, c) && t.book.accepted == s.book.accepted
  {
    if state == "" || fate.Fails? || state !in s.saved then s
    else
      var p := s.saved[state].pending;
      var gone := s.(saved := s.saved - {state}, book := s.book.(consumed := s.book.consumed + {state}));
      if fate.FailsAfter? || !ValidState(state, p) then gone else At(gone, c, Taken(state, p, code))
  }

  function Continue(s: State, c: Client, pc: Pc, a: Action): State
    requires Unique(s.users)
  {
    match a
    case Save(fate) => if pc.Saving? then SaveState(s, c, pc, fate) else s
    case Now =>
      if !pc.Taken? then s
      else if Current(pc.pending, s.clock) && pc.code != "" then At(s, c, Exchanging(pc.state, pc.pending, s.clock))
      else Idle(s, c)
    case Exchange(token) => if pc.Exchanging? then JudgeToken(s, c, pc, token) else s
    case Upsert(newId, fate) =>
      if pc.Upserting? && pc.user.identity.Some? then UpsertUser(s, c, pc, newId, fate) else s
    case Crash => Idle(s, c)
    case _ => s
  }

  function SaveState(s: State, c: Client, pc: Pc, fate: Fate): (t: State)
    requires pc.Saving?
    ensures t.users == s.users && SameRequests(s, t) && OnlyMoves(s, t, c) && t.book.accepted == s.book.accepted
  {
    if !ValidState(pc.state, pc.pending) || fate.Fails? then Idle(s, c)
    else
      var kept := s.(saved := s.saved[pc.state := Saved(pc.pending, s.clock + STATE_TTL)]);
      if fate.FailsAfter? then Idle(kept, c)
      else
        var url := AuthUrl(pc.state, S256(pc.pending.verifier), pc.pending.nonce);
        Idle(kept.(book := s.book.(urls := s.book.urls[pc.state := url])), c)
  }

  function JudgeToken(s: State, c: Client, pc: Pc, token: Option<IdToken>): (t: State)
    requires pc.Exchanging?
    ensures t.users == s.users && SameRequests(s, t) && OnlyMoves(s, t, c)
            && (token.None? ==> t.book.accepted == s.book.accepted)
  {
    if token.None? then Idle(s, c) else ActOn(s, c, pc, token.value, Judge(s.cfg, pc.pending, token.value))
  }

  function ActOn(s: State, c: Client, pc: Pc, token: IdToken, verdict: Result<User, Refusal>): (t: State)
    requires pc.Exchanging?
    ensures t.users == s.users && SameRequests(s, t) && OnlyMoves(s, t, c)
  {
    match verdict
    case Ok(user) =>
      At(s.(book := s.book.(accepted := s.book.accepted + {Accepted(pc.state, token, user)})), c,
         Upserting(pc.state, pc.pending, pc.now, token, user))
    case Err(NonceMismatch) => Idle(Note(s, Denied(token.subject, "nonce_mismatch")), c)
    case Err(MissingGroup) => Idle(Note(s, Denied(token.subject, "missing_required_group")), c)
    case Err(InvalidIdentity) => Idle(s, c)
  }

  /** A disabled account is refused only after the upsert has refreshed its row. */
  function UpsertUser(s: State, c: Client, pc: Pc, newId: Id, fate: Fate): (t: State)
    requires pc.Upserting? && pc.user.identity.Some? && Unique(s.users)
    ensures SameRequests(s, t) && OnlyMoves(s, t, c) && t.book.accepted == s.book.accepted
  {
    var r := UpsertOIDC(s.users, newId, pc.user, s.clock);
    if fate.Fails? || r.stored.None? then Idle(s, c)
    else
      var id := r.stored.value;
      var kept := s.(users := r.table);
      if fate.FailsAfter? then Idle(kept, c)
      else if r.table[id].disabled then Idle(Note(kept, Denied(pc.token.subject, "disabled")), c)
      else
        var login := Login(pc.state, pc.pending.verifier, pc.now, pc.token, pc.user, id);
        var book := s.book.(logins := s.book.logins + [login], used := s.book.used + {pc.state});
        Idle(Note(kept.(book := book), LoggedIn(id)), c)
  }

  // --- What every interleaving keeps -------------------------------------------------------

  predicate StartedAs(b: Book, state: string, p: Pending) {
    state in b.started && b.started[state] == p
  }

  /** A state that is out of the store and in one client's hands. */
  predicate InHand(b: Book, state: string, p: Pending) {
    StartedAs(b, state, p) && state in b.consumed && state !in b.used
  }

  predicate PcInv(saved: map<string, Saved>, b: Book, pc: Pc) {
    match pc
    case Saving(state, p) => StartedAs(b, state, p) && state !in saved && state !in b.consumed
    case Taken(state, p, _) => InHand(b, state, p)
    case Exchanging(state, p, now) => InHand(b, state, p) && Current(p, now)
    case Upserting(state, p, now, token, user) =>
      InHand(b, state, p) && Current(p, now) && Accepted(state, token, user) in b.accepted
  }

  predicate Alone(pcs: map<Client, Pc>) {
    forall c, d :: c in pcs && d in pcs && pcs[c].state == pcs[d].state ==> c == d
  }

  predicate PcsInv(saved: map<string, Saved>, b: Book, pcs: map<Client, Pc>) {
    (forall c :: c in pcs ==> PcInv(saved, b, pcs[c])) && Alone(pcs)
  }

  predicate StoreInv(saved: map<string, Saved>, b: Book) {
    forall st :: st in saved ==> StartedAs(b, st, saved[st].pending) && st !in b.consumed
  }

  predicate UrlsInv(b: Book) {
    forall st :: st in b.urls ==>
      st in b.started && b.urls[st] == AuthUrl(st, S256(b.started[st].verifier), b.started[st].nonce)
  }

  /** One completed login: its state was begun by a Start less than five minutes before the
      clock reading, the verifier presented is that Start's, and its token was accepted. */
  predicate LoginSound(b: Book, l: Login) {
    && l.state in b.started && l.state in b.consumed && l.state in b.used
    && b.started[l.state].verifier == l.verifier && Current(b.started[l.state], l.at)
    && Accepted(l.state, l.token, l.user) in b.accepted
  }

  predicate LoginsInv(b: Book) {
    && (forall i :: 0 <= i < |b.logins| ==> LoginSound(b, b.logins[i]))
    && (forall i, j :: 0 <= i < j < |b.logins| ==> b.logins[i].state != b.logins[j].state)
  }

  predicate BookInv(b: Book) {
    UrlsInv(b) && LoginsInv(b) && b.used <= b.consumed <= b.started.Keys
  }

  predicate Inv(s: State) {
    && Unique(s.users)
    && PcsInv(s.saved, s.book, s.pcs) && StoreInv(s.saved, s.book) && BookInv(s.book)
  }

  /** What was accepted did pass the gate, for the request it belongs to. */
  predicate AcceptedInv(cfg: Config, b: Book) {
    forall x :: x in b.accepted ==> x.state in b.started && Judge(cfg, b.started[x.state], x.token) == Ok(x.user)
  }

  /** One client moved or retired; everyone else's claims still hold. */
  lemma PcsAfter(saved: map<string, Saved>, b: Book, pcs: map<Client, Pc>,
                 saved': map<string, Saved>, b': Book, c: Client, pc: Option<Pc>)
    requires PcsInv(saved, b, pcs)
    requires forall d :: d in pcs && d != c ==> PcInv(saved', b', pcs[d])
    requires pc.Some? ==> PcInv(saved', b', pc.value) && forall d :: d in pcs && d != c ==>
               pcs[d].state != pc.value.state
    ensures PcsInv(saved', b', match pc case Some(p) => pcs[c := p] case None => pcs - {c})
  {
  }

  lemma StartKeepsInv(s: State, c: Client, state: string, verifier: string, nonce: string)
    requires Inv(s) && c !in s.pcs
    ensures Inv(Begin(s, c, BeginStart(state, verifier, nonce)))
  {
    if state !in s.book.started {
      var p := Pending(verifier, nonce, s.clock);
      var b := s.book.(started := s.book.started[state := p]);
      forall d | d in s.pcs ensures PcInv(s.saved, b, s.pcs[d]) && s.pcs[d].state != state {
        assert PcInv(s.saved, s.book, s.pcs[d]);
      }
      PcsAfter(s.saved, s.book, s.pcs, s.saved, b, c, Some(Saving(state, p)));
      StartKeepsBook(s.book, state, p);
    }
  }

  lemma StartKeepsBook(b: Book, state: string, p: Pending)
    requires BookInv(b) && state !in b.started
    ensures BookInv(b.(started := b.started[state := p]))
  {
    var b' := b.(started := b.started[state := p]);
    forall i | 0 <= i < |b.logins| ensures LoginSound(b', b.logins[i]) {
      assert LoginSound(b, b.logins[i]);
    }
  }

  lemma TakeKeepsInv(s: State, c: Client, state: string, code: string, fate: Fate)
    requires Inv(s) && c !in s.pcs
    ensures Inv(TakeState(s, c, state, code, fate))
  {
    if state in s.saved {
      var saved, b := s.saved - {state}, s.book.(consumed := s.book.consumed + {state});
      forall d | d in s.pcs ensures PcInv(saved, b, s.pcs[d]) && s.pcs[d].state != state {
        assert PcInv(s.saved, s.book, s.pcs[d]);
      }
      assert StartedAs(s.book, state, s.saved[state].pending);
      PcsAfter(s.saved, s.book, s.pcs, saved, b, c, None);
      assert s.pcs - {c} == s.pcs;
      PcsAfter(s.saved, s.book, s.pcs, saved, b, c, Some(Taken(state, s.saved[state].pending, code)));
      TakeKeepsBook(s.book, state);
    }
  }

  lemma TakeKeepsBook(b: Book, state: string)
    requires BookInv(b) && state in b.started
    ensures BookInv(b.(consumed := b.consumed + {state}))
  {
    var b' := b.(consumed := b.consumed + {state});
    forall i | 0 <= i < |b.logins| ensures LoginSound(b', b.logins[i]) {
      assert LoginSound(b, b.logins[i]);
    }
  }

  lemma SaveKeepsInv(s: State, c: Client, fate: Fate)
    requires Inv(s) && c in s.pcs && s.pcs[c].Saving?
    ensures Inv(SaveState(s, c, s.pcs[c], fate))
  {
    var pc, t := s.pcs[c], SaveState(s, c, s.pcs[c], fate);
    assert PcInv(s.saved, s.book, pc);
    forall d | d in s.pcs && d != c ensures PcInv(t.saved, t.book, s.pcs[d]) {
      assert PcInv(s.saved, s.book, s.pcs[d]) && s.pcs[d].state != pc.state;
    }
    PcsAfter(s.saved, s.book, s.pcs, t.saved, t.book, c, None);
    UrlKeepsBook(s.book, pc.state);
  }

  lemma UrlKeepsBook(b: Book, state: string)
    requires BookInv(b) && state in b.started
    ensures BookInv(b.(urls := b.urls[state := AuthUrl(state, S256(b.started[state].verifier),
                                                       b.started[state].nonce)]))
  {
    var b' := b.(urls := b.urls[state := AuthUrl(state, S256(b.started[state].verifier), b.started[state].nonce)]);
    forall i | 0 <= i < |b.logins| ensures LoginSound(b', b.logins[i]) {
      assert LoginSound(b, b.logins[i]);
    }
  }

  /** A client that stays in its place in the order of things, or stops. */
  lemma MoveKeepsInv(s: State, c: Client, pc: Option<Pc>)
    requires Inv(s) && c in s.pcs
    requires pc.Some? ==> PcInv(s.saved, s.book, pc.value) && pc.value.state == s.pcs[c].state
    ensures pc.Some? ==> Inv(At(s, c, pc.value))
    ensures pc.None? ==> Inv(Idle(s, c))
  {
    PcsAfter(s.saved, s.book, s.pcs, s.saved, s.book, c, pc);
  }

  lemma NowKeepsInv(s: State, c: Client)
    requires Inv(s) && c in s.pcs && s.pcs[c].Taken?
    ensures Inv(Continue(s, c, s.pcs[c], Now))
  {
    var pc := s.pcs[c];
    assert PcInv(s.saved, s.book, pc);
    MoveKeepsInv(s, c, None);
    if Current(pc.pending, s.clock) {
      MoveKeepsInv(s, c, Some(Exchanging(pc.state, pc.pending, s.clock)));
    }
  }

  lemma AcceptKeepsBook(b: Book, x: Accepted)
    requires BookInv(b)
    ensures BookInv(b.(accepted := b.accepted + {x}))
  {
    var b' := b.(accepted := b.accepted + {x});
    forall i | 0 <= i < |b.logins| ensures LoginSound(b', b.logins[i]) {
      assert LoginSound(b, b.logins[i]);
    }
  }

  lemma ActOnKeepsInv(s: State, c: Client, token: IdToken, verdict: Result<User, Refusal>)
    requires Inv(s) && c in s.pcs && s.pcs[c].Exchanging?
    ensures Inv(ActOn(s, c, s.pcs[c], token, verdict))
  {
    var pc := s.pcs[c];
    assert PcInv(s.saved, s.book, pc);
    MoveKeepsInv(s, c, None);
    if verdict.Ok? {
      var x := Accepted(pc.state, token, verdict.value);
      var b := s.book.(accepted := s.book.accepted + {x});
      forall d | d in s.pcs ensures PcInv(s.saved, b, s.pcs[d]) {
        assert PcInv(s.saved, s.book, s.pcs[d]);
      }
      AcceptKeepsBook(s.book, x);
      PcsAfter(s.saved, s.book, s.pcs, s.saved, b, c,
               Some(Upserting(pc.state, pc.pending, pc.now, token, verdict.value)));
    }
  }

  lemma LoginKeepsBook(b: Book, l: Login)
    requires BookInv(b) && l.state !in b.used && l.state in b.consumed && l.state in b.started
    requires b.started[l.state].verifier == l.verifier && Current(b.started[l.state], l.at)
    requires Accepted(l.state, l.token, l.user) in b.accepted
    ensures BookInv(b.(logins := b.logins + [l], used := b.used + {l.state}))
  {
    var b' := b.(logins := b.logins + [l], used := b.used + {l.state});
    forall i | 0 <= i < |b.logins| ensures LoginSound(b', b.logins[i]) && b.logins[i].state != l.state {
      assert LoginSound(b, b.logins[i]);
    }
    forall i | 0 <= i < |b'.logins| ensures LoginSound(b', b'.logins[i]) {
      assert i < |b.logins| ==> b'.logins[i] == b.logins[i];
    }
  }

  lemma UpsertKeepsInv(s: State, c: Client, newId: Id, fate: Fate)
    requires Inv(s) && c in s.pcs && s.pcs[c].Upserting? && s.pcs[c].user.identity.Some?
    ensures Inv(UpsertUser(s, c, s.pcs[c], newId, fate))
  {
    var pc, t := s.pcs[c], UpsertUser(s, c, s.pcs[c], newId, fate);
    assert PcInv(s.saved, s.book, pc);
    var r := UpsertOIDC(s.users, newId, pc.user, s.clock);
    UpsertKeepsUnique(s.users, newId, pc.user, s.clock);
    MoveKeepsInv(s, c, None);
    if t.book != s.book {
      var l := Login(pc.state, pc.pending.verifier, pc.now, pc.token, pc.user, r.stored.value);
      LoginKeepsBook(s.book, l);
      forall d | d in s.pcs && d != c ensures PcInv(s.saved, t.book, s.pcs[d]) {
        assert PcInv(s.saved, s.book, s.pcs[d]) && s.pcs[d].state != pc.state;
      }
      PcsAfter(s.saved, s.book, s.pcs, s.saved, t.book, c, None);
    }
  }

  lemma ContinueKeepsInv(s: State, c: Client, a: Action)
    requires Inv(s) && c in s.pcs
    ensures Inv(Continue(s, c, s.pcs[c], a))
  {
    var pc := s.pcs[c];
    match a
    case Save(fate) =>
      if pc.Saving? {
        SaveKeepsInv(s, c, fate);
      }
    case Now =>
      if pc.Taken? {
        NowKeepsInv(s, c);
      }
    case Exchange(token) =>
      if pc.Exchanging? {
        MoveKeepsInv(s, c, None);
        if token.Some? {
          ActOnKeepsInv(s, c, token.value, Judge(s.cfg, pc.pending, token.value));
        }
      }
    case Upsert(newId, fate) =>
      if pc.Upserting? && pc.user.identity.Some? {
        UpsertKeepsInv(s, c, newId, fate);
      }
    case Crash => MoveKeepsInv(s, c, None);
    case _ =>
  }

  lemma EnvironmentKeepsInv(s: State, step: Step)
    requires Inv(s) && !step.Do?
    ensures Inv(Next(s, step))
  {
    if step.Disable? {
      SetDisabledKeepsAccounts(s.users, step.id, step.disabled);
    } else if step.AddUser? {
      CreateUserKeepsAccounts(s.users, step.id, step.user);
    } else {
      var saved := Next(s, step).saved;
      forall d | d in s.pcs ensures PcInv(saved, s.book, s.pcs[d]) {
        assert PcInv(s.saved, s.book, s.pcs[d]);
      }
    }
  }

  lemma StepKeepsInv(s: State, step: Step)
    requires Inv(s)
    ensures Inv(Next(s, step))
  {
    if !step.Do? {
      EnvironmentKeepsInv(s, step);
    } else if step.client in s.pcs {
      ContinueKeepsInv(s, step.client, step.action);
    } else {
      match step.action
      case BeginStart(state, verifier, nonce) => StartKeepsInv(s, step.client, state, verifier, nonce);
      case Take(state, code, fate) => TakeKeepsInv(s, step.client, state, code, fate);
      case _ =>
    }
  }

  function Run(s: State, steps: seq<Step>): (t: State)
    requires Inv(s)
    ensures Inv(t)
  {
    if steps == [] then s
    else
      var before := Run(s, steps[..|steps| - 1]);
      StepKeepsInv(before, steps[|steps| - 1]);
      Next(before, steps[|steps| - 1])
  }

  predicate TokenArrives(pc: Pc, a: Action) {
    pc.Exchanging? && a.Exchange? && a.token.Some?
  }

  lemma ContinueRequests(s: State, c: Client, pc: Pc, a: Action)
    requires Unique(s.users)
    ensures SameRequests(s, Continue(s, c, pc, a))
    ensures TokenArrives(pc, a) || Continue(s, c, pc, a).book.accepted == s.book.accepted
  {
  }

  lemma RunOne(s: State, steps: seq<Step>, step: Step)
    requires Inv(s)
    ensures Run(s, steps + [step]) == Next(Run(s, steps), step)
  {
    assert (steps + [step])[..|steps|] == steps;
  }

  lemma {:induction false} RunConcat(s: State, a: seq<Step>, b: seq<Step>)
    requires Inv(s)
    ensures Run(s, a + b) == Run(Run(s, a), b)
  {
    if b == [] {
      assert a + b == a;
    } else {
      RunConcat(s, a, b[..|b| - 1]);
      assert (a + b)[..|a + b| - 1] == a + b[..|b| - 1];
    }
  }

  /** Some run leads from `s` to `t`. */
  ghost predicate Leads(s: State, t: State) {
    Inv(s) && exists steps :: Run(s, steps) == t
  }

  lemma LeadsRefl(s: State)
    requires Inv(s)
    ensures Leads(s, s)
  {
    assert Run(s, []) == s;
  }

  lemma LeadsStep(s: State, t: State, step: Step)
    requires Leads(s, t)
    ensures Inv(t) && Leads(s, Next(t, step)) && Inv(Next(t, step))
  {
    var steps :| Run(s, steps) == t;
    RunOne(s, steps, step);
    assert Run(s, steps + [step]) == Next(t, step);
  }

  lemma LeadsTrans(s: State, t: State, u: State)
    requires Leads(s, t) && Leads(t, u)
    ensures Leads(s, u)
  {
    var a :| Run(s, a) == t;
    var b :| Run(t, b) == u;
    RunConcat(s, a, b);
    assert Run(s, a + b) == u;
  }

  predicate Foreign(me: Client, steps: seq<Step>) {
    forall i :: 0 <= i < |steps| ==> steps[i].Do? ==> steps[i].client != me
  }

  predicate SamePlace(s: State, t: State, me: Client) {
    (me in s.pcs <==> me in t.pcs) && (me in s.pcs ==> s.pcs[me] == t.pcs[me])
  }

  /** No one else moves a client, and the configuration is fixed. */
  lemma ForeignStep(s: State, step: Step, me: Client)
    requires Unique(s.users) && (step.Do? ==> step.client != me)
    ensures SamePlace(s, Next(s, step), me) && Next(s, step).cfg == s.cfg
  {
    if step.Do? && step.client in s.pcs {
      ContinueMovesOne(s, step.client, s.pcs[step.client], step.action, me);
    }
  }

  lemma ContinueMovesOne(s: State, c: Client, pc: Pc, a: Action, me: Client)
    requires Unique(s.users) && c != me
    ensures SamePlace(s, Continue(s, c, pc, a), me) && Continue(s, c, pc, a).cfg == s.cfg
  {
    var t := Continue(s, c, pc, a);
    assert OnlyMoves(s, t, c);
    assert me in s.pcs <==> me in s.pcs - {c};
    assert me in t.pcs <==> me in t.pcs - {c};
    assert me in s.pcs ==> (s.pcs - {c})[me] == s.pcs[me];
    assert me in t.pcs ==> (t.pcs - {c})[me] == t.pcs[me];
  }

  /** Requests are never forgotten or altered, and only a token exchange accepts anything. */
  lemma OnlyExchangeAccepts(s: State, step: Step)
    requires Unique(s.users)
    ensures Next(s, step).cfg == s.cfg
    ensures forall st :: st in s.book.started ==> StartedAs(Next(s, step).book, st, s.book.started[st])
    ensures Next(s, step).book.accepted == s.book.accepted
         || (step.Do? && step.client in s.pcs && TokenArrives(s.pcs[step.client], step.action))
  {
    if step.Do? && step.client in s.pcs {
      ContinueRequests(s, step.client, s.pcs[step.client], step.action);
    }
  }

  lemma ActOnKeepsAccepted(s: State, c: Client, token: IdToken, verdict: Result<User, Refusal>)
    requires Inv(s) && AcceptedInv(s.cfg, s.book) && c in s.pcs && s.pcs[c].Exchanging?
    requires verdict == Judge(s.cfg, s.pcs[c].pending, token)
    ensures AcceptedInv(s.cfg, ActOn(s, c, s.pcs[c], token, verdict).book)
  {
    assert PcInv(s.saved, s.book, s.pcs[c]);
    assert StartedAs(s.book, s.pcs[c].state, s.pcs[c].pending);
  }

  lemma StepKeepsAccepted(s: State, step: Step)
    requires Inv(s) && AcceptedInv(s.cfg, s.book)
    ensures AcceptedInv(Next(s, step).cfg, Next(s, step).book)
  {
    OnlyExchangeAccepts(s, step);
    if step.Do? && step.client in s.pcs && TokenArrives(s.pcs[step.client], step.action) {
      var token := step.action.token.value;
      ActOnKeepsAccepted(s, step.client, token, Judge(s.cfg, s.pcs[step.client].pending, token));
    } else {
      forall x | x in s.book.accepted ensures StartedAs(Next(s, step).book, x.state, s.book.started[x.state]) {
      }
    }
  }

  lemma {:induction false} RunKeepsAccepted(s: State, steps: seq<Step>)
    requires Inv(s) && AcceptedInv(s.cfg, s.book)
    ensures AcceptedInv(Run(s, steps).cfg, Run(s, steps).book)
  {
    if steps != [] {
      RunKeepsAccepted(s, steps[..|steps| - 1]);
      StepKeepsAccepted(Run(s, steps[..|steps| - 1]), steps[|steps| - 1]);
    }
  }

  /** Over any interleaving: logins use pairwise distinct states; each state was begun by a
      Start less than five minutes before the login's clock reading; the verifier presented is
      the one whose S256 value went out with that state; and the token carried that Start's
      nonce and passed the group gate. */
  lemma LoginsAreSound(s: State, steps: seq<Step>, i: nat)
    requires Inv(s) && AcceptedInv(s.cfg, s.book)
    requires i < |Run(s, steps).book.logins|
    ensures var b, l := Run(s, steps).book, Run(s, steps).book.logins[i];
            && (forall j :: 0 <= j < |b.logins| && j != i ==> b.logins[j].state != l.state)
            && l.state in b.started
            && b.started[l.state].createdAt <= l.at < b.started[l.state].createdAt + STATE_TTL
            && l.verifier == b.started[l.state].verifier
            && (l.state in b.urls ==>
                  b.urls[l.state].challenge == S256(l.verifier) && b.urls[l.state].nonce == l.token.nonce)
            && Judge(Run(s, steps).cfg, b.started[l.state], l.token) == Ok(l.user)
  {
    RunKeepsAccepted(s, steps);
    var t := Run(s, steps);
    assert LoginSound(t.book, t.book.logins[i]);
    AcceptedToken(t.cfg, t.book.started[t.book.logins[i].state], t.book.logins[i].token);
  }

  // --- What a sequence of logins does to an account ----------------------------------------

  lemma UpsertKeepsAccount(s: State, c: Client, newId: Id, fate: Fate, id: Id)
    requires Inv(s) && id in s.users && c in s.pcs && s.pcs[c].Upserting? && s.pcs[c].user.identity.Some?
    ensures var users := UpsertUser(s, c, s.pcs[c], newId, fate).users;
            id in users && SameAccount(s.users[id], users[id]) && users[id].disabled == s.users[id].disabled
  {
    UpsertKeepsAccounts(s.users, newId, s.pcs[c].user, s.clock);
  }

  lemma OnlyThreeStepsChangeUsers(s: State, step: Step)
    requires Unique(s.users)
    ensures Next(s, step).users == s.users || step.Disable? || step.AddUser?
         || (step.Do? && step.client in s.pcs && s.pcs[step.client].Upserting? && step.action.Upsert?
             && s.pcs[step.client].user.identity.Some?)
  {
  }

  /** No step but an administrator's changes whether an account is disabled, and none at all
      changes its id, name or identity or removes it. */
  lemma StepKeepsAccount(s: State, step: Step, id: Id)
    requires Inv(s) && id in s.users
    ensures id in Next(s, step).users && SameAccount(s.users[id], Next(s, step).users[id])
    ensures !(step.Disable? && step.id == id) ==> Next(s, step).users[id].disabled == s.users[id].disabled
  {
    OnlyThreeStepsChangeUsers(s, step);
    if step.Disable? {
      SetDisabledKeepsAccounts(s.users, step.id, step.disabled);
    } else if step.AddUser? {
      CreateUserKeepsAccounts(s.users, step.id, step.user);
    } else if Next(s, step).users != s.users {
      UpsertKeepsAccount(s, step.client, step.action.newId, step.action.fate, id);
    }
  }

  /** Over any run an account keeps its id, username and identity, and its disabled flag is what
      it was unless an administrator set it. */
  lemma {:induction false} AccountIsStable(s: State, steps: seq<Step>, id: Id)
    requires Inv(s) && id in s.users
    ensures var t := Run(s, steps);
            && id in t.users && SameAccount(s.users[id], t.users[id])
            && ((forall i :: 0 <= i < |steps| ==> !(steps[i].Disable? && steps[i].id == id)) ==>
                  t.users[id].disabled == s.users[id].disabled)
  {
    if steps != [] {
      var init := steps[..|steps| - 1];
      AccountIsStable(s, init, id);
      StepKeepsAccount(Run(s, init), steps[|steps| - 1], id);
    }
  }

  // --- Whose administrator rights an account has -------------------------------------------

  /** The accepted token this step upserts an account for; None for any other step, and for an
      upsert that fails or meets a taken name or id. */
  function UpsertOf(s: State, step: Step): Option<Accepted> {
    if step.Do? && step.client in s.pcs && s.pcs[step.client].Upserting? && step.action.Upsert?
      && !step.action.fate.Fails?
    then
      var pc := s.pcs[step.client];
      if pc.user.identity.Some?
         && (HasIdentity(s.users, pc.user.identity.value)
             || (step.action.newId !in s.users && UsernameFree(s.users, pc.user.username)))
      then Some(Accepted(pc.state, pc.token, pc.user))
      else None
    else None
  }

  /** The last one in a run for this identity. */
  function LatestUpsert(s: State, steps: seq<Step>, identity: (string, string)): Option<Accepted>
    requires Inv(s)
  {
    if steps == [] then None
    else
      var init := steps[..|steps| - 1];
      var x := UpsertOf(Run(s, init), steps[|steps| - 1]);
      if x.Some? && x.value.user.identity == Some(identity) then x else LatestUpsert(s, init, identity)
  }

  /** The token's groups, as the configured claim lists them, include the admin group. */
  predicate AdminBy(cfg: Config, token: IdToken) {
    var claims := DecodeClaims(token.raw, cfg.groupClaim);
    claims.Some? && cfg.adminGroup != "" && cfg.adminGroup in claims.value.groups
  }

  /** An upsert gives its account the rights of its user and leaves every other row alone. */
  lemma UpsertSetsAdmin(s: State, step: Step)
    requires Inv(s) && UpsertOf(s, step).Some?
    ensures var u, users := UpsertOf(s, step).value.user, Next(s, step).users;
            && s.users.Keys <= users.Keys && u.identity.Some? && HasIdentity(users, u.identity.value)
            && (forall id :: id in users && users[id].identity == u.identity ==> users[id].isAdmin == u.isAdmin)
            && (forall id :: id in users && users[id].identity != u.identity ==>
                  id in s.users && users[id] == s.users[id])
  {
    var pc := s.pcs[step.client];
    UpsertKeepsAccounts(s.users, step.action.newId, pc.user, s.clock);
    var r := UpsertOIDC(s.users, step.action.newId, pc.user, s.clock);
    assert Next(s, step).users == r.table;
    assert r.table[r.stored.value].identity == pc.user.identity;
  }

  /** No other step touches anyone's rights, or gives out an identity that is taken. */
  lemma OthersKeepAdmin(s: State, step: Step)
    requires Inv(s) && UpsertOf(s, step).None?
    ensures var users := Next(s, step).users;
            && (forall id :: id in s.users ==>
                  id in users && users[id].isAdmin == s.users[id].isAdmin && users[id].identity == s.users[id].identity)
            && (forall id :: id in users && id !in s.users && users[id].identity.Some? ==>
                  !HasIdentity(s.users, users[id].identity.value))
  {
    OnlyThreeStepsChangeUsers(s, step);
    if step.Disable? {
      SetDisabledKeepsAccounts(s.users, step.id, step.disabled);
    } else if step.AddUser? {
      CreateUserKeepsAccounts(s.users, step.id, step.user);
    } else if Next(s, step).users != s.users {
      UpsertKeepsAccounts(s.users, step.action.newId, s.pcs[step.client].user, s.clock);
    }
  }

  ghost predicate RightsFollow(start: Table, users: Table, identity: (string, string), latest: Option<Accepted>) {
    && start.Keys <= users.Keys && (latest.Some? ==> HasIdentity(users, identity))
    && (forall id :: id in users && users[id].identity == Some(identity) ==>
          && (latest.Some? ==> users[id].isAdmin == latest.value.user.isAdmin)
          && (latest.None? && id in start ==> users[id].isAdmin == start[id].isAdmin))
  }

  lemma {:induction false} RightsFollowLatest(s: State, steps: seq<Step>, identity: (string, string))
    requires Inv(s)
    ensures RightsFollow(s.users, Run(s, steps).users, identity, LatestUpsert(s, steps, identity))
  {
    if steps != [] {
      RightsFollowLatest(s, steps[..|steps| - 1], identity);
      RightsStep(s.users, Run(s, steps[..|steps| - 1]), steps[|steps| - 1], identity,
                 LatestUpsert(s, steps[..|steps| - 1], identity));
    }
  }

  lemma RightsStep(start: Table, s: State, step: Step, identity: (string, string), latest: Option<Accepted>)
    requires Inv(s) && RightsFollow(start, s.users, identity, latest)
    ensures var x := UpsertOf(s, step);
            RightsFollow(start, Next(s, step).users, identity,
                         if x.Some? && x.value.user.identity == Some(identity) then x else latest)
  {
    if UpsertOf(s, step).Some? {
      UpsertSetsAdmin(s, step);
      if HasIdentity(s.users, identity) {
        KeepsIdentity(s, step, identity);
      }
    } else {
      OthersKeepAdmin(s, step);
      if HasIdentity(s.users, identity) {
        KeepsIdentity(s, step, identity);
      }
    }
  }

  lemma KeepsIdentity(s: State, step: Step, identity: (string, string))
    requires Inv(s) && HasIdentity(s.users, identity)
    ensures HasIdentity(Next(s, step).users, identity)
  {
    var id :| id in s.users && s.users[id].identity == Some(identity);
    StepKeepsAccount(s, step, id);
  }

  lemma {:induction false} LatestWasAccepted(s: State, steps: seq<Step>, identity: (string, string))
    requires Inv(s) && LatestUpsert(s, steps, identity).Some?
    ensures LatestUpsert(s, steps, identity).value in Run(s, steps).book.accepted
    ensures LatestUpsert(s, steps, identity).value.user.identity == Some(identity)
  {
    var t, step := Run(s, steps[..|steps| - 1]), steps[|steps| - 1];
    var x := UpsertOf(t, step);
    AcceptedStay(t, step);
    if x.Some? && x.value.user.identity == Some(identity) {
      assert PcInv(t.saved, t.book, t.pcs[step.client]);
    } else {
      LatestWasAccepted(s, steps[..|steps| - 1], identity);
    }
  }

  lemma AcceptedStay(s: State, step: Step)
    requires Inv(s)
    ensures s.book.accepted <= Next(s, step).book.accepted
  {
    OnlyExchangeAccepts(s, step);
  }

  /** Over any run, the account of an identity has administrator rights exactly when the token of
      the last login whose upsert took effect carries the admin group, that token having passed
      the nonce, issuer and group checks for the request it answered; without such a login the
      rights are what they were. */
  lemma AdminFollowsLatestLogin(s: State, steps: seq<Step>, id: Id, identity: (string, string))
    requires Inv(s) && AcceptedInv(s.cfg, s.book)
    requires id in Run(s, steps).users && Run(s, steps).users[id].identity == Some(identity)
    ensures var t, latest := Run(s, steps), LatestUpsert(s, steps, identity);
            && (latest.Some? ==>
                  && latest.value in t.book.accepted && latest.value.state in t.book.started
                  && Judge(t.cfg, t.book.started[latest.value.state], latest.value.token) == Ok(latest.value.user)
                  && (t.users[id].isAdmin <==> AdminBy(t.cfg, latest.value.token)))
            && (latest.None? && id in s.users ==> t.users[id].isAdmin == s.users[id].isAdmin)
  {
    RightsFollowLatest(s, steps, identity);
    RunKeepsAccepted(s, steps);
    var t, latest := Run(s, steps), LatestUpsert(s, steps, identity);
    if latest.Some? {
      LatestWasAccepted(s, steps, identity);
      AcceptedToken(t.cfg, t.book.started[latest.value.state], latest.value.token);
    }
  }

  // --- From the beginning ------------------------------------------------------------------

  /** A fresh deployment over some users. */
  function Initial(clock: int, cfg: Config, users: Table): State {
    State(clock, cfg, map[], users, map[], [], Book(map[], map[], {}, {}, [], {}))
  }

  lemma InitialIsSound(clock: int, cfg: Config, users: Table)
    requires Unique(users)
    ensures Inv(Initial(clock, cfg, users)) && AcceptedInv(cfg, Initial(clock, cfg, users).book)
  {
  }
}
