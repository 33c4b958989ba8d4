/** Start and Complete themselves (internal/auth/oidc.go), each proved to be a run of the
    machine in module Oidc with whatever others do in between. */
module OidcFlow {
  import opened Base
  import opened Users
  import opened Claims
  import opened Oidc

  datatype OidcError =
    | StateInvalid | BackendFailed | CodeMissing | ExchangeFailed | NonceFailed | IdentityInvalid
    | NotAuthorised | UserExists

  /** What others do before each outside call of Complete, and how those calls end: the token
      endpoint yields a verified ID token or nothing. */
  datatype Script = Script(takeFate: Fate, beforeClock: seq<Step>, beforeExchange: seq<Step>, token: Option<IdToken>,
                           beforeUpsert: seq<Step>, newId: Id, upsertFate: Fate)

  predicate ForeignScript(me: Client, x: Script) {
    Foreign(me, x.beforeClock) && Foreign(me, x.beforeExchange) && Foreign(me, x.beforeUpsert)
  }

  predicate Quiet(x: Script) {
    x.beforeClock == [] && x.beforeExchange == [] && x.beforeUpsert == []
  }

  /** The upsert stores an account for this user, and it is not disabled. */
  predicate Admits(s: State, newId: Id, user: User)
    requires Unique(s.users) && user.identity.Some?
  {
    UpsertKeepsAccounts(s.users, newId, user, s.clock);
    var up := UpsertOIDC(s.users, newId, user, s.clock);
    up.stored.Some? && !up.table[up.stored.value].disabled
  }

  /** The exchange yields a token that passes the checks, for a user that is admitted. */
  predicate TokenAdmits(s: State, pending: Pending, x: Script)
    requires Unique(s.users)
  {
    && x.token.Some? && Judge(s.cfg, pending, x.token.value).Ok? && x.upsertFate.Lands?
    && Judge(s.cfg, pending, x.token.value).value.identity.Some?
    && Admits(s, x.newId, Judge(s.cfg, pending, x.token.value).value)
  }

  class Flow {
    var s: State

    constructor (initial: State)
      requires Inv(initial)
      ensures s == initial
    {
      s := initial;
    }

    method Others(me: Client, steps: seq<Step>)
      requires Inv(s) && Foreign(me, steps)
      modifies this
      ensures Inv(s) && Leads(old(s), s) && SamePlace(old(s), s, me) && s.cfg == old(s).cfg
      ensures steps == [] ==> s == old(s)
    {
      LeadsRefl(s);
      for i := 0 to |steps|
        invariant Inv(s) && Leads(old(s), s) && SamePlace(old(s), s, me) && s.cfg == old(s).cfg
        invariant i == 0 ==> s == old(s)
      {
        ForeignStep(s, steps[i], me);
        LeadsStep(old(s), s, steps[i]);
        s := Next(s, steps[i]);
      }
    }

    method Move(me: Client, pc: Pc)
      modifies this
      ensures s == At(old(s), me, pc)
    {
      s := s.(pcs := s.pcs[me := pc]);
    }

    method Retire(me: Client)
      modifies this
      ensures s == Idle(old(s), me)
    {
      s := s.(pcs := s.pcs - {me});
    }

    method Record(e: Event)
      modifies this
      ensures s == Note(old(s), e)
    {
      s := s.(events := s.events + [e]);
    }

    /** Start with the three tokens it drew: it succeeds exactly when the save does, and then
        the redirect carries the state, the S256 value of the verifier and the nonce that were
        saved together. */
    method Start(me: Client, state: string, verifier: string, nonce: string, gap: seq<Step>, fate: Fate)
      returns (r: Result<AuthUrl, OidcError>)
      requires Inv(s) && me !in s.pcs && state !in s.book.started && Foreign(me, gap)
      modifies this
      ensures Inv(s) && Leads(old(s), s) && me !in s.pcs
      ensures r.Ok? ==> && r.value == AuthUrl(state, S256(verifier), nonce)
                        && state in s.book.urls && s.book.urls[state] == r.value
                        && state in s.saved && s.saved[state].pending == Pending(verifier, nonce, old(s).clock)
                        && s.saved[state].deadline == s.clock + STATE_TTL
      ensures r.Ok? <==> fate.Lands? && ValidState(state, Pending(verifier, nonce, old(s).clock))
    {
      LeadsRefl(s);
      var pending := Pending(verifier, nonce, s.clock);
      s := s.(book := s.book.(started := s.book.started[state := pending]));
      Move(me, Saving(state, pending));
      assert s == Next(old(s), Do(me, BeginStart(state, verifier, nonce)));
      LeadsStep(old(s), old(s), Do(me, BeginStart(state, verifier, nonce)));
      ghost var begun := s;
      r := Publish(me, state, pending, gap, fate);
      LeadsTrans(old(s), begun, s);
    }

    /** The save and the redirect. */
    method Publish(me: Client, state: string, pending: Pending, gap: seq<Step>, fate: Fate)
      returns (r: Result<AuthUrl, OidcError>)
      requires Inv(s) && Foreign(me, gap) && me in s.pcs && s.pcs[me] == Saving(state, pending)
      modifies this
      ensures Inv(s) && Leads(old(s), s) && me !in s.pcs
      ensures r.Ok? ==> && r.value == AuthUrl(state, S256(pending.verifier), pending.nonce)
                        && state in s.book.urls && s.book.urls[state] == r.value
                        && state in s.saved && s.saved[state] == Saved(pending, s.clock + STATE_TTL)
      ensures r.Ok? <==> fate.Lands? && ValidState(state, pending)
    {
      Others(me, gap);
      ghost var before := s;
      LeadsStep(old(s), before, Do(me, Save(fate)));
      assert Next(before, Do(me, Save(fate))) == SaveState(before, me, before.pcs[me], fate);
      r := SaveAndRedirect(me, state, pending, fate);
    }

    method SaveAndRedirect(me: Client, state: string, pending: Pending, fate: Fate)
      returns (r: Result<AuthUrl, OidcError>)
      requires me in s.pcs && s.pcs[me] == Saving(state, pending)
      modifies this
      ensures s == SaveState(old(s), me, old(s).pcs[me], fate)
      ensures r.Ok? ==> && r.value == AuthUrl(state, S256(pending.verifier), pending.nonce)
                        && state in s.book.urls && s.book.urls[state] == r.value
                        && state in s.saved && s.saved[state] == Saved(pending, s.clock + STATE_TTL)
      ensures r.Ok? <==> fate.Lands? && ValidState(state, pending)
    {
      var failed := SaveKey(state, pending, fate);
      if failed.Some? {
        Retire(me);
        return Err(failed.value);
      }
      var url := AuthUrl(state, S256(pending.verifier), pending.nonce);
      s := s.(book := s.book.(urls := s.book.urls[state := url]));
      Retire(me);
      return Ok(url);
    }

    /** OIDCStateStore.Save. */
    method SaveKey(state: string, p: Pending, fate: Fate) returns (err: Option<OidcError>)
      modifies this
      ensures err == if !ValidState(state, p) then Some(StateInvalid) else if fate.Lands? then None
              else Some(BackendFailed)
      ensures s == if ValidState(state, p) && !fate.Fails?
                   then old(s).(saved := old(s).saved[state := Saved(p, old(s).clock + STATE_TTL)])
                   else old(s)
    {
      if !ValidState(state, p) {
        return Some(StateInvalid);
      }
      if !fate.Fails? {
        s := s.(saved := s.saved[state := Saved(p, s.clock + STATE_TTL)]);
      }
      return if fate.Lands? then None else Some(BackendFailed);
    }

    /** OIDCStateStore.Take: GETDEL, then the checks on what came back. */
    method TakeKey(state: string, fate: Fate) returns (r: Result<Pending, OidcError>)
      modifies this
      ensures s == if state == "" || fate.Fails? || state !in old(s).saved then old(s)
                   else old(s).(saved := old(s).saved - {state},
                                book := old(s).book.(consumed := old(s).book.consumed + {state}))
      ensures r.Ok? <==> && state != "" && fate.Lands? && state in old(s).saved
                         && ValidState(state, old(s).saved[state].pending)
      ensures r.Ok? ==> r.value == old(s).saved[state].pending
    {
      if state == "" {
        return Err(StateInvalid);
      }
      if fate.Fails? {
        return Err(BackendFailed);
      }
      if state !in s.saved {
        return Err(StateInvalid);
      }
      var pending := s.saved[state].pending;
      s := s.(saved := s.saved - {state}, book := s.book.(consumed := s.book.consumed + {state}));
      if fate.FailsAfter? {
        return Err(BackendFailed);
      }
      return if ValidState(state, pending) then Ok(pending) else Err(StateInvalid);
    }

    /** Complete.  A successful login is recorded last, for this state, for an enabled account
        with this token's identity and administrator flag.  Undisturbed it succeeds exactly when
        the state is saved and current, a token comes back that passes the checks, and its
        account can be stored and is not disabled. */
    method Complete(me: Client, state: string, code: string, x: Script) returns (r: Result<Id, OidcError>)
      requires Inv(s) && me !in s.pcs && ForeignScript(me, x)
      modifies this
      ensures Inv(s) && Leads(old(s), s) && me !in s.pcs
      ensures r.Ok? ==> state in old(s).saved && state !in s.saved && x.token.Some? && code != ""
      ensures r.Ok? ==> LastLogin(s, state, old(s).saved[state].pending, x.token.value, r.value)
      ensures Quiet(x) ==>
                (r.Ok? <==> && x.takeFate.Lands? && state != "" && state in old(s).saved && code != ""
                            && ValidState(state, old(s).saved[state].pending)
                            && Current(old(s).saved[state].pending, old(s).clock)
                            && TokenAdmits(old(s), old(s).saved[state].pending, x))
    {
      LeadsRefl(s);
      LeadsStep(old(s), old(s), Do(me, Take(state, code, x.takeFate)));
      var took := TakeKey(state, x.takeFate);
      if took.Err? {
        assert s == Next(old(s), Do(me, Take(state, code, x.takeFate)));
        return Err(took.error);
      }
      var pending := took.value;
      Move(me, Taken(state, pending, code));
      assert s == Next(old(s), Do(me, Take(state, code, x.takeFate)));
      ghost var taken := s;
      r := AfterTake(me, state, pending, code, x);
      LeadsTrans(old(s), taken, s);
    }

    method AfterTake(me: Client, state: string, pending: Pending, code: string, x: Script)
      returns (r: Result<Id, OidcError>)
      requires Inv(s) && ForeignScript(me, x) && me in s.pcs && s.pcs[me] == Taken(state, pending, code)
      modifies this
      ensures Inv(s) && Leads(old(s), s) && me !in s.pcs
      ensures r.Ok? ==> && x.token.Some? && code != "" && state !in s.saved
                        && LastLogin(s, state, pending, x.token.value, r.value)
      ensures Quiet(x) ==> (r.Ok? <==> Current(pending, old(s).clock) && code != "" && TokenAdmits(old(s), pending, x))
    {
      Others(me, x.beforeClock);
      ghost var before := s;
      LeadsStep(old(s), before, Do(me, Now));
      var now := s.clock;
      if !Current(pending, now) {
        Retire(me);
        assert s == Next(before, Do(me, Now));
        return Err(StateInvalid);
      }
      if code == "" {
        Retire(me);
        assert s == Next(before, Do(me, Now));
        return Err(CodeMissing);
      }
      Move(me, Exchanging(state, pending, now));
      assert s == Next(before, Do(me, Now));
      ghost var mid := s;
      r := AfterClock(me, state, pending, now, x);
      LeadsTrans(old(s), mid, s);
    }

    /** The token exchange and the decisions taken from the ID token. */
    method AfterClock(me: Client, state: string, pending: Pending, now: int, x: Script)
      returns (r: Result<Id, OidcError>)
      requires Inv(s) && ForeignScript(me, x) && me in s.pcs && s.pcs[me] == Exchanging(state, pending, now)
      modifies this
      ensures Inv(s) && Leads(old(s), s) && me !in s.pcs
      ensures r.Ok? ==> x.token.Some? && state !in s.saved && LastLogin(s, state, pending, x.token.value, r.value)
      ensures Quiet(x) ==> (r.Ok? <==> TokenAdmits(old(s), pending, x))
    {
      Others(me, x.beforeExchange);
      ghost var before := s;
      LeadsStep(old(s), before, Do(me, Exchange(x.token)));
      if x.token.None? {
        Retire(me);
        assert s == Next(before, Do(me, Exchange(x.token)));
        return Err(ExchangeFailed);
      }
      var token := x.token.value;
      var verdict := Judge(s.cfg, pending, token);
      assert Next(before, Do(me, Exchange(x.token))) == ActOn(before, me, before.pcs[me], token, verdict);
      if verdict.Err? {
        r := Refuse(me, token, verdict.error);
        assert s == ActOn(before, me, before.pcs[me], token, verdict);
        return;
      }
      var user := verdict.value;
      s := s.(book := s.book.(accepted := s.book.accepted + {Accepted(state, token, user)}));
      Move(me, Upserting(state, pending, now, token, user));
      assert s == ActOn(before, me, before.pcs[me], token, verdict);
      ghost var mid := s;
      r := AfterVerdict(me, state, pending, now, token, user, x);
      LeadsTrans(old(s), mid, s);
    }

    method Refuse(me: Client, token: IdToken, why: Refusal) returns (r: Result<Id, OidcError>)
      modifies this
      ensures r.Err?
      ensures s == match why
                   case NonceMismatch => Idle(Note(old(s), Denied(token.subject, "nonce_mismatch")), me)
                   case MissingGroup => Idle(Note(old(s), Denied(token.subject, "missing_required_group")), me)
                   case InvalidIdentity => Idle(old(s), me)
    {
      match why {
        case NonceMismatch =>
          Record(Denied(token.subject, "nonce_mismatch"));
          r := Err(NonceFailed);
        case MissingGroup =>
          Record(Denied(token.subject, "missing_required_group"));
          r := Err(NotAuthorised);
        case InvalidIdentity =>
          r := Err(IdentityInvalid);
      }
      Retire(me);
    }

    /** The upsert, the disabled check and the login event. */
    method AfterVerdict(me: Client, state: string, pending: Pending, now: int, token: IdToken, user: User, x: Script)
      returns (r: Result<Id, OidcError>)
      requires Inv(s) && ForeignScript(me, x) && me in s.pcs && s.pcs[me] == Upserting(state, pending, now, token, user)
      requires user.identity.Some?
      modifies this
      ensures Inv(s) && Leads(old(s), s) && me !in s.pcs
      ensures r.Ok? ==> state !in s.saved && LastLogin(s, state, pending, token, r.value)
      ensures x.beforeUpsert == [] ==> (r.Ok? <==> x.upsertFate.Lands? && Admits(old(s), x.newId, user))
    {
      Others(me, x.beforeUpsert);
      ghost var before := s;
      ghost var step := Do(me, Upsert(x.newId, x.upsertFate));
      assert state !in s.saved by {
        assert PcInv(s.saved, s.book, s.pcs[me]);
      }
      LeadsStep(old(s), before, step);
      assert Next(before, step) == UpsertUser(before, me, before.pcs[me], x.newId, x.upsertFate);
      r := StoreAndAdmit(me, state, pending, now, token, user, x);
    }

    /** The same, as one atomic statement and what follows it. */
    method StoreAndAdmit(me: Client, state: string, pending: Pending, now: int, token: IdToken, user: User, x: Script)
      returns (r: Result<Id, OidcError>)
      requires Unique(s.users) && me in s.pcs && s.pcs[me] == Upserting(state, pending, now, token, user)
               && user.identity.Some?
      modifies this
      ensures s == UpsertUser(old(s), me, old(s).pcs[me], x.newId, x.upsertFate)
      ensures s.saved == old(s).saved && me !in s.pcs
      ensures r.Ok? ==> LastLogin(s, state, pending, token, r.value)
      ensures r.Ok? <==> x.upsertFate.Lands? && Admits(old(s), x.newId, user)
    {
      UpsertKeepsAccounts(s.users, x.newId, user, s.clock);
      var up := UpsertOIDC(s.users, x.newId, user, s.clock);
      if x.upsertFate.Fails? || up.stored.None? {
        Retire(me);
        return Err(if up.stored.None? then UserExists else BackendFailed);
      }
      var id := up.stored.value;
      s := s.(users := up.table);
      if x.upsertFate.FailsAfter? {
        Retire(me);
        return Err(BackendFailed);
      }
      if s.users[id].disabled {
        Record(Denied(token.subject, "disabled"));
        Retire(me);
        return Err(NotAuthorised);
      }
      var login := Login(state, pending.verifier, now, token, user, id);
      s := s.(book := s.book.(logins := s.book.logins + [login], used := s.book.used + {state}));
      Record(LoggedIn(id));
      Retire(me);
      assert s.book.logins[|s.book.logins| - 1] == login;
      return Ok(id);
    }
  }

  /** The latest recorded login is for this state and token, and its account is enabled and
      carries the token's identity. */
  predicate LastLogin(s: State, state: string, pending: Pending, token: IdToken, account: Id) {
    var n := |s.book.logins|;
    && n > 0 && s.book.logins[n - 1].state == state && s.book.logins[n - 1].token == token
    && s.book.logins[n - 1].account == account && s.book.logins[n - 1].verifier == pending.verifier
    && account in s.users && !s.users[account].disabled
    && s.users[account].identity == s.book.logins[n - 1].user.identity
    && s.users[account].isAdmin == s.book.logins[n - 1].user.isAdmin
  }
}
