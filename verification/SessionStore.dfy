/** The session store's own methods (internal/store/redis/sessions.go).  Between two of its
    commands the other clients and the environment may take any steps; the caller supplies
    them, and each method is proved to be a run of the machine in module Sessions. */
module SessionStore {
  import opened Base
  import opened SessionTime
  import opened Sessions

  /** One attempt of Create's loop: what others do before and after the script, the bytes
      drawn, how the script call ends, and the same for the final DEL. */
  datatype Draw = Draw(before: seq<Step>, idBytes: Bytes32, csrfBytes: Bytes32, fate: Fate,
                       after: seq<Step>, beforeDrop: seq<Step>, dropFate: Fate)

  predicate ForeignDraw(me: Client, d: Draw) {
    Foreign(me, d.before) && Foreign(me, d.after) && Foreign(me, d.beforeDrop)
  }

  /** What others do before each clock reading or command of Get and Touch, and their fates. */
  datatype Script = Script(loadFate: Fate, beforeClock: seq<Step>, beforeSizing: seq<Step>, beforeWrite: seq<Step>,
                           writeFate: Fate, beforeCheck: seq<Step>, beforeDrop: seq<Step>, dropFate: Fate)

  predicate ForeignScript(me: Client, x: Script) {
    Foreign(me, x.beforeClock) && Foreign(me, x.beforeSizing) && Foreign(me, x.beforeWrite)
    && Foreign(me, x.beforeCheck) && Foreign(me, x.beforeDrop)
  }

  /** The run from `start` to `end` passed through `landed`, right after a create script
      added this session's key: absent before, with this deadline after. */
  ghost predicate CreatedBetween(start: State, landed: State, end: State, session: Session, entry: Entry) {
    && Leads(start, landed) && Leads(landed, end)
    && session.id in landed.keys && landed.keys[session.id] == entry
    && exists before, step :: Leads(start, before) && session.id !in before.keys && Next(before, step) == landed
  }

  /** The run passed through `landed`, where the key held this raw expiry and this deadline. */
  ghost predicate TouchedBetween(start: State, landed: State, end: State, id: string, absRaw: string, deadline: int) {
    && Leads(start, landed) && Leads(landed, end)
    && id in landed.keys && landed.keys[id].absRaw == absRaw
    && landed.keys[id].deadlineMs * MILLISECOND == deadline
  }

  /** Nobody interferes with Create's loop and its scripts land. */
  predicate Calm(draws: seq<Draw>) {
    forall i :: 0 <= i < |draws| ==> draws[i].before == [] && draws[i].after == [] && draws[i].fate.Lands?
  }

  /** Nobody interferes with Get or Touch. */
  predicate Quiet(x: Script) {
    x.beforeClock == [] && x.beforeSizing == [] && x.beforeWrite == [] && x.beforeCheck == [] && x.beforeDrop == []
  }

  /** The tokens the draws make. */
  function Ids(draws: seq<Draw>): seq<string> {
    seq(|draws|, i requires 0 <= i < |draws| => RandomToken(draws[i].idBytes))
  }

  function Csrfs(draws: seq<Draw>): seq<string> {
    seq(|draws|, i requires 0 <= i < |draws| => RandomToken(draws[i].csrfBytes))
  }

  predicate FreeAt(keys: Keys, ids: seq<string>, i: nat)
    requires i < |ids|
  {
    ids[i] !in keys && forall j :: 0 <= j < i ==> ids[j] in keys
  }

  /** The first free token becomes the session, with nothing else touched; without one the
      store is as it was. */
  predicate FirstFreeWins(s: State, t: State, draft: Draft,
                          ids: seq<string>, csrfs: seq<string>, r: Result<Session, SessionError>)
    requires |ids| == |csrfs|
  {
    && (forall i :: 0 <= i < |ids| && FreeAt(s.keys, ids, i) ==>
          r == Ok(NewSession(draft, ids[i], csrfs[i])) && t.keys == s.keys[ids[i] := NewEntry(draft, csrfs[i])])
    && ((forall i :: 0 <= i < |ids| ==> ids[i] in s.keys) ==> r == Err(NoUniqueId) && t.keys == s.keys)
  }

  lemma TokensValid(draws: seq<Draw>)
    ensures forall i :: 0 <= i < |draws| ==> ValidSessionToken(Csrfs(draws)[i])
  {
    forall i | 0 <= i < |draws| ensures ValidSessionToken(Csrfs(draws)[i]) {
      TokensAreValid(draws[i].csrfBytes);
    }
  }

  lemma WinsAt(s: State, t: State, draft: Draft, ids: seq<string>, csrfs: seq<string>, r: Result<Session, SessionError>,
               i: nat)
    requires i < |ids| == |csrfs| && FreeAt(s.keys, ids, i)
    requires r == Ok(NewSession(draft, ids[i], csrfs[i])) && t.keys == s.keys[ids[i] := NewEntry(draft, csrfs[i])]
    ensures FirstFreeWins(s, t, draft, ids, csrfs, r)
  {
    forall j | 0 <= j < |ids| && FreeAt(s.keys, ids, j) ensures j == i {
    }
  }

  /** The key holds a well-formed session that is not past its absolute expiry. */
  predicate LiveAt(s: State, id: string) {
    && id != "" && id in s.keys && ReadEntry(id, s.keys[id]).Ok?
    && s.clock < ReadEntry(id, s.keys[id]).value.absoluteExpiry
  }

  /** A Touch sized so moves just this key's deadline there, or says why there is none. */
  predicate Extended(s: State, t: State, id: string, deadline: Result<int, DeadlineError>, r: Option<SessionError>)
    requires id in s.keys
  {
    match deadline
    case Ok(d) => r.None? && t.keys == s.keys[id := s.keys[id].(deadlineMs := UnixMilli(d))]
    case Err(e) => r == Some(Deadline(e)) && t.keys == s.keys
  }

  class SessionStore {
    var s: State

    constructor (initial: State)
      ensures s == initial
    {
      s := initial;
    }

    /** Lets others act; this client stays where it is. */
    method Others(me: Client, steps: seq<Step>)
      requires Foreign(me, steps)
      modifies this
      ensures Leads(old(s), s) && SamePlace(old(s), s, me) && old(s).clock <= s.clock
      ensures steps == [] ==> s == old(s)
    {
      LeadsRefl(s);
      for i := 0 to |steps|
        invariant Leads(old(s), s) && SamePlace(old(s), s, me) && old(s).clock <= s.clock
        invariant i == 0 ==> s == old(s)
      {
        ForeignStep(s, steps[i], me);
        LeadsStep(old(s), s, steps[i]);
        s := Next(s, steps[i]);
      }
    }

    method Move(me: Client, pc: Pc)
      modifies this
      ensures s == At(old(s), me, pc)
    {
      s := s.(pcs := s.pcs[me := pc]);
    }

    method Retire(me: Client)
      modifies this
      ensures s == Idle(old(s), me)
    {
      s := s.(pcs := s.pcs - {me});
    }

    /** createSessionScript.Run */
    method RunCreate(id: string, e: Entry, fate: Fate) returns (r: Option<int>)
      modifies this
      ensures s == if fate.Fails? then old(s) else old(s).(keys := CreateScript(old(s).keys, old(s).clock, id, e).keys)
      ensures r == if fate.Lands? then Some(CreateScript(old(s).keys, old(s).clock, id, e).code) else None
    {
      var reply := CreateScript(s.keys, s.clock, id, e);
      if !fate.Fails? {
        s := s.(keys := reply.keys);
      }
      return if fate.Lands? then Some(reply.code) else None;
    }

    /** touchSessionScript.Run */
    method RunTouch(id: string, absRaw: string, deadlineMs: int, fate: Fate) returns (r: Option<int>)
      modifies this
      ensures s == if fate.Fails? then old(s)
                   else old(s).(keys := TouchScript(old(s).keys, old(s).clock, id, absRaw, deadlineMs).keys)
      ensures r == if fate.Lands? then Some(TouchScript(old(s).keys, old(s).clock, id, absRaw, deadlineMs).code)
              else None
    {
      var reply := TouchScript(s.keys, s.clock, id, absRaw, deadlineMs);
      if !fate.Fails? {
        s := s.(keys := reply.keys);
      }
      return if fate.Lands? then Some(reply.code) else None;
    }

    /** The DEL a client ends with when it finds its session expired; its error is dropped. */
    method DropAndStop(me: Client, id: string, gap: seq<Step>, fate: Fate)
      requires Foreign(me, gap) && me in s.pcs && s.pcs[me] == Dropping(id)
      modifies this
      ensures Leads(old(s), s) && me !in s.pcs && old(s).clock <= s.clock
    {
      Others(me, gap);
      ghost var before := s;
      if !fate.Fails? {
        s := s.(keys := s.keys - {id});
      }
      Retire(me);
      assert s == Next(before, Do(me, Drop(fate)));
      LeadsStep(old(s), before, Do(me, Drop(fate)));
    }

    /** Create.  When it succeeds, its run passed through `landed`, where the script had just
        added a key that was absent before and holds exactly the returned session with the
        deadline computed from the first clock reading; the last reading was still before it.
        Undisturbed and with its scripts landing, it takes the first of its four tokens that is
        free, and fails only when none is. */
    method Create(me: Client, user: nat, idleTTL: int, absoluteTTL: int, draws: seq<Draw>)
      returns (r: Result<Session, SessionError>, ghost landed: State)
      requires me !in s.pcs && |draws| == 4
      requires forall i :: 0 <= i < 4 ==> ForeignDraw(me, draws[i])
      modifies this
      ensures Leads(old(s), s) && me !in s.pcs
      ensures r == Err(AbsoluteNotPositive) <==> absoluteTTL <= 0
      ensures absoluteTTL > 0 ==>
                var abs := old(s).clock + absoluteTTL;
                var d := SessionDeadline(idleTTL, abs, old(s).clock);
                && (d.Err? ==> r == Err(Deadline(d.error)))
                && (r.Ok? ==>
                      && d.Ok? && s.clock < d.value
                      && r.value == Session(r.value.id, user, old(s).clock, abs, r.value.csrf)
                      && ValidSessionToken(r.value.csrf)
                      && CreatedBetween(old(s), landed, s, r.value,
                                        NewEntry(NewDraft(user, old(s).clock, abs, d.value), r.value.csrf)))
                && (d.Ok? && Calm(draws) ==>
                      FirstFreeWins(old(s), s, NewDraft(user, old(s).clock, abs, d.value), Ids(draws), Csrfs(draws), r))
    {
      landed := s;
      LeadsRefl(s);
      var now := s.clock;
      if absoluteTTL <= 0 {
        return Err(AbsoluteNotPositive), landed;
      }
      var abs := now + absoluteTTL;
      var deadline := SessionDeadline(idleTTL, abs, now);
      if deadline.Err? {
        return Err(Deadline(deadline.error)), landed;
      }
      var draft := NewDraft(user, now, abs, deadline.value);
      s := s.(skewed := s.skewed || !Storable(abs));
      Move(me, Trying(draft, 4));
      assert s == Next(old(s), Do(me, BeginCreate(user, idleTTL, absoluteTTL)));
      LeadsStep(old(s), old(s), Do(me, BeginCreate(user, idleTTL, absoluteTTL)));
      TokensValid(draws);
      r, landed := Attempts(me, draft, draws, Ids(draws), Csrfs(draws), old(s));
    }

    /** Create's loop over at most four random tokens. */
    method Attempts(me: Client, draft: Draft,
                    draws: seq<Draw>, ids: seq<string>, csrfs: seq<string>, ghost start: State)
      returns (r: Result<Session, SessionError>, ghost landed: State)
      requires |ids| == |csrfs| == 4 && forall i :: 0 <= i < 4 ==> ValidSessionToken(csrfs[i])
      requires |draws| == 4 && forall i :: 0 <= i < 4 ==> ForeignDraw(me, draws[i])
      requires Leads(start, s) && me in s.pcs && s.pcs[me] == Trying(draft, 4)
      modifies this
      ensures Leads(start, s) && me !in s.pcs
      ensures r.Err? ==> r.error == Backend || r.error == ExpiredDuringWrite || r.error == NoUniqueId
      ensures r.Ok? ==>
                && r.value == NewSession(draft, r.value.id, r.value.csrf) && ValidSessionToken(r.value.csrf)
                && s.clock < draft.deadline
                && CreatedBetween(start, landed, s, r.value, NewEntry(draft, r.value.csrf))
      ensures Calm(draws) && old(s).clock < draft.deadline && draft.deadline % MILLISECOND == 0 ==>
                FirstFreeWins(old(s), s, draft, ids, csrfs, r)
    {
      ghost var calm := Calm(draws) && old(s).clock < draft.deadline && draft.deadline % MILLISECOND == 0;
      var i := 0;
      landed := s;
      while i < 4
        invariant 0 <= i <= 4 && Leads(start, s)
        invariant calm ==> && s.keys == old(s).keys && s.clock == old(s).clock
                           && forall j :: 0 <= j < i ==> ids[j] in s.keys
        invariant i < 4 ==> me in s.pcs && s.pcs[me] == Trying(draft, 4 - i)
        invariant i == 4 ==> me !in s.pcs
      {
        var done: bool;
        done, r, landed := Attempt(me, draft, 4 - i, draws[i], ids[i], csrfs[i], start);
        if done {
          if calm {
            WinsAt(old(s), s, draft, ids, csrfs, r, i);
          }
          return;
        }
        i := i + 1;
      }
      r := Err(NoUniqueId);
    }

    /** The body of the loop with the two tokens drawn; not `done` when the id was taken. */
    method Attempt(me: Client, draft: Draft, left: nat, d: Draw, id: string, csrf: string, ghost start: State)
      returns (done: bool, r: Result<Session, SessionError>, ghost landed: State)
      requires ForeignDraw(me, d) && Leads(start, s)
      requires me in s.pcs && s.pcs[me] == Trying(draft, left) && 1 <= left
      modifies this
      ensures Leads(start, s)
      ensures !done && left > 1 ==> me in s.pcs && s.pcs[me] == Trying(draft, left - 1)
      ensures done || left == 1 ==> me !in s.pcs
      ensures done && r.Err? ==> r.error == Backend || r.error == ExpiredDuringWrite
      ensures done && r.Ok? ==>
                && r.value == NewSession(draft, id, csrf) && s.clock < draft.deadline
                && CreatedBetween(start, landed, s, r.value, NewEntry(draft, csrf))
      ensures d.before == [] && d.after == [] && d.fate.Lands? && old(s).clock < draft.deadline
              && draft.deadline % MILLISECOND == 0 ==>
                && s.clock == old(s).clock && (done <==> id !in old(s).keys)
                && (done ==> r.Ok? && s.keys == old(s).keys[id := NewEntry(draft, csrf)])
                && (!done ==> s.keys == old(s).keys)
    {
      r := Err(Backend);
      Others(me, d.before);
      LeadsTrans(start, old(s), s);
      ghost var before := s;
      ghost var step := Do(me, Sessions.Attempt(id, csrf, d.fate));
      LeadsStep(start, before, step);
      var code := RunCreate(id, NewEntry(draft, csrf), d.fate);
      landed := s;
      if code.None? {
        Retire(me);
        assert s == Next(before, step);
        return true, Err(Backend), s;
      }
      if code.value == 0 {
        if left == 1 {
          Retire(me);
        } else {
          Move(me, Trying(draft, left - 1));
        }
        assert s == Next(before, step);
        return false, r, s;
      }
      var session := NewSession(draft, id, csrf);
      Move(me, Created(session, draft.deadline, code.value));
      assert s == Next(before, step);
      landed := s;
      var kept := Confirm(me, session, draft.deadline, code.value, d);
      LeadsTrans(start, landed, s);
      return true, if kept then Ok(session) else Err(ExpiredDuringWrite), landed;
    }

    /** The check after a script that wrote the key, or found the deadline already past. */
    method Confirm(me: Client, session: Session, deadline: int, code: int, d: Draw) returns (ok: bool)
      requires ForeignDraw(me, d)
      requires me in s.pcs && s.pcs[me] == Created(session, deadline, code)
      modifies this
      ensures Leads(old(s), s) && me !in s.pcs
      ensures ok ==> code != -1 && s.clock < deadline
      ensures d.after == [] && code != -1 && old(s).clock < deadline ==>
                ok && s.keys == old(s).keys && s.clock == old(s).clock
    {
      Others(me, d.after);
      ghost var before := s;
      LeadsStep(old(s), before, Do(me, Now));
      if code == -1 || deadline <= s.clock {
        Move(me, Dropping(session.id));
        assert s == Next(before, Do(me, Now));
        ghost var mid := s;
        DropAndStop(me, session.id, d.beforeDrop, d.dropFate);
        LeadsTrans(old(s), mid, s);
        return false;
      }
      Retire(me);
      assert s == Next(before, Do(me, Now));
      return true;
    }

    /** `get`: reads the hash, checks it, then the clock.  On success the caller holds what was
        stored when it was read, and the clock was still before the absolute expiry. */
    method Load(me: Client, id: string, touch: Option<int>, x: Script)
      returns (r: Result<Session, SessionError>, absRaw: string)
      requires me !in s.pcs && ForeignScript(me, x)
      requires touch.Some? ==> touch.value > 0
      modifies this
      ensures Leads(old(s), s) && old(s).clock <= s.clock
      ensures r.Err? || touch.None? ==> me !in s.pcs
      ensures r.Ok? && touch.Some? ==> me in s.pcs && s.pcs[me] == Sizing(r.value, absRaw, touch.value)
      ensures r.Ok? ==> id != "" && x.loadFate.Lands? && id in old(s).keys
      ensures r.Ok? ==> ReadEntry(id, old(s).keys[id]) == r && absRaw == old(s).keys[id].absRaw
      ensures r.Ok? ==> s.clock < r.value.absoluteExpiry
      ensures id != "" && x.loadFate.Lands? && id in old(s).keys && ReadEntry(id, old(s).keys[id]).Err? ==>
                r == Err(Malformed)
      ensures r.Err? ==> r.error == NotFound || r.error == Backend || r.error == Malformed
      ensures id != "" && x.loadFate.Lands? && id in old(s).keys && ReadEntry(id, old(s).keys[id]).Ok? ==>
                (r.Ok? <==> s.clock < ReadEntry(id, old(s).keys[id]).value.absoluteExpiry)
      ensures x.beforeClock == [] && r.Ok? ==> s.keys == old(s).keys && s.clock == old(s).clock
      ensures x.beforeClock == [] && x.loadFate.Lands? && LiveAt(old(s), id) ==> r.Ok?
    {
      LeadsRefl(s);
      if id == "" {
        return Err(NotFound), "";
      }
      if !x.loadFate.Lands? {
        return Err(Backend), "";
      }
      if id !in s.keys {
        return Err(NotFound), "";
      }
      var read := ReadEntry(id, s.keys[id]);
      if read.Err? {
        return Err(Malformed), "";
      }
      absRaw := s.keys[id].absRaw;
      var session := read.value;
      Move(me, Loaded(session, absRaw, touch));
      assert s == Next(old(s), Do(me, BeginLoad(id, touch, x.loadFate)));
      LeadsStep(old(s), old(s), Do(me, BeginLoad(id, touch, x.loadFate)));
      ghost var loaded := s;
      var live := CheckLoaded(me, session, absRaw, touch, x);
      LeadsTrans(old(s), loaded, s);
      return if live then Ok(session) else Err(NotFound), absRaw;
    }

    /** The clock reading at the end of `get`: an expired session is deleted, not returned. */
    method CheckLoaded(me: Client, session: Session, absRaw: string, touch: Option<int>, x: Script) returns (live: bool)
      requires ForeignScript(me, x) && me in s.pcs && s.pcs[me] == Loaded(session, absRaw, touch)
      modifies this
      ensures Leads(old(s), s) && old(s).clock <= s.clock
      ensures !live || touch.None? ==> me !in s.pcs
      ensures live && touch.Some? ==> me in s.pcs && s.pcs[me] == Sizing(session, absRaw, touch.value)
      ensures live <==> s.clock < session.absoluteExpiry
      ensures x.beforeClock == [] ==> && (live <==> old(s).clock < session.absoluteExpiry)
                                      && (live ==> s.keys == old(s).keys && s.clock == old(s).clock)
    {
      Others(me, x.beforeClock);
      ghost var before := s;
      LeadsStep(old(s), before, Do(me, Now));
      if session.absoluteExpiry <= s.clock {
        Move(me, Dropping(session.id));
        assert s == Next(before, Do(me, Now));
        ghost var mid := s;
        DropAndStop(me, session.id, x.beforeDrop, x.dropFate);
        LeadsTrans(old(s), mid, s);
        return false;
      }
      if touch.None? {
        Retire(me);
      } else {
        Move(me, Sizing(session, absRaw, touch.value));
      }
      assert s == Next(before, Do(me, Now));
      return true;
    }

    /** Get: the stored session comes back exactly when the store answers, the key holds a
        well-formed session, and the clock is before its absolute expiry. */
    method Get(me: Client, id: string, x: Script) returns (r: Result<Session, SessionError>)
      requires me !in s.pcs && ForeignScript(me, x)
      modifies this
      ensures Leads(old(s), s) && me !in s.pcs
      ensures r.Ok? <==> && id != "" && x.loadFate.Lands? && id in old(s).keys && ReadEntry(id, old(s).keys[id]).Ok?
                         && s.clock < ReadEntry(id, old(s).keys[id]).value.absoluteExpiry
      ensures r.Ok? ==> ReadEntry(id, old(s).keys[id]) == r
    {
      var raw;
      r, raw := Load(me, id, None, x);
    }

    /** Touch.  When it succeeds, its run passed through `landed`, where the key existed, still
        held the absolute expiry that was read, and had just been given the last whole
        millisecond admissible at the clock reading `sizedAt`; the final reading was before it.
        Undisturbed and with its calls landing on a live session, it succeeds exactly when such
        a millisecond exists, and moves just that key's deadline to it. */
    method Touch(me: Client, id: string, idleTTL: int, x: Script)
      returns (r: Option<SessionError>, ghost sizedAt: int, ghost landed: State)
      requires me !in s.pcs && ForeignScript(me, x)
      modifies this
      ensures Leads(old(s), s) && me !in s.pcs
      ensures idleTTL <= 0 ==> r == Some(Deadline(IdleNotPositive)) && s == old(s)
      ensures r.None? ==>
                && id in old(s).keys && ReadEntry(id, old(s).keys[id]).Ok?
                && var d := SessionDeadline(idleTTL, ReadEntry(id, old(s).keys[id]).value.absoluteExpiry, sizedAt);
                && d.Ok? && old(s).clock <= sizedAt && s.clock < d.value
                && TouchedBetween(old(s), landed, s, id, old(s).keys[id].absRaw, d.value)
      ensures Quiet(x) && x.loadFate.Lands? && x.writeFate.Lands? && idleTTL > 0 && LiveAt(old(s), id) ==>
                Extended(old(s), s, id,
                         SessionDeadline(idleTTL, ReadEntry(id, old(s).keys[id]).value.absoluteExpiry, old(s).clock), r)
    {
      sizedAt, landed := s.clock, s;
      LeadsRefl(s);
      if idleTTL <= 0 {
        return Some(Deadline(IdleNotPositive)), sizedAt, landed;
      }
      var got, absRaw := Load(me, id, Some(idleTTL), x);
      if got.Err? {
        return Some(got.error), sizedAt, landed;
      }
      ghost var loaded := s;
      r, sizedAt, landed := Extend(me, got.value, absRaw, idleTTL, x);
      LeadsTrans(old(s), loaded, s);
      if r.None? {
        LeadsTrans(old(s), loaded, landed);
      }
    }

    /** The second half of Touch: size the deadline, write it if the expiry is unchanged, check. */
    method Extend(me: Client, session: Session, absRaw: string, idleTTL: int, x: Script)
      returns (r: Option<SessionError>, ghost sizedAt: int, ghost landed: State)
      requires ForeignScript(me, x) && me in s.pcs && s.pcs[me] == Sizing(session, absRaw, idleTTL)
      modifies this
      ensures Leads(old(s), s) && me !in s.pcs
      ensures r.None? ==>
                var d := SessionDeadline(idleTTL, session.absoluteExpiry, sizedAt);
                && d.Ok? && old(s).clock <= sizedAt && s.clock < d.value
                && TouchedBetween(old(s), landed, s, session.id, absRaw, d.value)
      ensures Quiet(x) && x.writeFate.Lands? && old(s).clock < session.absoluteExpiry
              && session.id in old(s).keys && old(s).keys[session.id].absRaw == absRaw ==>
                Extended(old(s), s, session.id, SessionDeadline(idleTTL, session.absoluteExpiry, old(s).clock), r)
    {
      landed := s;
      Others(me, x.beforeSizing);
      ghost var before := s;
      LeadsStep(old(s), before, Do(me, Now));
      var now := s.clock;
      sizedAt := now;
      var deadline := SessionDeadline(idleTTL, session.absoluteExpiry, now);
      if deadline.Err? {
        if session.absoluteExpiry <= now {
          Move(me, Dropping(session.id));
          assert s == Next(before, Do(me, Now));
          ghost var mid := s;
          DropAndStop(me, session.id, x.beforeDrop, x.dropFate);
          LeadsTrans(old(s), mid, s);
          return Some(NotFound), sizedAt, landed;
        }
        Retire(me);
        assert s == Next(before, Do(me, Now));
        return Some(Deadline(deadline.error)), sizedAt, landed;
      }
      Move(me, Writing(session.id, absRaw, deadline.value));
      assert s == Next(before, Do(me, Now));
      ghost var mid := s;
      r, landed := WriteAndCheck(me, session.id, absRaw, deadline.value, x);
      LeadsTrans(old(s), mid, s);
      if r.None? {
        LeadsTrans(old(s), mid, landed);
      }
    }

    method WriteAndCheck(me: Client, id: string, absRaw: string, deadline: int, x: Script)
      returns (r: Option<SessionError>, ghost landed: State)
      requires ForeignScript(me, x) && me in s.pcs && s.pcs[me] == Writing(id, absRaw, deadline)
      requires deadline % MILLISECOND == 0
      modifies this
      ensures Leads(old(s), s) && me !in s.pcs
      ensures r.None? ==> s.clock < deadline && TouchedBetween(old(s), landed, s, id, absRaw, deadline)
      ensures Quiet(x) && x.writeFate.Lands? && old(s).clock < deadline && id in old(s).keys
              && old(s).keys[id].absRaw == absRaw ==>
                r.None? && s.keys == old(s).keys[id := old(s).keys[id].(deadlineMs := UnixMilli(deadline))]
    {
      Others(me, x.beforeWrite);
      ghost var before := s;
      LeadsStep(old(s), before, Do(me, Write(x.writeFate)));
      var touched := RunTouch(id, absRaw, UnixMilli(deadline), x.writeFate);
      landed := s;
      if touched != Some(1) {
        Retire(me);
        assert s == Next(before, Do(me, Write(x.writeFate)));
        return if touched.None? then Some(Backend) else Some(NotFound), landed;
      }
      Move(me, Written(id, deadline));
      assert s == Next(before, Do(me, Write(x.writeFate)));
      landed := s;
      Others(me, x.beforeCheck);
      LeadsTrans(old(s), landed, s);
      before := s;
      LeadsStep(landed, before, Do(me, Now));
      LeadsStep(old(s), before, Do(me, Now));
      if deadline <= s.clock {
        Move(me, Dropping(id));
        assert s == Next(before, Do(me, Now));
        ghost var mid := s;
        DropAndStop(me, id, x.beforeDrop, x.dropFate);
        LeadsTrans(old(s), mid, s);
        return Some(NotFound), landed;
      }
      Retire(me);
      assert s == Next(before, Do(me, Now));
      return None, landed;
    }

    /** Delete. */
    method Delete(me: Client, id: string, fate: Fate) returns (err: bool)
      requires me !in s.pcs
      modifies this
      ensures Leads(old(s), s) && me !in s.pcs
      ensures err <==> !fate.Lands?
      ensures !err ==> id !in s.keys
      ensures s == if fate.Fails? then old(s) else old(s).(keys := old(s).keys - {id})
    {
      LeadsRefl(s);
      LeadsStep(s, s, Do(me, DeleteKey(id, fate)));
      if !fate.Fails? {
        s := s.(keys := s.keys - {id});
      }
      return !fate.Lands?;
    }
  }
}
