/** The users table (internal/store/postgres/users.go and the constraints of
    migrations/0001_init.sql). */
module Users {
  import opened Base

  /** `identity` is the issuer and subject of an OIDC account; local accounts have none, and
      NULLs never collide in the UNIQUE constraint. */
  datatype User = User(username: string, displayName: string, identity: Option<(string, string)>,
                       isAdmin: bool, disabled: bool, lastLogin: Option<int>)

  type Table = map<Id, User>

  predicate UsernameFree(t: Table, username: string) {
    forall id :: id in t ==> t[id].username != username
  }

  predicate HasIdentity(t: Table, identity: (string, string)) {
    exists id :: id in t && t[id].identity == Some(identity)
  }

  predicate UniqueNames(t: Table) {
    forall a, b :: a in t && b in t && t[a].username == t[b].username ==> a == b
  }

  predicate UniqueIdentities(t: Table) {
    forall a, b :: a in t && b in t && t[a].identity.Some? && t[a].identity == t[b].identity ==> a == b
  }

  /** UNIQUE (username) and UNIQUE (oidc_issuer, oidc_subject). */
  predicate Unique(t: Table) {
    UniqueNames(t) && UniqueIdentities(t)
  }

  /** The row of an OIDC identity. */
  function AccountOf(t: Table, identity: (string, string)): (r: Option<Id>)
    requires Unique(t)
    ensures r.Some? <==> HasIdentity(t, identity)
    ensures r.Some? ==> r.value in t && t[r.value].identity == Some(identity)
  {
    if HasIdentity(t, identity) then
      var id :| id in t && t[id].identity == Some(identity);
      Some(id)
    else None
  }

  datatype Upserted = Upserted(table: Table, stored: Option<Id>)

  /** UpsertOIDC.  The conflict on the identity is looked at first; only a true insert can
      violate the other constraints, and then nothing changes. */
  function UpsertOIDC(t: Table, id: Id, u: User, now: int): Upserted
    requires Unique(t) && u.identity.Some?
  {
    var existing := AccountOf(t, u.identity.value);
    if existing.Some? then
      var row := t[existing.value];
      Upserted(t[existing.value := row.(displayName := u.displayName, isAdmin := u.isAdmin, lastLogin := Some(now))],
               existing)
    else if id in t || !UsernameFree(t, u.username) then Upserted(t, None)
    else Upserted(t[id := u.(disabled := false, lastLogin := Some(now))], Some(id))
  }

  function SetDisabled(t: Table, id: Id, disabled: bool): Table {
    if id in t then t[id := t[id].(disabled := disabled)] else t
  }

  /** Create inserts the account as it is given, identity and all, unless a constraint objects. */
  function CreateUser(t: Table, id: Id, u: User): Table {
    if id in t || !UsernameFree(t, u.username) || (u.identity.Some? && HasIdentity(t, u.identity.value)) then t
      else t[id := u]
  }

  /** A row keeps its id, username and identity. */
  predicate SameAccount(a: User, b: User) {
    a.username == b.username && a.identity == b.identity
  }

  /** Replacing a row by one of the same account keeps the constraints. */
  lemma ReplaceKeepsUnique(t: Table, id: Id, u: User)
    requires Unique(t) && id in t && SameAccount(t[id], u)
    ensures Unique(t[id := u])
  {
  }

  lemma InsertKeepsUnique(t: Table, id: Id, u: User)
    requires Unique(t) && id !in t && UsernameFree(t, u.username)
    requires u.identity.Some? ==> !HasIdentity(t, u.identity.value)
    ensures Unique(t[id := u])
  {
  }

  lemma UpsertKeepsUnique(t: Table, id: Id, u: User, now: int)
    requires Unique(t) && u.identity.Some?
    ensures Unique(UpsertOIDC(t, id, u, now).table)
  {
    var existing := AccountOf(t, u.identity.value);
    if existing.Some? {
      var row := t[existing.value];
      ReplaceKeepsUnique(t, existing.value,
                         row.(displayName := u.displayName, isAdmin := u.isAdmin, lastLogin := Some(now)));
    } else if id !in t && UsernameFree(t, u.username) {
      InsertKeepsUnique(t, id, u.(disabled := false, lastLogin := Some(now)));
    }
  }

  /** An upsert keeps the constraints, touches at most one row, never moves an account to
      another id or name and never changes whether it is disabled; it is refused exactly when
      a first login meets a taken name or id. */
  lemma UpsertKeepsAccounts(t: Table, id: Id, u: User, now: int)
    requires Unique(t) && u.identity.Some?
    ensures var r := UpsertOIDC(t, id, u, now);
            && Unique(r.table)
            && (forall k :: k in t ==>
                  k in r.table && SameAccount(t[k], r.table[k]) && t[k].disabled == r.table[k].disabled)
            && (forall k :: k in t && r.stored != Some(k) ==> r.table[k] == t[k])
            && (forall k :: k in r.table && k !in t ==> r.stored == Some(k) && k == id && !r.table[k].disabled)
            && (r.stored.Some? ==> r.stored.value in r.table
                                   && r.table[r.stored.value].identity == u.identity
                                   && r.table[r.stored.value].isAdmin == u.isAdmin)
            && (r.stored.None? <==> !HasIdentity(t, u.identity.value) && (id in t || !UsernameFree(t, u.username)))
  {
    UpsertKeepsUnique(t, id, u, now);
  }

  lemma SetDisabledKeepsAccounts(t: Table, id: Id, disabled: bool)
    requires Unique(t)
    ensures Unique(SetDisabled(t, id, disabled))
    ensures forall k :: k in t ==> && k in SetDisabled(t, id, disabled)
                                   && SetDisabled(t, id, disabled)[k]
                                      == t[k].(disabled := if k == id then disabled else t[k].disabled)
  {
    if id in t {
      ReplaceKeepsUnique(t, id, t[id].(disabled := disabled));
    }
  }

  /** A created account disturbs no existing row, and appears exactly as given when its id, name
      and identity are free. */
  lemma CreateUserKeepsAccounts(t: Table, id: Id, u: User)
    requires Unique(t)
    ensures var after := CreateUser(t, id, u);
            && Unique(after)
            && (forall k :: k in t ==> k in after && after[k] == t[k])
            && (forall k :: k in after && k !in t ==> k == id && after[k] == u)
            && (id in after && id !in t <==>
                  id !in t && UsernameFree(t, u.username) && (u.identity.None? || !HasIdentity(t, u.identity.value)))
  {
    if CreateUser(t, id, u) != t {
      InsertKeepsUnique(t, id, u);
    }
  }
}
