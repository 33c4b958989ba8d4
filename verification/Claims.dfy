/** The decisions Complete makes from a verified ID token (internal/auth/oidc.go, lines
    166-198 and 217-244). */
module Claims {
  import opened Base
  import opened Users

  datatype Config = Config(issuer: string, requiredGroup: string, adminGroup: string, groupClaim: string)

  /** The server-side half of an authorization request. */
  datatype Pending = Pending(verifier: string, nonce: string, createdAt: int)

  /** The code challenge of section 4.2 of RFC 7636, kept symbolic. */
  datatype Challenge = S256(verifier: string)

  /** JSON values as far as claims distinguish them. */
  datatype Json = JsonString(s: string) | JsonList(items: seq<Json>) | JsonNull | JsonOther

  datatype IdToken = IdToken(nonce: string, issuer: string, subject: string, raw: map<string, Json>)

  datatype Identity = Identity(preferredUsername: string, email: string, name: string, groups: seq<string>)

  predicate IsSpace(c: char) {
    c == ' ' || c == '\t' || c == '\n' || c == '\r' || c as int == 11 || c as int == 12
  }

  function TrimSpace(s: string): (r: string)
    ensures r != "" ==> !IsSpace(r[0]) && !IsSpace(r[|r| - 1])
    ensures |r| <= |s|
  {
    if s == "" then ""
    else if IsSpace(s[0]) then TrimSpace(s[1..])
    else if IsSpace(s[|s| - 1]) then TrimSpace(s[..|s| - 1])
    else s
  }

  /** An absent claim stays empty; null or a non-string is malformed. */
  function StringClaim(raw: map<string, Json>, name: string): Option<string> {
    if name !in raw then Some("")
    else if raw[name].JsonString? then Some(raw[name].s)
    else None
  }

  /** Decoding into a list of strings: a null element becomes the empty string. */
  function StringList(items: seq<Json>): Option<seq<string>> {
    if items == [] then Some([])
    else
      var rest := StringList(items[1..]);
      if rest.None? || !(items[0].JsonString? || items[0].JsonNull?) then None
      else Some([if items[0].JsonString? then items[0].s else ""] + rest.value)
  }

  function GroupsClaim(raw: map<string, Json>, name: string): Option<seq<string>> {
    if name !in raw then Some([])
    else if raw[name].JsonList? then StringList(raw[name].items)
    else None
  }

  function DecodeClaims(raw: map<string, Json>, groupClaim: string): Option<Identity> {
    var username, email, name := StringClaim(raw, "preferred_username"), StringClaim(raw, "email"),
      StringClaim(raw, "name");
    var groups := GroupsClaim(raw, groupClaim);
    if username.None? || email.None? || name.None? || groups.None? then None
    else Some(Identity(username.value, email.value, name.value, groups.value))
  }

  /** decodeClaims ranges over a map, so in any order; the order makes no difference. */
  method DecodeClaimsLoop(raw: map<string, Json>, groupClaim: string) returns (r: Option<Identity>)
    ensures r == DecodeClaims(raw, groupClaim)
  {
    var claims := Identity("", "", "", []);
    ghost var names := {"preferred_username", "email", "name"};
    var rest := {"preferred_username", "email", "name"};
    while rest != {}
      invariant rest <= names
      invariant forall n :: n in names && n !in rest ==> StringClaim(raw, n).Some?
      invariant "preferred_username" !in rest ==>
                  StringClaim(raw, "preferred_username") == Some(claims.preferredUsername)
      invariant "email" !in rest ==> StringClaim(raw, "email") == Some(claims.email)
      invariant "name" !in rest ==> StringClaim(raw, "name") == Some(claims.name)
      invariant "preferred_username" in rest ==> claims.preferredUsername == ""
      invariant "email" in rest ==> claims.email == ""
      invariant "name" in rest ==> claims.name == ""
      invariant claims.groups == []
      decreases rest
    {
      var name :| name in rest;
      rest := rest - {name};
      if name in raw {
        if !raw[name].JsonString? {
          return None;
        }
        if name == "preferred_username" {
          claims := claims.(preferredUsername := raw[name].s);
        } else if name == "email" {
          claims := claims.(email := raw[name].s);
        } else {
          claims := claims.(name := raw[name].s);
        }
      }
    }
    if groupClaim !in raw {
      return Some(claims);
    }
    if !raw[groupClaim].JsonList? {
      return None;
    }
    var groups := StringList(raw[groupClaim].items);
    return if groups.None? then None else Some(claims.(groups := groups.value));
  }

  datatype Refusal = NonceMismatch | InvalidIdentity | MissingGroup

  function FirstNonBlank(a: string, b: string, c: string): string {
    if TrimSpace(a) != "" then TrimSpace(a) else if TrimSpace(b) != "" then TrimSpace(b) else c
  }

  /** The account a token stands for, or why it is turned away. */
  function Judge(cfg: Config, pending: Pending, token: IdToken): Result<User, Refusal> {
    if token.nonce != pending.nonce then Err(NonceMismatch)
    else if token.issuer == "" || token.issuer != cfg.issuer || TrimSpace(token.subject) == "" then Err(InvalidIdentity)
    else
      var claims := DecodeClaims(token.raw, cfg.groupClaim);
      if claims.None? then Err(InvalidIdentity)
      else if cfg.requiredGroup !in claims.value.groups then Err(MissingGroup)
      else
        Ok(User(FirstNonBlank(claims.value.preferredUsername, claims.value.email, token.subject), claims.value.name,
                Some((token.issuer, token.subject)),
                cfg.adminGroup != "" && cfg.adminGroup in claims.value.groups, false, None))
  }

  /** What an accepted token proves: the nonce of this very request, the configured issuer, a
      well-formed group claim naming the required group, and administrator rights exactly
      through the configured admin group. */
  lemma AcceptedToken(cfg: Config, pending: Pending, token: IdToken)
    requires Judge(cfg, pending, token).Ok?
    ensures token.nonce == pending.nonce && token.issuer == cfg.issuer && cfg.issuer != ""
    ensures DecodeClaims(token.raw, cfg.groupClaim).Some?
    ensures var u, groups := Judge(cfg, pending, token).value, DecodeClaims(token.raw, cfg.groupClaim).value.groups;
            && cfg.requiredGroup in groups
            && (u.isAdmin <==> cfg.adminGroup != "" && cfg.adminGroup in groups)
            && u.identity == Some((token.issuer, token.subject)) && TrimSpace(u.username) != ""
  {
    var claims := DecodeClaims(token.raw, cfg.groupClaim).value;
    TrimTwice(claims.preferredUsername);
    TrimTwice(claims.email);
  }

  lemma TrimTwice(s: string)
    ensures TrimSpace(TrimSpace(s)) == TrimSpace(s)
  {
  }

  /** A null group never satisfies the gate, because the required group is not blank. */
  lemma NullGroupIsNoGroup(items: seq<Json>, group: string)
    requires TrimSpace(group) != "" && StringList(items).Some?
    ensures group in StringList(items).value <==> JsonString(group) in items
  {
    if items != [] {
      NullGroupIsNoGroup(items[1..], group);
      assert items == [items[0]] + items[1..];
    }
  }
}
