/** Envelope encryption of paste bodies (internal/crypto/envelope.go) over a symbolic AEAD
    (section 7 of NIST SP 800-38D): a ciphertext is a term that opens only under the key,
    nonce and associated data it was made with. */
module Envelope {
  import opened Base
  import opened Kdf

  /** Associated data.  The body's is the paste id and its expiry printed to the UTC second;
      the wrapped key's is the paste id alone. */
  datatype Aad = BodyAad(id: Id, second: int) | WrapAad(id: Id)

  function BodyAadOf(id: Id, expiresAt: int): Aad {
    BodyAad(id, SecondOf(expiresAt))
  }

  /** What AES-GCM produced, or bytes it never produced. */
  datatype Cipher = Sealed(key: Bytes, nonce: Bytes, aad: Aad, plain: Bytes) | Opaque(raw: Bytes)

  const TAG_LEN: nat := 16

  function Length(c: Cipher): nat {
    if c.Sealed? then |c.plain| + TAG_LEN else |c.raw|
  }

  function GcmOpen(key: Bytes, nonce: Bytes, c: Cipher, aad: Aad): Option<Bytes> {
    if c.Sealed? && c.key == key && c.nonce == nonce && c.aad == aad then Some(c.plain) else None
  }

  datatype WrapMode = WrapKEK | WrapPassword | WrapUnknown(text: string)

  datatype KdfParams = KdfParams(salt: Bytes, costs: Argon2Params)

  datatype EncryptedBody = EncryptedBody(
    version: int, alg: string, nonce: Bytes, ciphertext: Cipher,
    wrapMode: WrapMode, kekId: string, kdf: Option<KdfParams>, wrapNonce: Bytes, wrappedDek: Cipher)

  datatype EnvelopeError =
    | NoRandomness | KdfBusy | KdfCancelled
    | BadRecord | KeyUnavailable | PasswordRequired | WrongPassword | UnwrapFailed | DecryptFailed

  function MapKdfError(e: KdfError): EnvelopeError {
    match e
    case Busy => KdfBusy
    case Cancelled => KdfCancelled
  }

  type Nonce = b: Bytes | |b| == 12 witness seq(12, _ => 0)
  type Salt = b: Bytes | |b| == 16 witness seq(16, _ => 0)

  /** The results of the four reads from the random source, in order; None is a failed read. */
  datatype Draws = Draws(dek: Option<Bytes32>, nonce: Option<Nonce>, salt: Option<Salt>, wrapNonce: Option<Nonce>)

  /** The keyring and configuration an envelope works with, as values. */
  datatype Ring = Ring(keys: map<string, Bytes32>, active: string, params: Argon2Params)

  predicate ValidParams(p: Argon2Params) {
    p.time > 0 && p.memoryKiB > 0 && p.threads > 0 && p.memoryKiB >= 8 * p.threads
  }

  predicate ValidRing(ring: Ring) {
    ring.active in ring.keys && "" !in ring.keys && ValidParams(ring.params)
  }

  /** No cost of `p` is above the one configured in `budget`. */
  predicate WithinBudget(p: Argon2Params, budget: Argon2Params) {
    p.time <= budget.time && p.memoryKiB <= budget.memoryKiB && p.threads <= budget.threads
  }

  /** validateRecord. */
  predicate ValidRecord(budget: Argon2Params, rec: EncryptedBody) {
    && rec.version == 1 && rec.alg == "aes256gcm"
    && |rec.nonce| == 12 && Length(rec.ciphertext) >= 16
    && |rec.wrapNonce| == 12 && Length(rec.wrappedDek) == 48
    && match rec.wrapMode
       case WrapKEK => rec.kekId != "" && rec.kdf.None?
       case WrapPassword =>
         && rec.kekId == "" && rec.kdf.Some? && |rec.kdf.value.salt| == 16
         && ValidParams(rec.kdf.value.costs) && WithinBudget(rec.kdf.value.costs, budget)
       case WrapUnknown(_) => false
  }

  /** The record Seal fills in once it has a wrapping key. */
  function Record(id: Id, expiresAt: int, plain: Bytes, d: Draws, wrapKey: Bytes, kekId: string,
                  kdf: Option<KdfParams>): EncryptedBody
    requires d.dek.Some? && d.nonce.Some? && d.wrapNonce.Some?
  {
    EncryptedBody(1, "aes256gcm", d.nonce.value,
                  Sealed(d.dek.value, d.nonce.value, BodyAadOf(id, expiresAt), plain),
                  if kdf.None? then WrapKEK else WrapPassword, kekId, kdf, d.wrapNonce.value,
                  Sealed(wrapKey, d.wrapNonce.value, WrapAad(id), d.dek.value))
  }

  /** Seal; `refused` says that the gate turned the derivation away. */
  function SealValue(ring: Ring, kdf: KdfFunction, refused: Option<KdfError>,
                     id: Id, expiresAt: int, plain: Bytes, password: Bytes,
                       d: Draws): Result<EncryptedBody, EnvelopeError>
    requires ValidRing(ring)
  {
    if d.dek.None? || d.nonce.None? then Err(NoRandomness)
    else if password != [] && d.salt.None? then Err(NoRandomness)
    else if password != [] && refused.Some? then Err(MapKdfError(refused.value))
    else if d.wrapNonce.None? then Err(NoRandomness)
    else if password == [] then Ok(Record(id, expiresAt, plain, d, ring.keys[ring.active], ring.active, None))
    else Ok(Record(id, expiresAt, plain, d, kdf(password, d.salt.value, ring.params), "",
                   Some(KdfParams(d.salt.value, ring.params))))
  }

  /** The end of Open: unwrap the data key, then decrypt the body. */
  function OpenWith(wrapKey: Bytes, id: Id, expiresAt: int, rec: EncryptedBody): Result<Bytes, EnvelopeError> {
    var dek := GcmOpen(wrapKey, rec.wrapNonce, rec.wrappedDek, WrapAad(id));
    if dek.None? then Err(if rec.wrapMode.WrapPassword? then WrongPassword else UnwrapFailed)
    else
      var plain := GcmOpen(dek.value, rec.nonce, rec.ciphertext, BodyAadOf(id, expiresAt));
      if plain.None? then Err(DecryptFailed) else Ok(plain.value)
  }

  function OpenValue(ring: Ring, kdf: KdfFunction, refused: Option<KdfError>,
                     id: Id, expiresAt: int, rec: EncryptedBody, password: Bytes): Result<Bytes, EnvelopeError>
  {
    if !ValidRecord(ring.params, rec) then Err(BadRecord)
    else if rec.wrapMode.WrapKEK? then
      if rec.kekId !in ring.keys then Err(KeyUnavailable) else OpenWith(ring.keys[rec.kekId], id, expiresAt, rec)
    else if password == [] then Err(PasswordRequired)
    else if refused.Some? then Err(MapKdfError(refused.value))
    else OpenWith(kdf(password, rec.kdf.value.salt, rec.kdf.value.costs), id, expiresAt, rec)
  }

  // --- Sealing under one envelope and opening under another --------------------------------

  /** The second envelope can recover the wrapping key the first one used. */
  predicate SameWrapKey(sealer: Ring, opener: Ring, kdf: KdfFunction, password: Bytes, attempt: Bytes, d: Draws)
    requires ValidRing(sealer) && (password != [] ==> d.salt.Some?)
  {
    if password == [] then sealer.active in opener.keys && opener.keys[sealer.active] == sealer.keys[sealer.active]
    else attempt != [] && kdf(attempt, d.salt.value, sealer.params) == kdf(password, d.salt.value, sealer.params)
  }

  /** A sealed record passes another envelope's validation exactly when it is wrapped with a
      server key or its costs fit that envelope's budget. */
  lemma SealedRecordValid(sealer: Ring, opener: Ring, kdf: KdfFunction, refused: Option<KdfError>,
                          id: Id, expiresAt: int, plain: Bytes, password: Bytes, d: Draws)
    requires ValidRing(sealer) && ValidRing(opener)
    requires SealValue(sealer, kdf, refused, id, expiresAt, plain, password, d).Ok?
    ensures var rec := SealValue(sealer, kdf, refused, id, expiresAt, plain, password, d).value;
            ValidRecord(opener.params, rec) <==> password == [] || WithinBudget(sealer.params, opener.params)
  {
  }

  /** The whole outcome of opening a sealed record under another envelope, for another id,
      expiry and password attempt.  It yields the plaintext exactly when the wrapping key is
      recoverable, the costs fit, the id is the same and the expiries share a UTC second. */
  lemma OpenSealed(sealer: Ring, opener: Ring, kdf: KdfFunction, refused: Option<KdfError>,
                   id: Id, expiresAt: int, plain: Bytes, password: Bytes, d: Draws,
                   id': Id, expiresAt': int, attempt: Bytes)
    requires ValidRing(sealer) && ValidRing(opener)
    requires SealValue(sealer, kdf, refused, id, expiresAt, plain, password, d).Ok?
    ensures var rec := SealValue(sealer, kdf, refused, id, expiresAt, plain, password, d).value;
            OpenValue(opener, kdf, None, id', expiresAt', rec, attempt) ==
              if password != [] && !WithinBudget(sealer.params, opener.params) then Err(BadRecord)
              else if password == [] && sealer.active !in opener.keys then Err(KeyUnavailable)
              else if password != [] && attempt == [] then Err(PasswordRequired)
              else if !SameWrapKey(sealer, opener, kdf, password, attempt, d) || id' != id then
                Err(if password == [] then UnwrapFailed else WrongPassword)
              else if SecondOf(expiresAt') != SecondOf(expiresAt) then Err(DecryptFailed)
              else Ok(plain)
  {
    SealedRecordValid(sealer, opener, kdf, refused, id, expiresAt, plain, password, d);
  }

  /** Whatever record it is handed, under whatever wrapping key, Open returns only plaintext
      that was sealed for this very id and UTC second. */
  lemma OpenBinds(wrapKey: Bytes, id: Id, expiresAt: int, rec: EncryptedBody)
    requires OpenWith(wrapKey, id, expiresAt, rec).Ok?
    ensures rec.ciphertext.Sealed? && rec.ciphertext.aad == BodyAad(id, SecondOf(expiresAt))
    ensures rec.ciphertext.plain == OpenWith(wrapKey, id, expiresAt, rec).value
  {
  }

  // --- The envelope object -----------------------------------------------------------------

  datatype NewError = NoKeys | EmptyActive | EmptyKeyId | BadKeyLength | ActiveMissing | NoGate | BadParams

  class Envelope {
    const keys: map<string, array<Byte>>
    const active: string
    const gate: Gate
    const params: Argon2Params

    constructor (keys: map<string, array<Byte>>, active: string, gate: Gate, params: Argon2Params)
      ensures this.keys == keys && this.active == active && this.gate == gate && this.params == params
    {
      this.keys := keys;
      this.active := active;
      this.gate := gate;
      this.params := params;
    }

    ghost predicate Valid()
      reads this, gate, set id | id in keys :: keys[id]
    {
      && gate.Valid()
      && (forall id :: id in keys ==> keys[id].Length == 32)
      && active in keys && "" !in keys && ValidParams(params)
    }

    ghost function Value(): (r: Ring)
      requires Valid()
      reads this, gate, set id | id in keys :: keys[id]
      ensures ValidRing(r)
    {
      Ring(map id | id in keys :: keys[id][..], active, params)
    }

    /** Seal.  It leaves the caller's plaintext and the keyring as they were and gives back its
        gate slot.  Every exit leaves zero whatever buffers were made, for the data key and for
        a derived key. */
    method Seal(kdf: KdfFunction, ready: Ready, id: Id, expiresAt: int, plain: array<Byte>, password: Bytes, d: Draws)
      returns (r: Result<EncryptedBody, EnvelopeError>)
      requires Valid()
      modifies gate
      ensures Valid() && Value() == old(Value()) && gate.slots == old(gate.slots)
      ensures r == SealValue(Value(), kdf, Refusal(ready, old(gate.slots), gate.capacity), id, expiresAt, plain[..],
                             password, d)
      ensures forall q: array<Byte> :: allocated(q) && fresh(q) ==> IsZero(q)
    {
      if d.dek.None? {
        return Err(NoRandomness);
      }
      var dataKey := Buffer(d.dek.value);
      r := SealUnder(kdf, ready, id, expiresAt, plain, password, d, dataKey);
      Zero(dataKey);
    }

    /** Seal with its data key drawn. */
    method SealUnder(kdf: KdfFunction, ready: Ready, id: Id, expiresAt: int, plain: array<Byte>, password: Bytes,
                     d: Draws, dataKey: array<Byte>)
      returns (r: Result<EncryptedBody, EnvelopeError>)
      requires Valid() && d.dek.Some? && dataKey[..] == d.dek.value
      modifies gate
      ensures Valid() && Value() == old(Value()) && gate.slots == old(gate.slots)
      ensures r == SealValue(Value(), kdf, Refusal(ready, old(gate.slots), gate.capacity), id, expiresAt, plain[..],
                             password, d)
      ensures forall q: array<Byte> :: allocated(q) && fresh(q) ==> IsZero(q)
    {
      if d.nonce.None? {
        return Err(NoRandomness);
      }
      var ciphertext := Sealed(dataKey[..], d.nonce.value, BodyAadOf(id, expiresAt), plain[..]);
      if password == [] {
        r := Wrap(id, d, ciphertext, dataKey, keys[active], active, None);
        return;
      }
      if d.salt.None? {
        return Err(NoRandomness);
      }
      var made := DeriveKey(gate, ready, kdf, password, d.salt.value, params);
      if made.Err? {
        return Err(MapKdfError(made.error));
      }
      r := Wrap(id, d, ciphertext, dataKey, made.value, "", Some(KdfParams(d.salt.value, params)));
      Zero(made.value);
    }

    /** The end of Seal: draw the wrapping nonce and wrap the data key under `wrapKey`, which
        for a server key is the keyring's own buffer. */
    method Wrap(id: Id, d: Draws, ciphertext: Cipher, dataKey: array<Byte>, wrapKey: array<Byte>, kekId: string,
                stored: Option<KdfParams>)
      returns (r: Result<EncryptedBody, EnvelopeError>)
      requires d.nonce.Some?
      ensures r == if d.wrapNonce.None? then Err(NoRandomness)
                   else Ok(EncryptedBody(1, "aes256gcm", d.nonce.value, ciphertext,
                                         if stored.None? then WrapKEK else WrapPassword,
                                         kekId, stored, d.wrapNonce.value,
                                         Sealed(wrapKey[..], d.wrapNonce.value, WrapAad(id), dataKey[..])))
      ensures forall q: array<Byte> :: allocated(q) && fresh(q) ==> IsZero(q)
    {
      if d.wrapNonce.None? {
        return Err(NoRandomness);
      }
      var wrapped := Sealed(wrapKey[..], d.wrapNonce.value, WrapAad(id), dataKey[..]);
      return Ok(EncryptedBody(1, "aes256gcm", d.nonce.value, ciphertext,
                              if stored.None? then WrapKEK else WrapPassword,
                              kekId, stored, d.wrapNonce.value, wrapped));
    }

    /** Open.  The plaintext comes back in a fresh buffer the caller owns; every other buffer
        made on the way, the derived key's and the data key's, is zero on every exit. */
    method Open(kdf: KdfFunction, ready: Ready, id: Id, expiresAt: int, rec: EncryptedBody, password: Bytes)
      returns (r: Result<array<Byte>, EnvelopeError>)
      requires Valid()
      modifies gate
      ensures Valid() && Value() == old(Value()) && gate.slots == old(gate.slots)
      ensures r.Ok? ==> fresh(r.value)
      ensures Bytewise(r) ==
                OpenValue(Value(), kdf, Refusal(ready, old(gate.slots), gate.capacity), id, expiresAt, rec, password)
      ensures forall q: array<Byte> :: allocated(q) && fresh(q) ==> (r.Ok? && q == r.value) || IsZero(q)
    {
      if !ValidRecord(params, rec) {
        return Err(BadRecord);
      }
      if rec.wrapMode.WrapKEK? {
        if rec.kekId !in keys {
          return Err(KeyUnavailable);
        }
        r := Unwrap(keys[rec.kekId], id, expiresAt, rec);
      } else {
        if password == [] {
          return Err(PasswordRequired);
        }
        var made := DeriveKey(gate, ready, kdf, password, rec.kdf.value.salt, rec.kdf.value.costs);
        if made.Err? {
          return Err(MapKdfError(made.error));
        }
        r := Unwrap(made.value, id, expiresAt, rec);
        Zero(made.value);
      }
    }

    /** The end of Open: unwrap the data key with `wrapKey`, decrypt, clear the data key. */
    method Unwrap(wrapKey: array<Byte>, id: Id, expiresAt: int, rec: EncryptedBody)
      returns (r: Result<array<Byte>, EnvelopeError>)
      requires Length(rec.wrappedDek) == 48 && gate.Valid()
      modifies gate
      ensures gate.Valid() && gate.slots == old(gate.slots)
      ensures Bytewise(r) == OpenWith(wrapKey[..], id, expiresAt, rec)
      ensures r.Ok? ==> fresh(r.value)
      ensures forall q: array<Byte> :: allocated(q) && fresh(q) ==> (r.Ok? && q == r.value) || IsZero(q)
    {
      var unwrapped := GcmOpen(wrapKey[..], rec.wrapNonce, rec.wrappedDek, WrapAad(id));
      if unwrapped.None? {
        return Err(if rec.wrapMode.WrapPassword? then WrongPassword else UnwrapFailed);
      }
      var dataKey := Buffer(unwrapped.value);
      assert dataKey.Length == 32;  // so the source's own length check never fires
      var plain := GcmOpen(dataKey[..], rec.nonce, rec.ciphertext, BodyAadOf(id, expiresAt));
      Zero(dataKey);
      if plain.None? {
        return Err(DecryptFailed);
      }
      var buffer := Buffer(plain.value);
      return Ok(buffer);
    }
  }

  /** A result whose buffer is replaced by what it holds. */
  ghost function Bytewise(r: Result<array<Byte>, EnvelopeError>): Result<Bytes, EnvelopeError>
    reads match r case Ok(b) => {b} case Err(_) => {}
  {
    match r
    case Ok(b) => Ok(b[..])
    case Err(e) => Err(e)
  }

  /** What the gate answers a derivation. */
  function Refusal(ready: Ready, slots: nat, capacity: nat): Option<KdfError> {
    if ready.SlotFree? && slots < capacity then None
    else if ready.ContextDone? then Some(Cancelled) else Some(Busy)
  }

  /** What the caller's buffers hold. */
  ghost function Contents(keys: map<string, array<Byte>>): map<string, Bytes>
    reads set id | id in keys :: keys[id]
  {
    map id | id in keys :: keys[id][..]
  }

  predicate UsableKeys(keys: map<string, Bytes>) {
    forall id :: id in keys ==> id != "" && |keys[id]| == 32
  }

  /** NewEnvelope validates the arguments and copies every key into a buffer of its own. */
  method NewEnvelope(keys: map<string, array<Byte>>, activeId: string, gate: Gate?, params: Argon2Params)
    returns (r: Result<Envelope, NewError>)
    requires gate != null ==> gate.Valid()
    ensures r.Ok? <==> && keys != map[] && activeId in keys && gate != null && ValidParams(params)
                       && UsableKeys(Contents(keys))
    ensures r.Ok? ==> && fresh(r.value) && r.value.gate == gate && r.value.Valid()
                      && (forall id :: id in r.value.keys ==> fresh(r.value.keys[id]))
                      && r.value.Value().keys == Contents(keys)
                      && r.value.active == activeId && r.value.params == params
  {
    if keys == map[] {
      return Err(NoKeys);
    }
    if activeId == "" {
      assert "" in keys ==> "" in Contents(keys);
      return Err(EmptyActive);
    }
    var copy: map<string, array<Byte>> := map[];
    var rest := keys.Keys;
    while rest != {}
      invariant rest <= keys.Keys && copy.Keys == keys.Keys - rest
      invariant forall id :: id in copy ==>
                  id != "" && keys[id].Length == 32 && fresh(copy[id]) && copy[id][..] == keys[id][..]
      decreases rest
    {
      var id :| id in rest;
      if id == "" {
        assert "" in Contents(keys);
        return Err(EmptyKeyId);
      }
      if keys[id].Length != 32 {
        assert |Contents(keys)[id]| != 32;
        return Err(BadKeyLength);
      }
      var buffer := Buffer(keys[id][..]);
      copy := copy[id := buffer];
      rest := rest - {id};
    }
    if activeId !in copy {
      return Err(ActiveMissing);
    }
    if gate == null {
      return Err(NoGate);
    }
    if !ValidParams(params) {
      return Err(BadParams);
    }
    var e := new Envelope(copy, activeId, gate, params);
    return Ok(e);
  }

  /** Clearing a buffer the caller handed to NewEnvelope does not reach the keyring. */
  method KeyringIsPrivate(keys: map<string, array<Byte>>, activeId: string, gate: Gate, params: Argon2Params,
                          victim: string)
    returns (r: Result<Envelope, NewError>)
    requires gate.Valid() && victim in keys
    modifies keys[victim]
    ensures r.Ok? ==> r.value.Valid() && r.value.Value().keys == old(Contents(keys))
    ensures IsZero(keys[victim])
  {
    r := NewEnvelope(keys, activeId, gate, params);
    Zero(keys[victim]);
  }
}
