/** The key-derivation gate and the gated Argon2id call: internal/crypto/gate.go,
    zero.go and the cost parameters of phc.go. */
module Kdf {
  import opened Base

  type Uint32 = n: int | 0 <= n < 0x1_0000_0000
  type Uint8 = n: int | 0 <= n < 0x100

  datatype Argon2Params = Argon2Params(time: Uint32, memoryKiB: Uint32, threads: Uint8)

  /** Argon2id (section 3 of RFC 9106) is any function of password, salt and costs that
      yields a 32-byte key; nothing else about it is used. */
  type KdfFunction = (Bytes, Bytes, Argon2Params) -> Bytes32

  /** Overwrites a buffer with zeros. */
  method Zero(b: array<Byte>)
    modifies b
    ensures IsZero(b)
    ensures forall q: array<Byte> :: allocated(q) && fresh(q) ==> IsZero(q)
  {
    for i := 0 to b.Length
      invariant forall k :: 0 <= k < i ==> b[k] == 0
      invariant forall q: array<Byte> :: allocated(q) && fresh(q) ==> IsZero(q)
    {
      b[i] := 0;
    }
  }

  ghost predicate IsZero(b: array<Byte>)
    reads b
  {
    forall k :: 0 <= k < b.Length ==> b[k] == 0
  }

  /** A fresh buffer holding the given bytes. */
  method Buffer(s: Bytes) returns (b: array<Byte>)
    ensures fresh(b) && b[..] == s
    ensures forall q: array<Byte> :: allocated(q) && fresh(q) ==> q == b || IsZero(q)
  {
    b := new Byte[|s|](i requires 0 <= i < |s| => s[i]);
  }

  /** Which of the three cases of the select in Acquire is ready first. */
  datatype Ready = SlotFree | ContextDone | TimerFired

  datatype KdfError = Cancelled | Busy

  /** A counting semaphore: `slots` is how many tokens sit in the buffered channel. */
  class Gate {
    const capacity: nat
    var slots: nat

    ghost predicate Valid()
      reads this
    {
      1 <= capacity && slots <= capacity
    }

    constructor (maxConcurrent: int)
      ensures Valid() && slots == 0
      ensures capacity == if maxConcurrent < 1 then 1 else maxConcurrent
    {
      capacity := if maxConcurrent < 1 then 1 else maxConcurrent;
      slots := 0;
    }

    /** A send on a full channel cannot fire, so the caller then waits for the timer. */
    method Acquire(ready: Ready) returns (r: Option<KdfError>)
      requires Valid()
      modifies this
      ensures Valid()
      ensures r.None? <==> ready.SlotFree? && old(slots) < capacity
      ensures r.None? ==> slots == old(slots) + 1
      ensures r.Some? ==> slots == old(slots)
      ensures r == Some(Cancelled) <==> ready.ContextDone?
      ensures forall q: array<Byte> :: allocated(q) && fresh(q) ==> IsZero(q)
    {
      if ready.SlotFree? && slots < capacity {
        slots := slots + 1;
        return None;
      } else if ready.ContextDone? {
        return Some(Cancelled);
      } else {
        return Some(Busy);
      }
    }

    /** The closure Acquire hands out: one receive from the channel. */
    method Release()
      requires Valid() && 0 < slots
      modifies this
      ensures Valid() && slots == old(slots) - 1
      ensures forall q: array<Byte> :: allocated(q) && fresh(q) ==> IsZero(q)
    {
      slots := slots - 1;
    }
  }

  /** Runs the KDF under the gate.  Every exit gives back exactly the slot it took. */
  method DeriveKey(g: Gate, ready: Ready, kdf: KdfFunction, password: Bytes, salt: Bytes, p: Argon2Params)
    returns (r: Result<array<Byte>, KdfError>)
    requires g.Valid()
    modifies g
    ensures g.Valid() && g.slots == old(g.slots)
    ensures r.Ok? <==> ready.SlotFree? && old(g.slots) < g.capacity
    ensures r.Ok? ==> fresh(r.value) && r.value[..] == kdf(password, salt, p)
    ensures forall q: array<Byte> :: allocated(q) && fresh(q) ==> (r.Ok? && q == r.value) || IsZero(q)
    ensures r.Err? ==> r.error == if ready.ContextDone? then Cancelled else Busy
  {
    var refused := g.Acquire(ready);
    if refused.Some? {
      return Err(refused.value);
    }
    var key := Buffer(kdf(password, salt, p));
    g.Release();
    return Ok(key);
  }
}
