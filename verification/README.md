# Secure pastebin: verified model

A Dafny model of the pastebin's core and proofs of what it promises. A paste lives in two
stores: its encrypted body in Redis under a key that expires, its metadata row in Postgres.
Create, Read, Delete and the sweeper act on both without transactions. The main results are
about every interleaving of those four, where any store call may fail before or after its
effect, keys expire, Redis restarts and clients crash. Around it stand the other pieces that
turn on deadlines, budgets and codecs: login sessions, the rate limiter, the key-derivation
gate, the envelope, the canonical form, password hashes and OpenID Connect login.

`dafny verify dfyconfig.toml` checks the whole project.

## How it is laid out

| module | what it holds |
|---|---|
| `Base`, `Decimal`, `Base64`, `Utf8` | time and bytes, and the codecs the rest is built on |
| `Kdf`, `KdfRuns`, `Phc` | the gate as an object, the gate under concurrency, PHC password hashes |
| `Canonical`, `Envelope` | the canonical form of content; sealing and opening over a symbolic AEAD |
| `PasteTable`, `SweepPass` | the pastes table and its statements; one sweeper pass as a function of the table |
| `Lifecycle` | the protocol: where each client is, what each atomic action does to the stores and where it goes next |
| `Bodies`, `Aging`, `Orphans`, `Reads`, `Seals`, `Marks`, `BothMarks`, `Unavailable`, `Expiries` | what every run of the protocol keeps |
| `Honesty` | runs in which the body store returns what it holds and sealing and opening are the server's own |
| `Releases` | when content can still be released, without a row and after a deletion |
| `Scenarios` | runs from the empty stores for what the protocol does not promise |
| `Runs`, `Stores`, `Service`, `Sweeper` | the source's own methods, each proved to be a run of the protocol whatever others do in between |
| `SessionTime`, `Sessions`, `SessionStore` | session deadlines and their encoding, the session protocol, the store's methods |
| `RateLimit` | the fixed-window limiter |
| `Users`, `Claims`, `Oidc`, `OidcFlow` | the users table, token decoding, the login protocol, Start and Complete |

## How to read it

A protocol is a state, a total function `Next` from a state and a step to the next state, and
`Run` over a sequence of steps. A step that does not fit where its client is changes nothing,
so quantifying over all step sequences quantifies over all interleavings. Clocks, random draws,
the outcome of every store call (`Lands`, `Fails`, `FailsAfter`) and what others do between two
calls are parameters. Fields named `book` hold history that no code reads: which ids were
drawn, what each Create fixed, what Read released.

Keys and plaintext live in byte arrays. A method that promises to clear its secrets says that
every byte array made since its start is all zero when it ends, but for the one it hands to its
caller. That covers arrays made by whatever it calls.

A method of the source becomes a method of a class over that state. Its contract says that the
old state `Leads` to the new one by some run, so the theorems about runs apply to it, and adds
what the caller can count on. It also says what the method comes to when nobody interferes and its
calls land.

Cryptography is symbolic. A ciphertext opens only under the key, nonce and associated data it
was made with (section 7 of NIST SP 800-38D), equal digests mean equal data, an S256 challenge
(section 4.2 of RFC 7636) determines its verifier, and Argon2id (section 3 of RFC 9106) is an
arbitrary function. A body store may hand back any record at all, except a body ciphertext
that nobody sealed.

## Where the code differs from what one might expect

- A session key can outlive its stored absolute expiry when that expiry is past the year 2262: the
  stored nanosecond count wraps. `Sessions.CreateBoundExact` gives the exact condition.
- Session times within 1000 seconds of the epoch are read back as seconds.
  `SessionTime.DecodeEncodeExact` gives the exact condition.
- The hour added to the unavailability marker protects against a second report only while marker
  writes are not delayed by an hour themselves (`Unavailable.ReportedAtMostOnce`,
  `Scenarios.ReportedTwice`). Redis counts expiries in whole milliseconds, so the model lets a
  key go up to `slack` early and the bound is an hour less that slack.
- Canonicalize does not undo StripBOM for content that starts with two marks
  (`Canonical.CanonicalUndoesStrip`).
- A row can be both deleted and expiry-audited, since the audit mark does not look at deleted_at;
  it takes a deletion whose mark lands after the expiry (`Marks.NeverBoth`,
  `Scenarios.LateMarkGivesBoth`). `BothMarks.BothMarksExactly` says from which states it can come.
- Rows whose body deletion keeps failing are listed again in every pass, ahead of later ones. Once
  a batch of them comes first, no later row is ever handled (`SweepPass.HandledExactly`).
- Read does not look at deletion again after loading its row, so a reader that is already on its
  way can release content after a concurrent Delete. `Releases.ReleaseAfterDeleteExactly` says
  which readers can: those that hold the plaintext or a record they can open. A Read begun after
  the deletion cannot (`Service.PasteService.DeleteThenRead`).
- An administrator flag follows the latest login past the group gate even when that login is then
  refused because the account is disabled, or its reply is lost (`Oidc.AdminFollowsLatestLogin`).

## Model

| member | source | states |
|---|---|---|
| `Bodies.MarkedRowsHaveNoBody` | internal/paste/service.go:95-105 | over every interleaving of Create, Read, Delete, sweeps, key expiry, restarts and crashes, with every store call free to fail before or after its effect: no row with deleted_at or expired_audited_at set has a body, so no row the completed purge removes has one |
| `Bodies.PutKeepsInv` | internal/paste/service.go:91-97 | a body is only ever written under an id that never had a row, so no deleted body comes back between its deletion and the mark |
| `Bodies.InsertKeepsInv` | internal/paste/service.go:98-105 | an insert gives a row to an id no other pending Create holds, whether or not it reports failure |
| `Bodies.DeleteKeepsInv` | internal/paste/service.go:213-218 | Delete marks a row only after its body is gone, so the link between marks and bodies survives any failure in between |
| `Bodies.SweepKeepsInv` | internal/sweeper/sweeper.go:105-133 | a pass marks only rows whose body it saw deleted, and purging removes rows without creating orphans of marked ones |
| `Orphans.BodiesExpire` | internal/store/redis/body.go:35-60 | in every reachable state every body has a finite deadline, at most the longest configured lifetime (or one millisecond) ahead of the clock |
| `Orphans.OrphansAreUnreachable` | internal/sweeper/sweeper.go:125-133 | with either purge, a body without a row is out of reach of Read: none can start on it, any that still holds its row is past the expiry, and it expires by itself; where only completed rows are purged it never had a row and no reader holds its id |
| `Releases.NothingReleasedWithoutRow` | internal/paste/service.go:119-184 | over every run, with either purge, no step releases content of an id without a row, and an id whose row is gone is never released again |
| `Releases.StepReleasesExactly` | internal/paste/service.go:176-183 | a step releases content exactly when it is the last clock reading of a Read, before the expiry it loaded |
| `Releases.ReleaseAfterDeleteExactly` | internal/paste/service.go:119-184 | with a store that returns what it holds and the server's own envelope, once a row is marked deleted or purged some continuation still releases its content exactly when a Read begun before the deletion is unexpired and already holds the plaintext, or a fetched record that opens under its own password |
| `Releases.ReleaseAfterDeleteNeedsReader` | internal/paste/service.go:119-184 | whatever the store returns, content is released after the row was marked or purged only if at that moment a Read that loaded the row before is under way, unexpired and holding nothing that rules content out |
| `Releases.ArmedReleases` | internal/paste/service.go:150-183 | such a Read comes to its end with content by honest steps of its own |
| `Scenarios.ReleasedAfterDeletion` | internal/paste/service.go:119-184 | an honest run from the empty stores, for every derivation function, in which a reader that opened the body before its deletion releases the content after the row was marked |
| `Seals.RunKeepsInv` | internal/paste/service.go:81-90 | every paste that ever had a row was sealed under its id and the second of its stored expiry |
| `Reads.ReadsReturnOwnContent` | internal/paste/service.go:119-184 | whatever Read ever released, over any run, is the canonical form of the content given to the Create step that drew that id, hashes to the row's content hash, was active, and its last clock reading was before the stored expiry; also when the store returned foreign or made-up records |
| `Reads.MadeByItsCreate` | internal/paste/service.go:69-80 | the content on record for an id was fixed by a Create step that passed its checks and drew an id not issued before, is the canonical form of what that Create was given, and is the same after every later step |
| `Reads.CreatedOnce` | internal/paste/service.go:69-80 | no run has two such Create steps for one id |
| `Reads.OpenYieldsOwnContent` | internal/paste/service.go:150-156 | opening any record the store may return, under any wrapping key, yields nothing but the paste's own content |
| `Reads.StoredExpiryOpens` | internal/crypto/envelope.go:243-249 | a record sealed for a paste opens to the same bytes under the expiry its row kept, at every timestamp precision down to whole seconds |
| `Unavailable.ReportedAtMostOnce` | internal/paste/service.go:129-143 | over any run whose marker writes land within an hour (less the slack of Redis expiry) of the reading that sized them, a paste gets at most one paste_unavailable event per Redis lifetime |
| `Unavailable.SecondWinIsLate` | internal/store/redis/body.go:84-94 | a second marker won in one Redis lifetime is necessarily written later than that hour |
| `Unavailable.DelayedWriteReportsTwice` | internal/paste/service.go:137-143 | the hour is needed: from any state with two pending marker writes for one paste and no marker, delaying the second past the first marker's life yields two events in one lifetime |
| `Scenarios.ReportedTwice` | internal/paste/service.go:137-143 | a run from the empty stores, through a restart that lost the body, in which that happens |
| `Expiries.ExpiriesRecorded` | internal/sweeper/sweeper.go:105-123 | with a single sweeper, an audited row has exactly one paste_expired event plus one for each earlier pass that recorded it and ended without its mark; an unaudited row has exactly one per such pass, plus one while the current pass holds it |
| `Runs.RunKeepsPast` | internal/paste/service.go:201-221 | no run undoes anything: fixed content, stored expiries and ciphertexts stay, a body once gone never returns, and a deletion is final |
| `Marks.NeverBoth` | internal/store/postgres/pastes.go:119-125 | over every run in which deletions mark their rows before they expire, however many sweepers there are, no row is both deleted and expiry-audited |
| `Marks.SecondMarkExactly` | internal/store/postgres/pastes.go:65-68 | a step gives a row its second mark exactly when it is a deletion's mark landing on an audited row or a pass's mark landing on a deleted one |
| `BothMarks.BothMarksExactly` | internal/paste/service.go:201-221 | from any state a run can reach, some continuation leaves a row both deleted and expiry-audited exactly when it is so already, or is undeleted and either unexpired or in the hands of a Delete past its check, or is deleted and on the list of a pass under way |
| `Scenarios.LateMarkGivesBoth` | internal/paste/service.go:213-218 | an honest run from the empty stores in which a deletion stalls past the expiry, a pass audits the row, and the late mark gives it both |
| `Aging.RunKeepsAged` | internal/store/postgres/pastes.go:127-143 | every reachable table holds rows built as Create builds them, and rows that are gone had expired, whichever purge removed them |
| `Aging.FallbackOnReachableTables` | internal/sweeper/sweeper.go:125-133 | so on every reachable table the fallback purge deletes exactly what the completed-only purge would |
| `PasteTable.OrderedContents` | internal/store/postgres/pastes.go:111-117 | the expiry list holds each pending row exactly once |
| `PasteTable.OrderedIsSorted` | internal/store/postgres/pastes.go:111-117 | the expiry list comes in the order (expires_at, id) |
| `PasteTable.ListExpiredUnaudited` | internal/store/postgres/pastes.go:111-117 | the listed rows are a prefix of the full pending order, of length min(limit, pending) |
| `SweepPass.StoredIsWellBuilt` | internal/store/postgres/pastes.go:25-39 | dropping sub-precision digits keeps expires_at equal to created_at plus the lifetime |
| `SweepPass.FallbackDeletesOnlyCompleted` | internal/sweeper/sweeper.go:125-133 | with no interleaved writer and rows within the ttl_bounds constraint, whenever the fallback purge runs it deletes exactly what the completed-only purge would, for every batch size and every retention of at least a day |
| `SweepPass.PassTakesPrefix` | internal/sweeper/sweeper.go:97-123 | a pass without failures takes exactly the first min(batch, pending) rows off the front of the pending order, and retention removes no pending row |
| `SweepPass.Drain` | internal/sweeper/sweeper.go:97-123 | after j passes with batch b, exactly max(0, k - j*b) of k pending rows are left; the rows handled are the first min(j*b, k) in (expires_at, id) order, each once |
| `SweepPass.PositiveBatchDrains` | internal/sweeper/sweeper.go:57-59 | with the positive batch New always configures, k passes leave none of k pending rows, and handle each in order |
| `SweepPass.HandledExactly` | internal/sweeper/sweeper.go:97-133 | when the same bodies cannot be deleted in any pass, some number of passes handles a pending row exactly when it is not one of them and fewer than a batch of them come before it in (expires_at, id) order; as many passes as rows are pending suffice |
| `SweepPass.ListedExactly` | internal/store/postgres/pastes.go:111-117 | a pending row is on the list exactly when fewer than the limit of pending rows come before it |
| `Stores.Stores.Put` | internal/store/redis/body.go:47-60 | a body is stored with a deadline; lifetimes of zero or less are refused and those below a millisecond become one |
| `Stores.Stores.Get` | internal/store/redis/body.go:62-75 | found, missing and failed are told apart |
| `Stores.Stores.Delete` | internal/store/redis/body.go:77-82 | exactly the named key is gone, unless the call failed without effect, and every other key and all else is as it was |
| `Stores.Stores.MarkUnavailableOnce` | internal/store/redis/body.go:84-94 | only the first caller while the marker stands is told so, and its deadline is as requested |
| `Stores.Stores.Insert` | internal/store/postgres/pastes.go:25-39 | a row appears only for a new id within the ttl_bounds constraint, with its instants cut to the table's precision |
| `Stores.Stores.CountView` | internal/store/postgres/pastes.go:60-63 | the named row's view count is one higher, unless the call failed without effect; no other field or row changes, and none appears |
| `Stores.Stores.MarkRowDeleted` | internal/store/postgres/pastes.go:65-68 | the named row, if it was unmarked, carries who deleted it and when; a marked one keeps its first mark; no other row changes |
| `Stores.Stores.MarkRowsAudited` | internal/store/postgres/pastes.go:119-125 | exactly the listed rows without an audit mark get this one, and nothing else changes; a mark that fails leaves the table alone |
| `Stores.Stores.PurgeRows` | internal/store/postgres/pastes.go:127-143 | a row is gone exactly when it was created before the cutoff (and, for the completed purge, is completed); the rest are unchanged, and the reply is their number |
| `Service.PasteService.Create` | internal/paste/service.go:58-110 | refuses input exactly when a check fails and then changes nothing; is a run of the protocol with anything in between; on success the paste is on record with its content, hash and expiry; every buffer made on the way is zero on every exit; undisturbed and with its calls landing it fails only when sealing does or the table refuses the lifetime, and otherwise leaves just the row, the body with its remaining lifetime and the event |
| `Service.PasteService.InsertRow` | internal/paste/service.go:98-106 | success means the row was inserted and recorded; after a failed insert whose rollback took effect the body is gone; undisturbed it succeeds exactly when the table admits the row |
| `Service.PasteService.PutBody` | internal/paste/service.go:95-105 | the body goes in before the row, and a body write that reports failure ends the Create with an id that has no row and never had one |
| `Service.PasteService.SealBody` | internal/paste/service.go:81-90 | the record is exactly what sealing the canonical bytes for this id and expiry gives, the envelope only reads the buffer, and an unprotected row remembers the wrapping key id of that record |
| `Service.PasteService.Read` | internal/paste/service.go:119-184 | content comes back only as the canonical bytes of that paste's Create, matching the loaded row's hash, active at the last clock reading; every other buffer made on the way is zero on every exit; a paste deleted before the call yields none; undisturbed with an honest store the result is determined: status, unavailability, lock, error or the opened content, with the view counted and recorded, or the missing body marked and reported once |
| `Service.PasteService.Release` | internal/paste/service.go:157-183 | after decryption, either the buffer is handed over untouched as the last content released before the expiry, or it is all zero; undisturbed before the expiry it is handed over, counted and recorded |
| `Service.PasteService.OpenBody` | internal/paste/service.go:150-183 | a plaintext buffer exists exactly when Open succeeded, is released as what Open yields or zero, and every other buffer made is zero; a wrong password is recorded |
| `Service.PasteService.Recheck` | internal/paste/service.go:157-168 | each later clock reading ends the Read when the expiry is reached and else moves it to the next step |
| `Service.PasteService.ReportUnavailable` | internal/paste/service.go:137-143 | the marker write and the report are steps of the protocol; undisturbed, the marker stands for an hour past the remaining lifetime and the event is recorded exactly when it did not stand before |
| `Service.PasteService.JudgeStep` | internal/paste/service.go:129-149 | after the fetch expiry comes first, then missing, failed and locked bodies, and only then decryption |
| `Service.PasteService.Conclude` | internal/paste/service.go:133-149 | a Read with nothing to decrypt reports expired, unavailable or locked, and an error exactly for an unreadable body that is not expired |
| `Service.PasteService.Delete` | internal/paste/service.go:201-221 | forbidden exactly for callers who are neither owner nor administrator; success means the paste was already over, or its row is marked (or purged since) and its body gone, both for good, with the event last on record; undisturbed and with its calls landing it succeeds and changes just that row, that body and the log |
| `Service.PasteService.DeleteRow` | internal/paste/service.go:209-221 | body first, then the mark, then the event: with both reported done, neither comes back; undisturbed with calls landing it does all three |
| `Service.PasteService.DeleteThenRead` | internal/paste/service.go:201-221 | once Delete reported success on a paste that was not over, no later Read returns its content, whatever happens in between |
| `Service.PasteService.CreateThenRead` | internal/paste/service.go:58-184 | undisturbed and with calls landing, an accepted content whose lifetime the table admits is created and, read with the same password at any time before its stored expiry, comes back as exactly its canonical bytes |
| `Sweeper.Sweeper.RunOnce` | internal/sweeper/sweeper.go:93-141 | whatever happens between its calls a pass is a run of the protocol; undisturbed and without call failures it leaves exactly SweepPass.Pass of the table and counts what it handled and purged |
| `Sweeper.Sweeper.SweepAll` | internal/sweeper/sweeper.go:101-117 | the loop collects exactly the listed rows whose body was deleted, in order, and asks for a retry exactly after a full batch or a failed deletion |
| `Sweeper.Sweeper.Finish` | internal/sweeper/sweeper.go:118-141 | marks and retention together compute the table Purged gives, with the number of rows that went |
| `SessionTime.DeadlineIsLastAdmissible` | internal/store/redis/sessions.go:68-87 | a deadline exists exactly when a whole millisecond lies in (now, min(now + idle, absolute)], and is then the greatest one |
| `SessionTime.DecodeEncodeExact` | internal/store/redis/sessions.go:89-104 | decoding undoes encoding exactly for the epoch and the instants at least 1000 s from it within 64-bit nanoseconds |
| `SessionTime.LegacySeconds` | internal/store/redis/sessions.go:93-104 | every legacy count of seconds below 10^12 in magnitude decodes to that many seconds |
| `SessionTime.WrapsAround` | internal/store/redis/sessions.go:89-91 | the first instant past the 64-bit range is stored as the earliest one in it |
| `Sessions.DeadlinesBounded` | internal/store/redis/sessions.go:20-47 | over any interleaving, unless some Create asked for an expiry the stored field cannot hold, every key's Redis deadline is at most the absolute expiry stored in it |
| `Sessions.CreateBoundExact` | internal/store/redis/sessions.go:111-160 | for every clock and lifetime in 64-bit nanoseconds, a key just created respects that bound exactly when the requested expiry fits them too and, within the 1000 s before the epoch, the deadline is no later than that many seconds before it |
| `Sessions.IdentityNeverChanges` | internal/store/redis/sessions.go:20-47 | while a key exists its user, creation time, absolute expiry and CSRF token never change |
| `Sessions.OnlyCreateAddsKeys` | internal/store/redis/sessions.go:20-37 | only a landing create script makes a key appear, with what that Create computed and no other key touched; so Create never overwrites and Touch never revives |
| `Sessions.OnlyTouchMovesDeadlines` | internal/store/redis/sessions.go:38-46 | a deadline moves only by a landing touch script, to the deadline computed from the same absolute expiry |
| `Sessions.ReadBack` | internal/store/redis/sessions.go:167-212 | what Create stores for storable instants, Get reads back as the same session |
| `Sessions.TokensAreValid` | internal/store/redis/sessions.go:106-109 | every token the generator can draw passes the token check |
| `SessionStore.SessionStore.Create` | internal/store/redis/sessions.go:111-160 | a returned session's key was absent and was added with exactly the deadline of the first clock reading, and the last reading was still before it; undisturbed, with a deadline ahead, it succeeds exactly when one of its draws is a free id, and then adds just the first such draw |
| `SessionStore.SessionStore.Load` | internal/store/redis/sessions.go:167-212 | what comes back is what was stored when read, with the clock still before the absolute expiry, and nothing else is refused; malformed hashes are reported |
| `SessionStore.SessionStore.Get` | internal/store/redis/sessions.go:162-165 | a session is returned exactly when its id is valid, the call lands, and the key holds a well-formed one before its absolute expiry, and is then the stored one |
| `SessionStore.SessionStore.Touch` | internal/store/redis/sessions.go:214-250 | success means the existing key, still with the expiry that was read, was given the last admissible millisecond, with the final clock reading before it; undisturbed and with calls landing it succeeds exactly when the session is live and such a millisecond is ahead, and moves just that deadline |
| `SessionStore.SessionStore.Delete` | internal/store/redis/sessions.go:252-257 | without an error the key is gone |
| `RateLimit.CountersDistinct` | internal/ratelimit/redis.go:93-98 | two (scope, key) pairs share a counter only when they are equal |
| `RateLimit.ParseReply` | internal/ratelimit/redis.go:126-136 | a reply is accepted exactly when it is two positive integers |
| `RateLimit.RunKeepsInv` | internal/ratelimit/redis.go:32-39 | over any run of calls, failed and malformed replies included, each window's grants stay within its counter and windows start at least one window length apart |
| `RateLimit.AllowedAtMost` | internal/ratelimit/redis.go:70-118 | over any run without data loss each window allows at most Limit calls and every half-open interval of one window length at most twice that |
| `RateLimit.RetryAfterEndsWindow` | internal/ratelimit/redis.go:105-118 | a call refused for being over the limit is told to wait exactly until its window ends |
| `RateLimit.RedisLimiter.Allow` | internal/ratelimit/redis.go:70-118 | fails closed without a usable reply, and an allowed call is counted within the limit |
| `Kdf.Zero` | internal/crypto/zero.go:6-10 | the whole buffer is zero |
| `Kdf.Gate.constructor` | internal/crypto/gate.go:19-24 | a gate has max(1, maxConcurrent) slots, all free |
| `Kdf.Gate.Acquire` | internal/crypto/gate.go:27-38 | a slot is taken exactly when one is free and chosen; otherwise the error tells cancellation from timeout |
| `Kdf.DeriveKey` | internal/crypto/phc.go:32-39 | every exit has given back exactly the slot it took; success yields the derived key in a buffer of its own, and any other buffer made on the way is zero |
| `KdfRuns.GateBounds` | internal/crypto/gate.go:27-38 | in every reachable state holders equal occupied slots and never exceed the capacity, every slot taken is returned once or still held, and envelope derivations together use at most slots x configured memory |
| `Phc.ParsePrint` | internal/crypto/phc.go:44-83 | splitting, scanning and decoding the printed form recovers every cost triple, salt and key |
| `Phc.HashPassword` | internal/crypto/phc.go:44-56 | yields the printed form of the derived key; every buffer made on the way is zero on every exit |
| `Phc.VerifyPassword` | internal/crypto/phc.go:59-83 | malformed hashes are refused; a well-formed one matches exactly when the password derives its key; every buffer made on the way is zero on every exit |
| `Phc.HashThenVerify` | internal/crypto/phc.go:44-83 | a password always verifies against its own hash, and another one exactly when both derive one key |
| `Base64.DecodeEncode` | internal/crypto/phc.go:54-55 | base64 (sections 4 and 5 of RFC 4648, without padding) decodes what it encoded, for every byte string |
| `Decimal.ParseFormatInt` | internal/store/redis/sessions.go:89-104 | decimal printing and parsing undo each other exactly on 64-bit integers |
| `Envelope.OpenSealed` | internal/crypto/envelope.go:134-189 | the whole outcome of opening a sealed record under another envelope: the plaintext exactly when the wrapping key is recoverable, costs fit, the id is the same and the expiries share a UTC second, else which error |
| `Envelope.SealedRecordValid` | internal/crypto/envelope.go:191-231 | a sealed record passes another envelope's validation exactly when it is server-wrapped or its costs fit that budget |
| `Envelope.OpenBinds` | internal/crypto/envelope.go:165-189 | whatever the record and key, only plaintext sealed for this id and second comes back |
| `Envelope.Envelope.Seal` | internal/crypto/envelope.go:72-130 | seals as specified, leaves plaintext and keyring alone and returns its gate slot; every buffer made on the way, data key and derived key among them, is zero on every exit |
| `Envelope.Envelope.Open` | internal/crypto/envelope.go:134-189 | opens as specified into a fresh buffer, leaves the keyring alone and returns its gate slot; every other buffer made on the way, derived key and unwrapped data key among them, is zero on every exit |
| `Envelope.NewEnvelope` | internal/crypto/envelope.go:38-65 | succeeds exactly for usable arguments, with every key copied into a buffer of its own |
| `Envelope.KeyringIsPrivate` | internal/crypto/envelope.go:45-64 | clearing a buffer the caller handed in does not reach the keyring |
| `Canonical.CanonicalForm` | internal/paste/canonical.go:11-27 | accepted content becomes valid, marked, within the limit, and a fixed point |
| `Canonical.Rejection` | internal/paste/canonical.go:11-27 | rejected exactly for bytes that encode no text, and for well-formed ones whose canonical length exceeds the limit |
| `Canonical.CanonicalKernel` | internal/paste/canonical.go:16-21 | two contents share a canonical form exactly when equal or one is the unmarked other with one mark in front |
| `Canonical.CanonicalUndoesStrip` | internal/paste/canonical.go:36-46 | canonicalizing undoes StripBOM exactly when what follows the mark has none of its own |
| `Canonical.DoubleMarkIsLost` | internal/paste/canonical.go:36-41 | two marks and nothing else are lost by it, and every content it fails for starts with them, so it is the smallest |
| `Utf8.ValidIffEncoding` | internal/paste/canonical.go:12-14 | the byte grammar (section 4 of RFC 3629) accepts exactly the encodings of scalar value sequences |
| `Oidc.LoginsAreSound` | internal/auth/oidc.go:139-215 | over any interleaving each login uses a distinct state begun less than five minutes before, presents the verifier whose S256 value went out with it, and its token carries that nonce and passed the group gate |
| `Oidc.AccountIsStable` | internal/store/postgres/users.go:104-145 | over any run an account keeps id, username and identity, and its disabled flag save by an administrator |
| `Oidc.AdminFollowsLatestLogin` | internal/auth/oidc.go:189-201 | over any run the account of an identity has administrator rights exactly when the token of the last login whose upsert took effect carries the admin group, that token having been accepted for its request; without such a login they are what they were |
| `Oidc.StepKeepsAccount` | internal/store/postgres/users.go:104-145 | no single step moves, renames or removes an account, and only an administrator changes its disabled flag |
| `OidcFlow.Flow.Start` | internal/auth/oidc.go:114-130 | succeeds exactly when the save of well-formed state lands; the redirect then carries the state, the S256 value and the nonce that were saved together |
| `OidcFlow.Flow.Complete` | internal/auth/oidc.go:139-215 | is a run of the protocol; success consumes the state and records a login of an enabled account with the token's identity and rights; undisturbed it succeeds exactly when the state is saved, well formed and younger than five minutes, a token comes back that passes the checks, and its account can be stored and is enabled |
| `OidcFlow.Flow.SaveKey` | internal/store/redis/oidcstate.go:35-55 | only well-formed state is stored, for five minutes |
| `OidcFlow.Flow.TakeKey` | internal/store/redis/oidcstate.go:57-74 | a state is handed out at most once, and only when well formed |
| `Claims.DecodeClaimsLoop` | internal/auth/oidc.go:217-244 | ranging over the claims in any order decodes the same identity |
| `Claims.AcceptedToken` | internal/auth/oidc.go:165-197 | an accepted token carries this request's nonce, the configured issuer and the required group, and administrator rights exactly through the admin group |
| `Claims.NullGroupIsNoGroup` | internal/auth/oidc.go:217-244 | a null entry in the group claim never satisfies the gate |
| `Users.UpsertKeepsAccounts` | internal/store/postgres/users.go:104-129 | an upsert keeps the unique constraints, touches one row, never moves, renames or re-enables an account, and is refused exactly when a first login meets a taken name or id |
| `Users.SetDisabledKeepsAccounts` | internal/store/postgres/users.go:139-145 | only the disabled flag of the named row changes |
| `Users.CreateUserKeepsAccounts` | internal/store/postgres/users.go:65-87 | a created account disturbs no existing row and appears exactly as given, identity included, when its id, name and identity are free |

## Left out

- HTTP handlers, middleware, cookies, metrics, the command line, configuration loading and logging: plumbing with one-branch logic.
- The challenge package and the user interface: only ports exist in code.
- Verify, list pagination, CountActive, local login and TouchLogin: settled by reading one query or branch.
- The sweeper's audit purge, active count and callbacks (internal/sweeper/sweeper.go, lines 142-166): they touch neither rows nor bodies.
- The text forms of UUIDs, of the RFC 3339 expiry inside the associated data and of JSON records: ids are numbers, the associated data holds the id and the UTC second, records are values.
- AES-GCM, SHA-256, Argon2id, random generation and JWT verification: symbolic, as described above.
- Cost bounds on VerifyPassword: its parameters come unchecked from the stored hash, so memory is bounded for the envelope's derivations only.
- Blanks other than space and tab in the scanned cost field of a PHC string, and Unicode blanks in trimmed claims.
- Overflow of a Redis counter at 2^63 calls in one window, and of view_count.
- Exact moments of key expiry: a key goes at any time at or after its deadline.
- SweepPass.FallbackDeletesOnlyCompleted: speaks of a pass with no writer between its list and its purge; with one, Aging.RunKeepsAged still says that whatever is purged had expired.
- Service.PasteService.Read: a record planted by the store must have been plantable when the call began; Reads.ReadsReturnOwnContent has no such limit.
- Lifecycle: the metadata_purged event is recorded in the same atomic step as the purge it counts.
- Users.CreateUserKeepsAccounts: an identity is a pair of issuer and subject; a row with only one of the two counts as having none, as it never collides.
- Stores.Stores.Get: a body that cannot be decoded as JSON is one of the failed replies.
