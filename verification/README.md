# Verified models of the VNC portal's protocols and codecs

Dafny models of the stateful and format-bound parts of the portal, with proofs
of what they promise. `dafny verify dfyconfig.toml` checks the project.

| part | modules |
|---|---|
| Operator sessions: the signed `vnc_op` cookie, its index with a cap of ten per user, revocation marks and epochs, over a store whose entries lapse | `OpCookie`, `Base64Url`, `Utf8`, `SharedState`, `OpGate`, `OpSessions`, `OpSessionStore`, `OpSessionInterleaving`, `OpSessionBound`, `OpSessionOvershoot`, `OpSessionProgress`, `OpSessionAlone` |
| Screen recordings: the `.vrsrec` writer, the parser that takes truncated files, the incremental player | `Bytes`, `Vrsrec`, `RecordingPlayer` |
| Configuration: the layered environment, the line-preserving writer, the migration of legacy names, the snapshot history | `EnvText`, `EnvLoad`, `EnvPersist`, `EnvMigration`, `ConfigHistory` |
| Restoring a backup: member and link confinement, size limits | `BackupRestore` |
| The line editor of the web terminal | `TerminalEditor` |

`Text` holds the Python string operations these rely on.

## How it is built

Code that updates state is a class or a method with a loop; each is tied by its
contract to a function or a relation on values, and the properties are lemmas
about those. `OpSessions` is a state machine whose steps are relations, because
the clock moves between any two backend calls: a mint reads it a dozen times and
no two readings need agree. `OpSessionStore` proves that the code's loops are
such steps. `OpSessionInterleaving` takes the same code apart into single
backend calls, for any number of processes, and `OpSessionAlone` proves that the
calls of one mint or one logout, undisturbed, are again one step. `OpGate` and
the `Gate` of `OpSessionStore` say which requests reach the logout handler.

Clocks are reals, and `int(time.time())` is `Floor`. HMAC, zlib, SHA-256 and the
JSON of the recording header are function parameters, with the law each is used
for as a precondition (`HexMac`, `Unforged`, `TokenUnforged`, `Inflates`).
Session ids are arguments, required to be new where `token_urlsafe` makes them so.

## What the proofs found

- The cap of ten is a property of mints that do not overlap. With at most `c` of
  a user's mints in flight at once, `9 + c` cookies can verify and no more
  (`AtMostNineAndOverlap`, `OverlapBoundIsMet`). Overlapping mints lose no cookie
  from view (`NoCookieLost`), none keeps another from completing
  (`MintCanFinish`), and the next undisturbed mint restores the cap.
- A revocation is for good: by logout, by eviction or for a whole user
  (`RevokedStaysRevoked`), and `VerifiesExactly` says for every run when a cookie
  verifies. That rests on the horizons: a mark replaces any longer one, so a call
  with a horizon before the expiry could bring a revoked cookie back
  (`RevivedExactly`). The code makes no such call, because logouts pass the CSRF
  check first (`LogOut`, `LogOutReaches`).
- A comment in the logout handler provides for a gate that was passed with Basic
  credentials while the browser still holds a stale cookie, and its docstring for
  a session that is already revoked. Neither gets that far: Basic credentials
  open a session in the request itself, whose token no client can have, and the
  answer is 403, or without them 401 (`FreshSessionRefused`, `Gate`). Whenever the handler runs, its
  two revocations are of one session.
- A user name may have 64 characters of any script, but the cookie must fit in
  256 characters. It does for at most 117 bytes of UTF-8 (`FitsIff117Bytes`); an
  operator with a longer name can be created and never stays signed in
  (`LongNameNeverVerifies`). For ASCII names the two limits agree.
- The docstring of `load_env_file` says the merge runs once per process. The
  flag is tested on a variable that has been reassigned, so every call merges
  again. Idempotence makes that harmless (`LoadIsIdempotent`), but a reload does
  not make edits of `.env` visible either: values taken from the project file
  are not recorded and count as real environment from then on
  (`ReloadSeesEdit`).
- The writer prefers the system file and the loader the project file. With a
  name defined in both, a persisted value does not survive the process
  (`FreshLoadFindsValue`).
- The writer accepts names that its own line parser never finds again: with an
  outer blank, with a leading `#`, or with one of the further characters at which
  `splitlines` breaks (`NameFoundInFile`). A value may hold those characters too.
  The loader does not break there, so one write does no harm; but the next
  rewrite of the file makes the break permanent, and what followed it in the
  value becomes lines of their own (`OneWriteLeavesAlone`, `TwoWritesExactly`),
  while the value itself is cut short (`ValueSurvivesExactly`).
- A rollback onto a file that is missing takes no snapshot and cannot be undone
  (`RollbackIsReversible`).
- In a file that defines an old and a new name together, both lines stay, under
  the new name, and the lower one is the one read (`PairConflict`).
- The migration splits lines where the loader does not: a legacy name with such a
  break before its `=` stays unmigrated (`SplitNameNotMigrated`).
- Snapshots are rotated by the text of their ids. When the millisecond clock gains
  a digit, a new snapshot sorts before the old ones and, with fifty of them there,
  is dropped at once (`NewestSnapshotLost`, `SnapshotSurvivesExactly`).
- The prefix test of the archive check refuses harmless names such as `..data`
  (`DottedNameRefused`).
- The terminal has no cursor movement, as its comment on the arrow, Home and End
  keys says; but the right arrow types `[C` (`RightArrowTypes`), and every escape
  sequence other than Up and Down types its printable part (`ChunkLeavesLine`).
  While a command runs the interrupt key is dropped with all the others
  (`NothingSentWhileBusy`).

## Model

| member | source | states |
|---|---|---|
| `Base64Url.DecodeEncodedBytes` | src/vnc_remote_secure/backend/context.py:79 | Unpadded base64url (RFC 4648, section 5) read back through the re-padding of the decoder gives the same bytes, for every byte string |
| `Base64Url.EncodedAlphabet` | src/vnc_remote_secure/backend/context.py:276 | What the encoder prints holds letters, digits, `-` and `_` only, so never the `.` that separates the fields |
| `Base64Url.EncodedLength` | src/vnc_remote_secure/backend/context.py:276 | The encoder prints ceil(4n/3) characters for n bytes |
| `Base64Url.Vectors` | src/vnc_remote_secure/backend/context.py:276 | Groups of the published test vectors encode as the standard says |
| `Base64Url.ScanOneMore` | src/vnc_remote_secure/backend/context.py:79 | The lenient decoder, character by character: both alphabets are read, what is in neither is skipped, and `=` ends a group from its third character on |
| `Base64Url.DecodeTextExactly` | src/vnc_remote_secure/backend/context.py:79 | Text beyond ASCII is refused; any other is padded to whole groups and decoded |
| `Utf8.DecodeEncoded` | src/vnc_remote_secure/backend/context.py:79 | UTF-8 encoding and decoding are inverse on every string |
| `Utf8.EncodeDecoded` | src/vnc_remote_secure/backend/context.py:79 | The decoder is strict: what it takes is what the encoder writes, so nothing overlong, truncated or beyond Unicode |
| `SharedState.Clock.Time` | src/vnc_remote_secure/security/shared_state.py:291 | A clock reading is at or past the one before, by any amount |
| `OpCookie.SplitExactly` | src/vnc_remote_secure/backend/context.py:53-70 | A value is split into four given fields if and only if they are well shaped (session id, digits, hex signature, no control character), make the value up again, and it has at most 256 characters |
| `OpCookie.ParseIssued` | src/vnc_remote_secure/backend/context.py:337-367 | A minted cookie, seen from any address at any time, parses to exactly (sid, username, exp) if it has at most 256 characters, is inside its window and its signature recomputes, and is refused otherwise |
| `OpCookie.FieldShapes` | src/vnc_remote_secure/backend/context.py:65-69 | The shapes of the fields, by their lengths and characters |
| `OpCookie.ParseExactly` | src/vnc_remote_secure/backend/context.py:337-367 | Four well-shaped fields, minted or not, parse exactly if the name decodes, the expiry is ahead by at most 8 hours and a minute, and the signature is the HMAC of the spelled-out text |
| `OpCookie.ParsedShape` | src/vnc_remote_secure/backend/context.py:337-367 | Whatever the value, what parses has a session id of 8 to 64 url characters, a name of 1 to 64 characters and an expiry ahead by at most 28860 seconds |
| `OpCookie.TokenIsSid` | src/vnc_remote_secure/backend/context.py:274 | The token of any 16 random bytes is a session id that the parser takes, of 22 characters |
| `OpCookie.IssuedSplits` | src/vnc_remote_secure/backend/context.py:53-70 | A minted cookie splits into exactly its four fields if it fits in 256 characters |
| `OpCookie.IssuedLength` | src/vnc_remote_secure/backend/context.py:274-286 | The length of a minted cookie as a function of the UTF-8 length of the name |
| `OpCookie.FitsIff117Bytes` | src/vnc_remote_secure/backend/context.py:56 | With 22-character session ids and 10-digit clocks, a cookie fits the 256-character bound if and only if the name has at most 117 bytes of UTF-8 |
| `OpCookie.AsciiNameRoundTrips` | src/vnc_remote_secure/backend/context.py:262-286 | Every ASCII name of 1 to 64 characters gets a cookie that parses back from the instant of the mint until its expiry |
| `OpCookie.LongNameNeverVerifies` | src/vnc_remote_secure/security/operator_users.py:135-141 | A name that passes validation (Unicode letters count as alphanumeric) whose cookie no parse accepts: 40 characters of three bytes each |
| `OpCookie.SignedTextInjective` | src/vnc_remote_secure/backend/context.py:277-285 | The signed text determines session id, name, expiry and bound address, although addresses hold dots, and an empty bound address differs from none |
| `OpCookie.OnlyMintedVerifies` | src/vnc_remote_secure/backend/context.py:363-367 | With an unforgeable MAC a cookie is accepted only if it is, character for character, one that was minted, from the address it was bound to |
| `SharedState.Table.Get` | src/vnc_remote_secure/security/shared_state.py:281-294 | A read returns the value until its expiry and drops the entry after it; the clock is read during the call |
| `SharedState.Table.SetTtl` | src/vnc_remote_secure/security/shared_state.py:313-320 | A write replaces one entry, to lapse `ttl` after the clock reading of the call |
| `SharedState.Table.Delete` | src/vnc_remote_secure/security/shared_state.py:305-311 | A delete removes one entry and no other |
| `SharedState.Table.ListKeys` | src/vnc_remote_secure/security/shared_state.py:347-374 | The listing holds each key that has not lapsed, once |
| `OpSessionStore.MinIndex` | src/vnc_remote_secure/backend/context.py:323 | The entry a mint picks for eviction expires before every other, or at the same second with a smaller session id |
| `Text.LexLessExactly` | src/vnc_remote_secure/backend/context.py:323 | String order: a proper prefix first, and otherwise the first place where the two differ decides |
| `OpSessionStore.Store.ScanActive` | src/vnc_remote_secure/backend/context.py:308-321 | The pruning scan deletes only entries that are unreadable, expired or lapsed, leaves none that was expired when it began unless it had lapsed, and returns every other session of the user, each once |
| `OpSessionStore.Store.EvictOldest` | src/vnc_remote_secure/backend/context.py:322-326 | Eviction leaves 9 sessions, the last in eviction order, marks each victim as revoked for at least its remaining life and unlists it, and touches nothing else |
| `OpSessionStore.Store.IssueOpSession` | src/vnc_remote_secure/backend/context.py:262-329 | A whole mint, with the clock moving between any two of its calls, is one `Mint` step of the state machine: the cookie is for 28800 seconds, of ten or more sessions nine stay, each that goes expires before each that stays (or together, by id) and is marked |
| `OpSessionStore.Store.RevokeOpSession` | src/vnc_remote_secure/backend/context.py:434-439 | A revocation writes exactly one mark, of TTL max(1, horizon - floor of a clock reading) |
| `OpSessionStore.Store.RevokeUserSessions` | src/vnc_remote_secure/security/operator_users.py:176-190 | A change of password, role or state sets the user's epoch to a clock reading of the call |
| `OpSessionStore.Store.VerifyOpSession` | src/vnc_remote_secure/backend/context.py:369-384 | The revocation test of a genuine cookie is right when the call ends, unless the cookie expires while it runs |
| `OpSessionStore.ResolvesExactly` | src/vnc_remote_secure/backend/context.py:386-408 | Who resolves, and to what: a name in a readable store that is not disabled, with exactly the role of its record; and `admin`, where the store does not have it, as admin; nobody else |
| `OpSessionStore.Store.VerifyOpCookie` | src/vnc_remote_secure/backend/context.py:410-427 | Parse, revocation and account together: whatever is presented, what passes is a minted cookie that is accepted when the call ends (or expires while it runs), of a name in the store that is not disabled, with the role of its record, or of `admin` absent from the store; an accepted cookie of such an account passes |
| `OpGate.CsrfTextInjective` | src/vnc_remote_secure/backend/handlers/common.py:268-278 | The text under the HMAC of a CSRF token determines session id and nonce, although the nonce comes from the client |
| `OpGate.CheckCsrfExactly` | src/vnc_remote_secure/backend/context.py:476-495 | The check passes if and only if the token is the HMAC of the session id and the nonce, and neither is empty |
| `OpGate.TokenNamesSession` | src/vnc_remote_secure/backend/context.py:476-495 | With an unforgeable MAC the CSRF check passes only with the token that was sent out for this very session and nonce; no signature of a cookie serves as one |
| `OpGate.LogoutReadsTicket` | src/vnc_remote_secure/backend/handlers/auth.py:289-297 | From a cookie that was minted a logout reads the session id and the expiry it was minted with |
| `OpGate.LogoutHorizonExactly` | src/vnc_remote_secure/backend/handlers/auth.py:289-297 | The horizon of any cookie text: the number in its third field of four, if it has one and it is not 0, or else a whole session life from now |
| `OpSessionStore.FreshSessionRefused` | src/vnc_remote_secure/backend/context.py:476-495 | The check fails for a session that was not there before the request |
| `OpSessionStore.Store.ResolveOperator` | src/vnc_remote_secure/backend/context.py:209-246 | A request is taken for the session of its cookie if it sends just one and it verifies, or else for one that is opened for its Basic credentials |
| `OpSessionStore.Store.Gate` | src/vnc_remote_secure/backend/context.py:663-712 | Only a request whose one cookie verifies, with the token of that session, from the same site, gets through; without a session the answer is a 401 and nothing has changed, and else a 403, with at most a session opened for the Basic credentials |
| `OpSessionStore.Store.RevokeBoth` | src/vnc_remote_secure/backend/handlers/auth.py:289-306 | The two revocations of the handler, of the session of the gate and of the cookie that was sent, are one `LogOut` step of the state machine |
| `OpSessionStore.Store.LogOut` | src/vnc_remote_secure/backend/handlers/auth.py:269-306 | A logout request is turned away at the gate, or it logs out the session whose cookie it sent and whose cookie verified, and no other |
| `OpSessionStore.CookieVerifiesExactly` | src/vnc_remote_secure/backend/context.py:209-246 | A session is verified if and only if the one cookie sent is that of a ticket minted for it and this address, accepted (or expiring in the call), of an enabled account or the bootstrap admin |
| `OpSessionStore.TurnedSpelledOut` | src/vnc_remote_secure/backend/context.py:663-712 | A 401 changes nothing and is for a request without Basic credentials; a 403 is for one whose cookie verifies, with nothing changed, or opens one session for its Basic credentials |
| `OpSessionStore.TurnedWithoutToken` | src/vnc_remote_secure/backend/context.py:663-712 | An accepted cookie of someone with an account is never answered 401, and 403 only if the request comes from elsewhere or lacks the token of its session and nonce |
| `OpSessionStore.LogsOutSpelledOut` | src/vnc_remote_secure/backend/handlers/auth.py:269-306 | A logout that goes through came from the same site with one minted cookie that verified and the HMAC of its session and nonce, and that is the session logged out |
| `OpSessions.FloorDecides` | src/vnc_remote_secure/backend/context.py:307-316 | The integer clock of the index and the float clock of the cookie agree on whether an expiry has passed |
| `OpSessions.StepSound` | src/vnc_remote_secure/backend/context.py:301-329 | Every wait, mint, logout and user-wide revocation keeps: index entries and marks are of cookies that were minted, entries outlive their cookies, no user has more than 10 live entries, and epochs outlive the cookies they cut |
| `OpSessions.StepCovers` | src/vnc_remote_secure/backend/context.py:301-329 | A cookie in date is indexed, or revoked for the rest of its life: every step keeps it so |
| `OpSessions.RunSound` | src/vnc_remote_secure/backend/context.py:301-329 | What every step keeps holds in every state of every run |
| `OpSessions.RunCovers` | src/vnc_remote_secure/backend/context.py:301-329 | In every state of every run each cookie in date is indexed, or revoked for the rest of its life |
| `OpSessions.AtMostTenVerify` | src/vnc_remote_secure/backend/context.py:322-327 | At every instant of every run at most 10 cookies of one user verify |
| `OpSessions.MintBounds` | src/vnc_remote_secure/backend/context.py:322-327 | From any index state at all, a mint ends with at most 10 live entries for its user |
| `OpSessions.MintRestoresCap` | src/vnc_remote_secure/backend/context.py:322-327 | Whatever number verified before, at most 10 cookies of the user verify after an undisturbed mint |
| `OpSessions.MarkOutlives` | src/vnc_remote_secure/backend/context.py:434-439 | A mark computed from a horizon at or past a cookie's expiry, with two clock readings that may differ, never lapses before the cookie |
| `OpSessions.LogOutMarks` | src/vnc_remote_secure/backend/handlers/auth.py:298-304 | After a logout the mark of its session outlives the cookie, and nothing else has changed but by lapsing |
| `OpSessions.LogOutReaches` | src/vnc_remote_secure/backend/handlers/auth.py:298-304 | Both horizons of a logout are at or past the expiry of the cookie |
| `OpSessions.DeadForever` | src/vnc_remote_secure/backend/context.py:369-384 | A cookie that has expired, been marked for life or been cut by an epoch stays refused in every later state of every run |
| `OpSessions.RevokedStaysRevoked` | src/vnc_remote_secure/backend/context.py:434-439 | A cookie revoked by logout, by eviction or by a user-wide epoch is refused in every later state of every run |
| `OpSessions.RevivedExactly` | src/vnc_remote_secure/backend/context.py:434-439 | What a direct call of `_revoke_op_session` would do, as its mark replaces any longer one: on a cookie already revoked, a state in which it verifies could follow if and only if the horizon is before the expiry, more than a second is left, and no epoch cuts the cookie |
| `OpSessions.AcceptedExactly` | src/vnc_remote_secure/backend/context.py:369-384 | A genuine cookie is accepted if and only if it is in date, no mark on it holds, and no epoch cuts it |
| `OpSessions.StepAccepts` | src/vnc_remote_secure/backend/context.py:410-427 | After any step a cookie verifies if and only if it is in date, no epoch cuts it, the step did not evict it or log it out, and no mark was left on it |
| `OpSessions.VerifiesExactly` | src/vnc_remote_secure/backend/context.py:410-427 | In every run a cookie verifies if and only if it is in date, has not been evicted or logged out since its mint, and its user has not been revoked since the second of the mint |
| `OpSessions.FreshCookieAccepted` | src/vnc_remote_secure/backend/context.py:262-299 | A cookie just minted is accepted if and only if the mint did not outlast it and its user was not revoked in the second of the mint or later |
| `OpSessions.KeptIsUnique` | src/vnc_remote_secure/backend/context.py:322-326 | The nine sessions a mint keeps are determined by the index: no other choice is allowed |
| `OpSessions.MintEvictsEarliest` | src/vnc_remote_secure/backend/context.py:322-327 | Whatever a mint lets go has an expiry before that of whatever it keeps, or the same and a smaller session id |
| `OpSessions.MintEntries` | src/vnc_remote_secure/backend/context.py:301-329 | What becomes of each index entry in a mint: the evicted go, marked beyond their expiry, the kept stay as they were, and of all others only the unreadable, expired or lapsed may go; counted are only sessions that were in date when it began |
| `OpSessions.EvictedExpireFirst` | src/vnc_remote_secure/backend/context.py:322-327 | So, in every sound state, no cookie that a mint revokes outlives one that it leaves |
| `OpSessions.MintDeletesTheEvicted` | src/vnc_remote_secure/backend/context.py:309-327 | Of the entries whose cookie is in date, a mint deletes exactly those of its own user beyond the nine kept, and no other user's |
| `OpSessions.EpochCutsBySecond` | src/vnc_remote_secure/backend/context.py:379-381 | The epoch refuses exactly the cookies minted in its second or before |
| `OpSessions.MarkCoversLife` | src/vnc_remote_secure/backend/context.py:434-439 | One mark, left alone, covers the rest of a cookie's life if and only if its horizon is at or past the expiry, or a second or less is left |
| `OpSessionInterleaving.LogoutReaches` | src/vnc_remote_secure/backend/handlers/auth.py:298-304 | Each backend call of a logout keeps the TTLs it has computed, and those of all other logouts under way, reaching the expiry of their cookies |
| `OpSessionInterleaving.CallKeeps` | src/vnc_remote_secure/backend/context.py:301-329 | Each single backend call of any process keeps every signed cookie in date in view of the index, the marks or its own mint |
| `OpSessionInterleaving.ChooseEarliest` | src/vnc_remote_secure/backend/context.py:323 | However the calls interleave, the victim a mint chooses among those it has read expires first, by id among equals |
| `OpSessionInterleaving.RunKeeps` | src/vnc_remote_secure/backend/context.py:301-329 | So it is in every world of every interleaving of mints and logouts |
| `OpSessionInterleaving.NoCookieLost` | src/vnc_remote_secure/backend/context.py:323-327 | However mints and logouts interleave between backend calls, a cookie in date is in flight, listed, or marked for the rest of its life |
| `OpSessionInterleaving.UndisturbedMintRestoresCap` | src/vnc_remote_secure/backend/context.py:301-329 | After any interleaving the next mint that runs undisturbed brings its user back to at most 10 cookies that verify |
| `OpSessionProgress.MintCanFinish` | src/vnc_remote_secure/backend/context.py:301-329 | Wherever an interleaving has got to, each mint under way can complete by its own backend calls, at once, and then its cookie is listed; no call of another process can keep it from that |
| `OpSessionProgress.MintCanBegin` | src/vnc_remote_secure/backend/context.py:262-276 | And a process that is not minting can begin to, for any user, with a cookie for 28800 seconds |
| `OpSessionProgress.LogoutCanFinish` | src/vnc_remote_secure/backend/handlers/auth.py:289-306 | So can each logout under way, and then its session is marked for the rest of its life |
| `OpSessionProgress.LogoutCanBegin` | src/vnc_remote_secure/backend/handlers/auth.py:269-306 | And any request may begin one, of any session that was signed |
| `OpSessionBound.CallBounds` | src/vnc_remote_secure/backend/context.py:307-327 | Each backend call keeps: what is listed and live is among the at most nine that the completed mint which scanned last had kept, or was in flight when it scanned |
| `OpSessionBound.AtMostNineAndOverlap` | src/vnc_remote_secure/backend/context.py:307-327 | If at most c of a user's mints are in flight at once, at most 9 + c of their cookies verify in every world of every interleaving |
| `OpSessionBound.AtMostTenWithoutOverlap` | src/vnc_remote_secure/backend/context.py:307-327 | So the cap of 10 holds, between any two backend calls, of mints that do not overlap |
| `OpSessionOvershoot.OverlapBoundIsMet` | src/vnc_remote_secure/backend/context.py:307-327 | The bound is met: for every c there is a run, with never more than c mints in flight, that ends with 9 + c cookies verifying |
| `OpSessionAlone.OwnStands` | src/vnc_remote_secure/backend/context.py:301-329 | Each backend call of a lone mint takes it from one stage of the scan or eviction to the next |
| `OpSessionAlone.AloneIsMint` | src/vnc_remote_secure/backend/context.py:262-329 | The backend calls of one mint, with no call of another process in between, are one `Mint` step of the state machine |
| `OpSessionAlone.AloneIsLogOut` | src/vnc_remote_secure/backend/handlers/auth.py:289-306 | The backend calls of one logout, with no call of another process in between, are one `LogOut` step of the state machine |
| `Bytes.ReadPackedU32` | frontend/e2e/fixtures/_gen_vrsrec.py:17-28 | A 32-bit big-endian number is read back as written, whatever follows it |
| `Bytes.ReadsBigEndian` | frontend/src/pages/Recordings.tsx:52-67 | The reads of the parser are big-endian, byte by byte |
| `Vrsrec.SwapChannels` | frontend/src/pages/Recordings.tsx:68-74 | The pixel loop fills its buffer with the BGRX data as RGBA |
| `Vrsrec.PixelSwaps` | frontend/src/pages/Recordings.tsx:68-74 | Each pixel comes out with red and blue exchanged and alpha 255 |
| `Vrsrec.ReadBlockAt` | frontend/src/pages/Recordings.tsx:61-79 | One block is read as the specification says, including the reads past a payload that is too short and the errors they raise |
| `Vrsrec.ReadBlockExactly` | frontend/src/pages/Recordings.tsx:61-79 | What any block is, by its type byte and the offsets of its fields, and when reading it fails |
| `Vrsrec.UnknownBlockSkipped` | frontend/src/pages/Recordings.tsx:76-80 | A block of any other type is skipped by its length |
| `Vrsrec.TailSwaps` | frontend/src/pages/Recordings.tsx:68-74 | A tail of one to three bytes: reads past the end give 0 and writes past it are lost |
| `Vrsrec.ParseBlocksFrom` | frontend/src/pages/Recordings.tsx:55-81 | The block loop ends, never reads outside the file unless it reports so, and computes the specified rectangles and duration |
| `Vrsrec.ParseVrsrec` | frontend/src/pages/Recordings.tsx:47-83 | The whole parser computes the specified result or error for every byte string |
| `Vrsrec.ParseExactly` | frontend/src/pages/Recordings.tsx:47-83 | Any file: the eight magic bytes, the length of the header, the header as far as the file goes, the blocks behind it, and the first error of these |
| `Vrsrec.ReadWritten` | frontend/e2e/fixtures/_gen_vrsrec.py:17-28 | A block that was written is read back, whatever follows it |
| `Vrsrec.ParseCutBlocks` | frontend/src/pages/Recordings.tsx:57-81 | Of a block sequence cut at any byte, exactly the blocks that fit whole are read |
| `Vrsrec.CutRecordingPlays` | frontend/src/pages/Recordings.tsx:47-83 | A recording cut at any byte after its header parses to exactly the rectangles of the blocks that fit whole |
| `Vrsrec.RecordingRoundTrips` | frontend/e2e/fixtures/_gen_vrsrec.py:17-46 | Writing and parsing gives back the header, every rectangle in order and the last timestamp, for any blocks within the u16/u32 ranges |
| `Vrsrec.LastTimeIsMaximum` | frontend/src/pages/Recordings.tsx:76-78 | The duration is the maximum of the timestamps of all blocks |
| `RecordingPlayer.PaintToShows` | frontend/src/pages/Recordings.tsx:129-146 | From any reachable state, painting to a position leaves what a replay from black would show there |
| `RecordingPlayer.PutImageAt` | frontend/src/pages/Recordings.tsx:141-142 | One rectangle on any canvas: the pixels it covers become its own, four bytes each, row by row; the others stay |
| `RecordingPlayer.FrameShowsLast` | frontend/src/pages/Recordings.tsx:129-146 | At every position each pixel shows the four bytes of the last painted rectangle that covers it |
| `RecordingPlayer.FrameElseBlack` | frontend/src/pages/Recordings.tsx:129-146 | And is black where none does |
| `RecordingPlayer.TargetExactly` | frontend/src/pages/Recordings.tsx:152-173 | Where a seek and a tick lead: the speed multiplies the time elapsed, and the duration bounds it |
| `RecordingPlayer.AnyMovesShowTheFrame` | frontend/src/pages/Recordings.tsx:148-173 | After any sequence of ticks and seeks, canvas and index equal a replay from a black frame to the position reached |
| `RecordingPlayer.FrameShowsAllDue` | frontend/src/pages/Recordings.tsx:138-144 | The frame shows exactly the rectangles due if and only if none that is due stands behind one that is not |
| `RecordingPlayer.EndPaintsAll` | frontend/src/pages/Recordings.tsx:155-156 | Played to the parsed duration, every rectangle has been painted, whatever the order of the blocks |
| `RecordingPlayer.WrittenAreDrawable` | frontend/e2e/fixtures/_gen_vrsrec.py:17-23 | Files written with whole frames of pixels satisfy what drawing asks for |
| `RecordingPlayer.Player.PaintTo` | frontend/src/pages/Recordings.tsx:129-146 | The incremental painter ends in the state of the replay |
| `RecordingPlayer.Player.Tick` | frontend/src/pages/Recordings.tsx:152-164 | One animation frame moves to the position due, stops at the duration and shows the frame of a replay |
| `RecordingPlayer.Player.Seek` | frontend/src/pages/Recordings.tsx:169-173 | A seek stops playing and shows the frame of a replay |
| `EnvText.SplitJoinLines` | src/vnc_remote_secure/core/config.py:281-303 | Lines written with a newline after each are the lines read back |
| `EnvText.WrittenLine` | src/vnc_remote_secure/core/config.py:238-243 | A written line `name=value` defines that name with that value, its outer blanks removed |
| `EnvText.HasSubstitutionExactly` | src/vnc_remote_secure/core/config.py:125 | A value has a substitution if and only if it holds a backtick or `$(` |
| `EnvText.LoadedExactly` | src/vnc_remote_secure/core/config.py:105-130 | Loaded is what the lines define, less the values with a backtick or `$(` |
| `EnvLoad.Loader.LoadDefaults` | src/vnc_remote_secure/core/config.py:169-178 | A defaults file sets and records just what is not set yet |
| `EnvLoad.Loader.LoadSystem` | src/vnc_remote_secure/core/config.py:355-364 | The system file sets and records just what neither the real environment nor the project file sets |
| `EnvLoad.Loader.LoadProject` | src/vnc_remote_secure/core/config.py:365-369 | The project file overrides all but the real environment |
| `EnvLoad.Loader.LoadEnvFile` | src/vnc_remote_secure/core/config.py:317-374 | The staged merge comes to `Loaded`, the order of precedence given variable by variable; the flag that would skip a load is never raised |
| `EnvLoad.StagesLoad` | src/vnc_remote_secure/core/config.py:351-371 | The four stages, each in any order of its keys, add up to the declared order of precedence |
| `EnvLoad.FirstLoadPrecedence` | src/vnc_remote_secure/core/config.py:317-325 | In a fresh process: real environment, then project, system, common and platform file |
| `EnvLoad.LoadIsIdempotent` | src/vnc_remote_secure/core/config.py:332-374 | A second load of the same files changes neither the environment nor the record of defaults, from any state whatever |
| `EnvLoad.RealValueSurvives` | src/vnc_remote_secure/core/config.py:196-198 | However many loads of whatever files follow, a variable whose value is not a recorded default keeps it until the process itself sets it |
| `EnvLoad.ReloadSeesEdit` | src/vnc_remote_secure/core/config.py:336-369 | An edit of the project file reaches a process that already loaded it if and only if the old value equals the default recorded for the variable, or nothing changed |
| `EnvPersist.RewriteEnvKey` | src/vnc_remote_secure/core/config.py:274-303 | The rewriting loop writes the specified lines |
| `EnvPersist.OthersKept` | src/vnc_remote_secure/core/config.py:284-292 | Every line that does not define the name is kept, in order |
| `EnvPersist.ParseAfterWrite` | src/vnc_remote_secure/core/config.py:274-303 | What the loader makes of a rewritten file, for every file and every value not refused: the variables of the lines the writer read, and the new one |
| `EnvPersist.OneWriteLeavesAlone` | src/vnc_remote_secure/core/config.py:274-303 | One write leaves another variable alone if and only if writer and loader agreed on it in the file; the value never matters |
| `EnvPersist.TwoWritesExactly` | src/vnc_remote_secure/core/config.py:274-303 | After a second write another variable is as it was, in every file that breaks at line feeds only, if and only if the first value leaves no line of its own that defines it |
| `EnvPersist.SaysItsValue` | src/vnc_remote_secure/core/config.py:274-303 | What the lines of a written value say of its own variable is the trimmed value if and only if no line break stands in it before a visible character |
| `EnvPersist.ValueSurvivesExactly` | src/vnc_remote_secure/core/config.py:274-303 | After a second write, of another variable, the loader still finds the value written first, in every file, if and only if no line break stands in it before a visible character and it holds no substitution |
| `EnvPersist.ParseRewrittenFile` | src/vnc_remote_secure/core/config.py:274-303 | Read back, a file that breaks at line feeds only gives the new value and leaves every other variable as it was |
| `EnvPersist.FreshLoadFindsValue` | src/vnc_remote_secure/core/config.py:213-272 | A fresh process finds the value written if and only if the real environment holds no other, and the project file holds no other while a line of the system file, which the write then went to, defines the name |
| `EnvPersist.SystemFileFirst` | src/vnc_remote_secure/core/config.py:254-272 | The system file is written if one of its lines defines the name, whatever the project file holds; otherwise the project file; and the other stays |
| `EnvPersist.FreshLoadKeepsOthers` | src/vnc_remote_secure/core/config.py:213-251 | A fresh process finds any other variable as before if and only if the real environment holds it, or the project file does while the system file was written, or what writer and loader read of it from the file written comes to the same above what ranks below |
| `EnvPersist.NameFoundInFile` | src/vnc_remote_secure/core/config.py:254-292 | For every file, name and value not refused, the written file defines the name if and only if the name has no outer blanks, does not start with `#` and holds no character at which `splitlines` breaks |
| `EnvPersist.ShortNameFound` | src/vnc_remote_secure/core/config.py:226-228 | A name of two characters that is not refused is found again if and only if neither is a blank and the first is not `#` |
| `EnvPersist.BrokenNameLost` | src/vnc_remote_secure/core/config.py:226-228 | A name with a vertical tab in its middle is not found again |
| `EnvPersist.Writer.SetEnvPersistent` | src/vnc_remote_secure/core/config.py:213-272 | What is refused, that the system file is rewritten if one of its lines defines the name and the project file otherwise, that the other stays, and that the process sees the value at once |
| `EnvMigration.MigrateEnvLine` | src/vnc_remote_secure/core/config_migration.py:34-57 | Computes the migrated line and the changes; a dry run reports the same changes and leaves the line |
| `EnvMigration.FindMigration` | src/vnc_remote_secure/core/config_migration.py:41-46 | The first entry of a table whose old name is the one sought |
| `EnvMigration.MigrateLines` | src/vnc_remote_secure/core/config_migration.py:79-82 | The loop over the lines |
| `EnvMigration.MigrateEnv` | src/vnc_remote_secure/core/config_migration.py:60-88 | A dry run reports exactly the changes an applied run makes; nothing is written when there are none |
| `EnvMigration.MigratedSides` | src/vnc_remote_secure/core/config_migration.py:41-56 | Each first-occurrence `replace` hits only the key, or only the value: the blanks and the other side stay |
| `EnvMigration.MigratedBinds` | src/vnc_remote_secure/core/config_migration.py:34-57 | A migrated line defines the new name with the new value, and is an assignment if and only if the line was |
| `EnvMigration.NewNames` | src/vnc_remote_secure/core/config_migration.py:14-23 | What becomes of each name: the four legacy ones and no other |
| `EnvMigration.NewValues` | src/vnc_remote_secure/core/config_migration.py:23-31 | What becomes of each value: the four profile aliases, under either name of the profile, and no other |
| `EnvMigration.LineMigrates` | src/vnc_remote_secure/core/config_migration.py:34-57 | An assignment gets the new name and the new value of the tables, and just these changes are reported |
| `EnvMigration.UnchangedIffNoChange` | src/vnc_remote_secure/core/config_migration.py:34-57 | A line is identical after migration if and only if no change is reported for it |
| `EnvMigration.MigratedParse` | src/vnc_remote_secure/core/config_migration.py:79-82 | For each variable of the migrated lines, the last line that comes to define it decides |
| `EnvMigration.MigrationCommutesWithParsing` | src/vnc_remote_secure/core/config_migration.py:60-88 | On the lines that the migration reads: migrating then parsing is parsing then renaming if and only if no two variables that become one were defined together with different values |
| `EnvMigration.LoaderReadsMigrated` | src/vnc_remote_secure/core/config_migration.py:60-88 | The loader reads from a migrated file the variables of the migrated lines, less the substitutions; from one left alone, what it read before |
| `EnvMigration.MigrationCommutesWithLoading` | src/vnc_remote_secure/core/config_migration.py:60-88 | For the loader: migrating a file is renaming what it reads, for every file that the migration changes or that breaks at line feeds only, if and only if the line that defines each new name last gives it the value due and one that is loaded; where lines end at line feeds only, that is if no two loaded variables that become one differ and none is outdone by one that the loader drops |
| `EnvMigration.SplitNameNotMigrated` | src/vnc_remote_secure/core/config_migration.py:41-46 | A file the two read differently: a legacy name with a vertical tab before its `=` is loaded and not migrated |
| `EnvMigration.PairConflict` | src/vnc_remote_secure/core/config_migration.py:41-46 | Of a file that defines a legacy name and, below it, its new name, the migrated lines give the value of the lower line |
| `EnvMigration.MigratedTextLines` | src/vnc_remote_secure/core/config_migration.py:84-87 | The lines of the written file are the migrated lines |
| `EnvMigration.MigrationIsIdempotent` | src/vnc_remote_secure/core/config_migration.py:60-88 | Migrating twice is migrating once, and the second time nothing is reported |
| `ConfigHistory.SortDescending` | src/vnc_remote_secure/core/config_history.py:137 | The ids in descending code-point order, all of them |
| `ConfigHistory.MaxId` | src/vnc_remote_secure/core/config_history.py:137 | The id that no other follows |
| `ConfigHistory.KeptIsFirst` | src/vnc_remote_secure/core/config_history.py:137-138 | Of a descending list the entries kept are the first 50 |
| `ConfigHistory.Store.Rotate` | src/vnc_remote_secure/core/config_history.py:134-141 | Rotation keeps exactly the snapshots that fewer than 50 others follow |
| `ConfigHistory.Store.TakeSnapshot` | src/vnc_remote_secure/core/config_history.py:82-131 | A snapshot stores the bytes of the file under the id of the clock and digest, then rotates |
| `ConfigHistory.Store.RollBack` | src/vnc_remote_secure/core/config_history.py:175-219 | A rollback reads the snapshot, saves the live file, then restores; or changes nothing and says why |
| `ConfigHistory.RolledBackExactly` | src/vnc_remote_secure/core/config_history.py:175-219 | An unknown id and a source that is no target are refused; otherwise the source gets the bytes of the snapshot and every other file stays |
| `ConfigHistory.IdOrder` | src/vnc_remote_secure/core/config_history.py:102 | Ids sort as the clock readings they were made of, for readings of equally many digits |
| `ConfigHistory.IdsTurnWithDigits` | src/vnc_remote_secure/core/config_history.py:102 | A reading that gains a digit sorts before the one it follows |
| `ConfigHistory.KeptAgain` | src/vnc_remote_secure/core/config_history.py:134-141 | What rotation dropped before never matters again: rotating the rest with a new id keeps what rotating them all would |
| `ConfigHistory.HistoryIsTheGreatest` | src/vnc_remote_secure/core/config_history.py:82-141 | In every run, whatever the clock does, the history holds exactly those of all snapshots ever taken that fewer than 50 others follow by id, each as it was last taken |
| `ConfigHistory.SnapshotSurvivesExactly` | src/vnc_remote_secure/core/config_history.py:82-131 | A new snapshot survives its own rotation if and only if fewer than 50 of those in the history follow it by id |
| `ConfigHistory.NewestSnapshotLost` | src/vnc_remote_secure/core/config_history.py:102-141 | A run with an advancing clock whose newest snapshot is the one that rotation drops: fifty snapshots up to the last reading of k digits, and one at the next |
| `ConfigHistory.RotatedKeepsNewest` | src/vnc_remote_secure/core/config_history.py:134-141 | Rotation by name keeps the newest 50 by clock |
| `ConfigHistory.StepKeeps` | src/vnc_remote_secure/core/config_history.py:82-219 | Every write, removal, snapshot and rollback keeps the directory equal to the newest snapshots taken |
| `ConfigHistory.HistoryIsTheNewest` | src/vnc_remote_secure/core/config_history.py:82-141 | In every run with an advancing clock that gains no digit the history holds exactly the newest 50 snapshots, with the bytes each was taken of |
| `ConfigHistory.RollbackIsReversible` | src/vnc_remote_secure/core/config_history.py:175-214 | A rollback restores the exact bytes, and a further rollback can bring every file back if and only if there was a live file to begin with |
| `ConfigHistory.LiveFileComesBack` | src/vnc_remote_secure/core/config_history.py:195-201 | It is the snapshot the rollback took that does, even if it rotated out the one being restored |
| `BackupRestore.NormalisedShape` | src/vnc_remote_secure/core/backup.py:562-564 | In a normalised path `..` survives only as a leading run, and only in a relative path |
| `BackupRestore.NormalisationKeepsMeaning` | src/vnc_remote_secure/core/backup.py:562-564 | A normalised path leads where the path itself does, step by step, from every directory |
| `BackupRestore.JoinMeans` | src/vnc_remote_secure/core/backup.py:528-529 | A joined path leads where its second part does from where the first does |
| `BackupRestore.LeadingSlashes` | src/vnc_remote_secure/core/backup.py:562-564 | An absolute path keeps one leading slash, or exactly two |
| `BackupRestore.NameAcceptedExactly` | src/vnc_remote_secure/core/backup.py:506-513 | The names that pass are exactly: relative, not the root itself, and normalising to a first component that does not start with two dots |
| `BackupRestore.FileAcceptedExactly` | src/vnc_remote_secure/core/backup.py:506-538 | A plain file is let through if and only if its name is accepted and it has at most 512 MiB |
| `BackupRestore.LinkAcceptedExactly` | src/vnc_remote_secure/core/backup.py:520-533 | A link whose name is accepted is let through if and only if it is relative and its target, told from its own directory or the root, does not begin with two dots |
| `BackupRestore.AcceptedStaysBelow` | src/vnc_remote_secure/core/backup.py:506-513 | Every accepted member leads strictly below the extraction directory, and each prefix of its path to a place at or below it |
| `BackupRestore.DottedNameRefused` | src/vnc_remote_secure/core/backup.py:508 | The prefix test also refuses names that lead below the root, such as `..data` |
| `BackupRestore.AcceptedLinkStaysInside` | src/vnc_remote_secure/core/backup.py:520-533 | Every accepted link is relative and leads at or below the extraction directory, and so does each prefix of it, from its own directory for a symbolic link and from the root for a hard link |
| `BackupRestore.ValidateMember` | src/vnc_remote_secure/core/backup.py:506-538 | The member check, in the order of the code, computes acceptance and the size, and lets no member of more than 536870912 bytes through |
| `BackupRestore.CheckMembers` | src/vnc_remote_secure/core/backup.py:556-569 | Let through are exactly the archives with at most 10000 members, each accepted and of at most 536870912 bytes, and at most 2147483648 bytes in all |
| `BackupRestore.CopyCapped` | src/vnc_remote_secure/core/backup.py:84-96 | Whatever the stream yields, no more than the limit is written, and a stream within it is written whole |
| `TerminalEditor.Editor.OnData` | frontend/src/pages/TerminalPage.tsx:165-225 | The key handler computes `Step` on its fields, and keeps the history within its bound and the index valid |
| `TerminalEditor.Editor.SubmitLine` | frontend/src/pages/TerminalPage.tsx:168-179 | Enter sends the line, adds it to the history unless blank, drops the oldest past 100, and closes the gate |
| `TerminalEditor.Editor.ShowOlder` | frontend/src/pages/TerminalPage.tsx:188-196 | Up computes `Older`, within the bounds of the history |
| `TerminalEditor.Editor.ShowNewer` | frontend/src/pages/TerminalPage.tsx:197-206 | Down computes `Newer`, within the bounds of the history |
| `TerminalEditor.Editor.OnBusy` | frontend/src/pages/TerminalPage.tsx:133-134 | A busy message sets the gate and nothing else |
| `TerminalEditor.Editor.OnCompletion` | frontend/src/pages/TerminalPage.tsx:103-113 | A single suggestion rewrites the line from the text the server answers; several leave it |
| `TerminalEditor.HistoryIsTheNewest` | frontend/src/pages/TerminalPage.tsx:168-177 | In every run the history is the last 100 submitted commands that were not blank, and the index is -1 or valid |
| `TerminalEditor.UpsShow` | frontend/src/pages/TerminalPage.tsx:188-196 | k presses of Up from a fresh line show the k-th command from the end, or the first |
| `TerminalEditor.DownsShow` | frontend/src/pages/TerminalPage.tsx:197-206 | k presses of Down lead k entries on, and past the last to an empty line |
| `TerminalEditor.UpsThenDowns` | frontend/src/pages/TerminalPage.tsx:188-206 | For every k, k Ups then k Downs come back to a fresh line; what had been typed is lost if and only if there is a history |
| `TerminalEditor.CommandsAreClean` | frontend/src/pages/TerminalPage.tsx:211-224 | Whatever keys, pasted chunks and completions arrive, no message sent, no history entry and no input ever holds a character below the space, or DEL, that no completion brought in |
| `TerminalEditor.CleanCharIsSent` | frontend/src/pages/TerminalPage.tsx:221-224 | Every other character can be sent: typed alone and then Enter, if and only if it is not below the space and not DEL |
| `TerminalEditor.EnterSendsLine` | frontend/src/pages/TerminalPage.tsx:168-179 | Enter sends the whole line and clears it; a line of blanks leaves the history, any other is added, and past 100 the oldest goes |
| `TerminalEditor.TypedLineIsSent` | frontend/src/pages/TerminalPage.tsx:165-225 | Printable text typed and entered is sent whole, after what the line held |
| `TerminalEditor.InterruptDropsLine` | frontend/src/pages/TerminalPage.tsx:183-187 | After Ctrl-C and Enter what is sent is the interrupt and the empty command |
| `TerminalEditor.TabAsks` | frontend/src/pages/TerminalPage.tsx:208-211 | Tab asks for completions of the line, unless it is empty |
| `TerminalEditor.ArrowsAndErase` | frontend/src/pages/TerminalPage.tsx:178-207 | Up, Down and erase, by what the terminal sends for them |
| `TerminalEditor.NothingSentWhileBusy` | frontend/src/pages/TerminalPage.tsx:165-167 | Until the server lifts the gate nothing is sent, an interrupt included, and the history stands still |
| `TerminalEditor.GateBetweenMessages` | frontend/src/pages/TerminalPage.tsx:165-179 | In every run, between a command and the next message sent the server has lifted the gate |
| `TerminalEditor.PasteIsTyping` | frontend/src/pages/TerminalPage.tsx:211-224 | Pasting printable text leaves the same state as typing it |
| `TerminalEditor.ErasingUndoesTyping` | frontend/src/pages/TerminalPage.tsx:180-184 | As many backspaces as characters typed restore the state |
| `TerminalEditor.ChunkLeavesLine` | frontend/src/pages/TerminalPage.tsx:211-220 | A multi-character key sequence other than Up and Down leaves the line alone if and only if it holds no printable character |
| `TerminalEditor.RightArrowTypes` | frontend/src/pages/TerminalPage.tsx:225 | The right arrow types `[C` |
| `TerminalEditor.CompletionReplacesLastWord` | frontend/src/pages/TerminalPage.tsx:105-108 | A single suggestion replaces just the last word of the text it answers |

## Left out

- OpSessions.AtMostTenVerify: states the cap for runs of whole mints in which no backend call raises; the code swallows such exceptions and then leaves a cookie unindexed.
- OpSessionStore.ResolvesExactly: the permissions that go with an account's role are not part of this model.
- OpSessionStore.Store.LogOut: `int` is the parameter `readInt`, asked to undo decimal printing; a backend exception, which the code swallows, is left out.
- OpSessionStore.Store.Gate: of the Basic credentials the outcome is given, and of Origin and Sec-Fetch-Site whether they pass; routes that ask for a permission are not part of this model.
- OpGate.TokenNamesSession: the MAC is ideal over the two kinds of text modelled; other texts signed with the same secret, and its rotation, are not part of this model.
- OpSessionInterleaving.NoCookieLost: a backend `get` that drops a lapsed entry is one step; the SQLite backend does it in two, so a concurrent rewrite of that key could be dropped with it.
- OpCookie.OnlyMintedVerifies: the MAC is ideal (a signature that recomputes was computed by a mint); the secret and its rotation are not part of this model.
- OpSessions.EpochCutsBySecond: the epoch is a real; its decimal text (`str` then `float`) is taken to be exact.
- Vrsrec.ParseVrsrec: DecompressionStream is the parameter `inflate`; a header whose JSON lacks `width` or `height` is taken to be a failure of `readHeader`.
- RecordingPlayer.AnyMovesShowTheFrame: asks that each rectangle has pixels for its size, as `ImageData` would raise otherwise; `Z` blocks count for the duration only, as in the parser, and the canvas is taken to start black.
- EnvPersist.ParseRewrittenFile: values have no outer blanks and no shell substitutions; python-dotenv's quoting, escapes, comments after a value, `export`, interpolation and refusal of names with inner blanks are not part of this model.
- EnvLoad.Loader.LoadEnvFile: the four files are given as parsed maps; the search for the defaults directory and for the system file is not part of this model.
- EnvPersist.Writer.SetEnvPersistent: the rewrite is atomic and does not fail; the snapshot it takes first is in ConfigHistory.
- EnvMigration.MigratedParse: lines are parsed as plain assignments, as for `ParseRewrittenFile`.
- EnvText.SplitJoinLines: the text of a file is what reading it as text gives, with CR and CR LF turned into LF.
- ConfigHistory.HistoryIsTheNewest: asks for a strictly advancing millisecond clock that gains no digit; `HistoryIsTheGreatest` is for any clock, where two snapshots of equal content in one millisecond share an id.
- ConfigHistory.Store.RollBack: an id of the wrong shape and an unknown id are one error; the sidecar is the restore target only, without actor, reason and `_diff_keys`.
- BackupRestore.AcceptedStaysBelow: confinement is lexical; what links already extracted do to later members, and the `data` filter of `extractall`, are not part of this model. The extraction directory is not the root directory and its own path holds no links.
- BackupRestore.CheckMembers: a refused member and a member that is too large are one error.
- BackupRestore.CopyCapped: the stream is its list of chunks; the choice of codec by magic bytes is not part of this model.
- TerminalEditor.Editor.OnData: strings are sequences of characters of the Basic Multilingual Plane, where a character is one UTF-16 unit; drawing on the terminal is not modelled.
- File permissions, locks, temporary files and crash recovery; HTTP routing, step-up authentication and audit records; the tar format; React state and rendering.
