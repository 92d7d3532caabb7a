# Selkie: verified models of the hard core

Dafny models of six parts of Selkie, each with the properties that span its operations.

- **X25519 and key text** (`TwosComplement`, `Limbs`, `FieldElement`, `Rfc7748`, `X25519`, `KeyCodec`).
  The vendored C keeps field elements as sixteen signed 64-bit limbs. The model keeps the arrays and
  loops; `int64` is a bounded type, so each operation is proved not to overflow. `Rfc7748` is an
  independent definition of section 5 of RFC 7748 over the integers modulo 2^255-19, and
  `KeyCodec.Base64` and `KeyCodec.Hex` of sections 4 and 8 of RFC 4648. Shifts and masks are integer
  operations on two's complement. `char` may be signed or unsigned in `key_from_base64`.
- **Session custody** (`SessionCache`, `SessionCustody`, `SessionSafety`, `SessionRuns`). Rows shared by
  any number of processes and requests, row locks, one cache and flight table per process, and UOA as an
  authority that rotates and revokes refresh families. A step is what happens between two lock or commit
  points: staging and creation (session_admission.go:12-26, uoa_sessions.go:68-79), admission (57-61),
  hastened and postponed cleanup (session_admission.go:68, session_maintenance.go:41), the stages of a
  resolve (acquire, the locking SELECT with the cache lookup, exchange, save, profile check, cache
  store), the three stages of a logout, and the three of a cleanup. A lost reply, an error or a crash is
  the step `Fail`, open to every request at every point; a commit whose reply is lost is its own step.
  Sealing is fresh and invertible, fingerprints are injective. The moment a resolve succeeds is its last
  read of the row: a logout that commits between that read and the return does not undo it.
- **Home peer** (`PeerTable`, `PeerChanges`, `HomePeer`). A WireGuard device is a set of keys and a map
  from addresses to keys, so assigning an address takes it from its old key. The object's methods are
  proved against the steps of a state machine with a clock, timer callbacks that may still be pending
  after they were stopped, connections and the device.
- **Hub and device keys** (`Hub`, `DeviceKeys`). Reconciliation of the same kind of table with the
  database's records, and the four transactions that write `device_keys`, each all or nothing.
- **Config text** (`Text`, `DirectConfig`, `WireGuardConfig`, `KeyInjection`, `InjectionEffect`,
  `ConfigRoundTrip`, `ConfigWitnesses`). The server's printer with its checks, the app's parser and its
  private-key injection, as text. The parser takes any line break, the injection only the line feed, so a
  piece of text the injection handles as one line can be several to the parser.
- **Snapshot, limiter and client address** (`DirectSnapshot`, `MemoryLimiter`, `ClientIp`).

Clocks, random draws, upstream answers, database results and map iteration orders are parameters or
parts of a step. In the snapshot and the timer the zero time is 0 and every clock reading is after it.

## Where the plain statement is false

- Incremental reconfiguration equals a full one exactly under the condition of
  `PeerChanges.Separable`; a device that keeps its key and moves to another address loses its peer
  (`PeerChanges.MovedKeyIsDropped`).
- After an expiry callback no expired peer of `active` is in the device, in every run
  (`HomePeer.FiringRemovesEveryExpiredKey`). That the device then routes nothing but unexpired peers holds
  exactly when each address led before to its own unexpired peer or to an expired peer's key
  (`HomePeer.FiringIsExactIff`), and always where every earlier configuration call succeeded on separable
  peers. A failed call can leave a peer that was never in `active`: it stays routed after the callback
  (`HomePeer.FiringLeavesTornPeer`), and without any callback to come (`HomePeer.FailedCallOutlivesLease`).
  The current generation has a timer exactly while Close has not intervened since the last schedule.
- A hub sync is exact, for distinct keys and addresses, exactly when key texts are canonical: the table's
  pattern (migrations/001_initial.sql:100-101) also admits other texts that decode to the same key. An
  interface tool that refuses those, as `key_from_base64` does, makes every successful sync exact.
- Printed configs read back exactly when no key and no endpoint holds a line break. The base64 decoder
  skips line breaks (`ConfigWitnesses.BrokenKeyIsMisread`), and an IPv6 zone can hold one
  (`ConfigWitnesses.BrokenEndpointIsMisread`).
- Private-key injection changes the key and nothing else exactly when the edit settles by the next section
  header (`InjectionEffect.OnlyTheKeyChangesIff`). Edits that can be seen to do so beforehand are
  `InjectionEffect.CleanEdit`: every insertion, a replaced piece whose lines set nothing but the key, and a
  prepended section when no line before the first header sets anything else in it. A replaced piece can take
  the address with it (`ConfigWitnesses.ReplacementLosesTheAddress`), and a prepended section can take in stray
  lines (`ConfigWitnesses.PrependingTakesInStrayLines`).
- The injected key takes effect, in any edited config that parses, exactly under the condition of
  `InjectionEffect.KeyTakesEffectIff`; `InjectionEffect.KeyInForce` says which key has effect otherwise. It
  does not in a config with carriage returns and a placeholder (`ConfigWitnesses.PlaceholderWins`), or where a
  tab stands before the equals sign (`ConfigWitnesses.TabbedKeyWins`).
- The limiter reads the clock before it takes the lock, so readings can be out of order. When those of one
  key are, the bound of twice the limit can fail (`MemoryLimiter.OutOfOrderBreaksTheBound`), and with a reading
  older than a sweep before it the sweep can show in the decisions (`MemoryLimiter.LateStampSeesTheSweep`).
- The limiter's decisions equal those of one without sweep and cap when the latter is fed the calls that
  were not refused: a refused call is forgotten. The comment at internal/ratelimit/memory.go:82-85 says
  a full map means live windows only; the code sweeps on every 64th call, so that holds exactly under the
  condition of `MemoryLimiter.OverloadIsRealIff`, and fails in `MemoryLimiter.OverloadByExpiredBuckets`.
  The model follows the code.

## Model

| member | source | states |
|---|---|---|
| `Limbs.Carry` | App/ios/Vendor/WireGuardKit/Sources/WireGuardKitC/x25519.c:17-25 | one pass turns limbs 1 to 15 into digits, returns the top carry to limb 0 times 38, keeps the value mod 2^255-19, and overflows nothing for limbs below 2^62 |
| `Limbs.FirstCarryRange` | App/ios/Vendor/WireGuardKit/Sources/WireGuardKitC/x25519.c:17-25 | after one pass over a product's limbs only limb 0 can leave the digit range, and by how much |
| `Limbs.SecondCarryRange` | App/ios/Vendor/WireGuardKit/Sources/WireGuardKitC/x25519.c:17-25 | after two passes limb 0 is in [-38, 65573] and the others are digits |
| `Limbs.ThirdCarryRange` | App/ios/Vendor/WireGuardKit/Sources/WireGuardKitC/x25519.c:44-47 | after three passes every limb is a digit |
| `Limbs.Add` | App/ios/Vendor/WireGuardKit/Sources/WireGuardKitC/x25519.c:74-80 | the value is the sum, and two reduced elements give limbs a product can take |
| `Limbs.Subtract` | App/ios/Vendor/WireGuardKit/Sources/WireGuardKitC/x25519.c:82-88 | the value is the difference, within the same limb bound |
| `Limbs.MultiplyRow` | App/ios/Vendor/WireGuardKit/Sources/WireGuardKitC/x25519.c:95-98 | one row of the schoolbook product adds a[i]*b at limb i, with no int64 overflow for any loose operands |
| `FieldElement.MultMod` | App/ios/Vendor/WireGuardKit/Sources/WireGuardKitC/x25519.c:90-104 | the result is congruent to the product, never overflows, and is back in the range [-38, 65573] and [0, 65535] that Add and Subtract accept, even when the output is one of the inputs |
| `FieldElement.FoldHigh` | App/ios/Vendor/WireGuardKit/Sources/WireGuardKitC/x25519.c:99-101 | adding 38 times the upper limbs keeps the value mod 2^255-19 |
| `FieldElement.Cswap` | App/ios/Vendor/WireGuardKit/Sources/WireGuardKitC/x25519.c:27-37 | the two elements are exchanged for b = 1 and untouched for b = 0 |
| `FieldElement.SwapByMask` | App/ios/Vendor/WireGuardKit/Sources/WireGuardKitC/x25519.c:33-35 | the xor-and-mask idiom exchanges two words under an all-ones mask and keeps them under zero |
| `FieldElement.Unpack` | App/ios/Vendor/WireGuardKit/Sources/WireGuardKitC/x25519.c:65-72 | the value is the little-endian number of the bytes with the top bit cleared |
| `FieldElement.TrySubtract` | App/ios/Vendor/WireGuardKit/Sources/WireGuardKitC/x25519.c:49-56 | the borrow bit says whether the value is below 2^255-19, and the digits left are the difference |
| `FieldElement.Pack` | App/ios/Vendor/WireGuardKit/Sources/WireGuardKitC/x25519.c:39-63 | three carries and two conditional subtractions write the bytes of the unique representative in [0, 2^255-19) |
| `FieldElement.BytesAreUnique` | App/ios/Vendor/WireGuardKit/Sources/WireGuardKitC/x25519.c:59-62 | a byte string is the encoding of its own little-endian value, so the packed form is unique |
| `FieldElement.PackedReadsBack` | App/ios/Vendor/WireGuardKit/Sources/WireGuardKitC/x25519.c:59-71 | unpack of packed bytes gives the same representative: the bit it masks is already clear |
| `FieldElement.InvertExponentIsPrimeMinus2` | App/ios/Vendor/WireGuardKit/Sources/WireGuardKitC/x25519.c:112-116 | 254 square-and-multiply rounds that skip the multiply at 2 and 4 raise to the power 2^255-21 |
| `FieldElement.Invert` | App/ios/Vendor/WireGuardKit/Sources/WireGuardKitC/x25519.c:106-118 | the result is congruent to the (p-2)-th power of the input |
| `X25519.SwapsCompose` | App/ios/Vendor/WireGuardKit/Sources/WireGuardKitC/x25519.c:136-160 | swapping before and after each step equals RFC 7748's deferred swap by the xor of adjacent bits |
| `X25519.LadderStep` | App/ios/Vendor/WireGuardKit/Sources/WireGuardKitC/x25519.c:138-159 | one round takes the four field elements to the ladder step of section 5 of RFC 7748 |
| `X25519.LadderLoop` | App/ios/Vendor/WireGuardKit/Sources/WireGuardKitC/x25519.c:136-160 | 255 rounds hold exactly the RFC's ladder variables for the clamped scalar |
| `X25519.Clamp` | App/ios/Vendor/WireGuardKit/Sources/WireGuardKitC/x25519.c:128-131 | the private key is copied and clamped as the RFC's decodeScalar25519 does |
| `X25519.SharedSecret` | App/ios/Vendor/WireGuardKit/Sources/WireGuardKitC/x25519.c:120-164 | for every scalar and u-coordinate the output is X25519(k, u) of section 5 of RFC 7748, with no int64 overflow on the way |
| `X25519.DerivePublicKey` | App/ios/Vendor/WireGuardKit/Sources/WireGuardKitC/x25519.c:166-171 | the public key is X25519(k, 9) |
| `Rfc7748.ClampedKeyIsSameKey` | App/ios/Vendor/WireGuardKit/Sources/WireGuardKitC/x25519.c:173-178 | a key clamped when it is generated acts as the unclamped one |
| `Rfc7748.BitOfBytes` | App/ios/Vendor/WireGuardKit/Sources/WireGuardKitC/x25519.c:137-137 | bit t of the scalar is bit t mod 8 of byte t / 8 |
| `KeyCodec.EncodeFormulaIsAlphabet` | App/ios/Vendor/WireGuardKit/Sources/WireGuardKitC/key.c:15-20 | the branch-free formula is the RFC 4648 base64 table on all 64 digits |
| `KeyCodec.DecodeFormulaIsIndex` | App/ios/Vendor/WireGuardKit/Sources/WireGuardKitC/key.c:39-46 | the branch-free inverse gives the table index, and -1 outside the alphabet, for signed and unsigned char |
| `KeyCodec.KeyToBase64` | App/ios/Vendor/WireGuardKit/Sources/WireGuardKitC/key.c:24-33 | 44 characters: the RFC 4648 encoding of the key with its padding, and a terminator |
| `KeyCodec.KeyFromBase64` | App/ios/Vendor/WireGuardKit/Sources/WireGuardKitC/key.c:50-72 | accepts a string exactly when it is the encoding of some 32-byte key, and stores that key |
| `KeyCodec.Base64Injective` | App/ios/Vendor/WireGuardKit/Sources/WireGuardKitC/key.c:24-33 | two keys never share an encoding, so the key stored is the only one |
| `KeyCodec.KeyToHex` | App/ios/Vendor/WireGuardKit/Sources/WireGuardKitC/key.c:74-83 | 64 lower-case digits, two per byte, and a terminator |
| `KeyCodec.CharOf` | App/ios/Vendor/WireGuardKit/Sources/WireGuardKitC/key.c:94-100 | the masked arithmetic gives a digit's value in either case and flags exactly the non-digits |
| `KeyCodec.KeyFromHex` | App/ios/Vendor/WireGuardKit/Sources/WireGuardKitC/key.c:85-114 | accepts exactly the strings of 64 hex digits of either case, and reads each pair as its byte |
| `KeyCodec.HexReadsBack` | App/ios/Vendor/WireGuardKit/Sources/WireGuardKitC/key.c:74-114 | the hex print of a key is accepted and reads back as that key |
| `SessionCache.Cache.constructor` | internal/auth/uoa_sessions.go:30-32 | both tables start empty |
| `SessionCache.Cache.TryAcquire` | internal/auth/session_cache.go:30-51 | a flight is granted only when none is held for the id and fewer than 1024 are held |
| `SessionCache.Cache.Release` | internal/auth/session_cache.go:49-49 | exactly the one flight is given up |
| `SessionCache.Cache.Get` | internal/auth/session_cache.go:53-63 | answers exactly on an entry with this fingerprint and unexpired; any other entry for the id is dropped |
| `SessionCache.Cache.Put` | internal/auth/session_cache.go:65-82 | stores until the earlier of 30 seconds and the token's expiry, evicting one entry when full; the table stays within 1024 |
| `SessionCache.PutContents` | internal/auth/session_cache.go:75-81 | after a put every entry is the one stored or was there before |
| `SessionSafety.StepKeeps` | internal/auth/uoa_sessions.go:82-217 | every step of any interleaving keeps the invariant over requests, rows, families, processes, cache entries and rotations |
| `SessionRuns.RunKeeps` | internal/auth/uoa_sessions.go:82-217 | so the invariant holds in every state of every run |
| `SessionRuns.ClosingIsFinal` | internal/auth/uoa_session_logout.go:13-37 | an owned row that became closing is closing or gone in every later state |
| `SessionRuns.NoResolveAfterLogout` | internal/auth/uoa_sessions.go:103-116 | after a committed logout no cache hit and no profile check succeeds for that session |
| `SessionRuns.CheckedBeforeLogout` | internal/auth/uoa_sessions.go:132-136 | a resolve still past its profile check after a logout has been past it since the logout committed |
| `SessionRuns.NoReturnAfterLogout` | internal/auth/uoa_sessions.go:91-137 | a resolve begun after a committed logout of its session never returns successfully |
| `SessionRuns.UnadmittedIsUnowned` | internal/auth/session_admission.go:24-26 | a staged row has no owner until it is admitted |
| `SessionRuns.StagedNeverResolves` | internal/auth/session_admission.go:24-62 | a staged session resolves only after an admission that lies between staging and the resolve |
| `SessionRuns.AdmittedOrSwept` | internal/auth/session_admission.go:57-104 | of one staged row, admission and deletion by cleanup never both happen, in either order |
| `SessionRuns.CustodyIsConserved` | internal/auth/session_admission.go:12-26 | from staging on, in every later state a row holds the family or UOA has confirmed its revocation |
| `SessionRuns.DeletedOnlyAfterRevocation` | internal/auth/session_admission.go:77-104 | whichever step deletes a refresh row, UOA had confirmed the family's revocation before |
| `SessionRuns.OnlyTheseDelete` | internal/auth/session_maintenance.go:31-44 | only the end of a logout and of a cleanup delete rows; a failed sweep only reschedules |
| `SessionRuns.NewestIsPresented` | internal/auth/uoa_session_logout.go:20-42 | exchange, logout and cleanup present the newest token UOA issued, unless a successor was lost before it was saved |
| `SessionRuns.NoTokenExchangedTwice` | internal/auth/uoa_sessions.go:168-197 | no two exchanges present the same token when no successor of the family was lost |
| `SessionRuns.RotationHappened` | internal/auth/uoa_sessions.go:185-196 | every recorded rotation is a committed save earlier in the run |
| `SessionRuns.HitRepeatsTheRowsRotation` | internal/auth/uoa_sessions.go:113-117 | a hit returns the claims of the rotation that wrote the seal now in the row, with the row's subject, within 30 seconds of storing them and before the access token expires |
| `SessionRuns.SingleFlight` | internal/auth/session_cache.go:30-51 | one resolve per process and session is in flight, and both tables stay within 1024 |
| `PeerChanges.LivePeers` | internal/homepeer/peer.go:97-105 | the map of unexpired peers by address, the later listed winning |
| `PeerChanges.LeasesKeepTheLive` | internal/homepeer/peer.go:97-105 | with distinct addresses every unexpired peer is kept under its own |
| `PeerChanges.Emit` | internal/homepeer/peer.go:107-135 | the operations are one assignment per changed peer and one removal per retired one, in some map order; it fails exactly when a key it must name does not decode |
| `PeerChanges.IncrementalEqualsFull` | internal/homepeer/peer.go:107-135 | on a device set up for `previous`, the operations in any order give exactly the table of `next` if and only if no key retired at one address is wanted at any and no key newly set up at one is wanted at another |
| `PeerChanges.SettledKeysAreSeparable` | internal/homepeer/peer.go:107-135 | distinct canonical keys that keep their addresses satisfy that condition |
| `PeerChanges.MovedKeyIsDropped` | internal/homepeer/peer.go:123-133 | a key that moves to another address ends up removed: the table is empty |
| `PeerChanges.EndpointsFollow` | internal/homepeer/peer.go:111-121 | every endpoint `next` names is configured, changed or not |
| `PeerTable.AssignedHoldsOne` | internal/homepeer/peer.go:118-118 | a key assigned with replace_allowed_ips holds at most one address, whatever follows |
| `PeerTable.RemovedIsGone` | internal/homepeer/peer.go:132-132 | a key removed and not assigned again is unknown to the device, whatever is done to other keys |
| `HomePeer.StepKeeps` | internal/homepeer/peer.go:68-232 | every step keeps the lease, timer, client and device invariants |
| `HomePeer.RunKeeps` | internal/homepeer/peer.go:68-232 | so they hold in every state of every run |
| `HomePeer.EveryLeaseHasItsTimer` | internal/homepeer/peer.go:147-163 | the current generation's timer is due no later than each finite lease, exactly while Close has not intervened; an expired lease is waiting for a callback already due |
| `HomePeer.FiringLeavesNoExpiredPeer` | internal/homepeer/peer.go:162-179 | after the callback the device routes exactly the unexpired peers to their keys, or the device is closed and routes nothing |
| `HomePeer.FiringRemovesEveryExpiredKey` | internal/homepeer/peer.go:162-179 | whatever earlier calls left behind, after the callback no expired peer's key is known to the device; on one that stays up exactly the addresses routed to other keys remain, to the same keys |
| `HomePeer.OldCallbacksNeverFire` | internal/homepeer/peer.go:165-167 | once a snapshot is applied, the peer closed or the callback done, no callback of that or an earlier generation does anything |
| `HomePeer.OpenClientKeepsItsPeer` | internal/homepeer/peer.go:137-145 | every open tracked client was admitted under a live lease and its address has had that one key in every state since |
| `HomePeer.ClientWasAdmitted` | internal/homepeer/peer.go:219-226 | a tracked client was admitted by an accept that found its address active and unexpired |
| `HomePeer.OpenSinceAdmission` | internal/homepeer/peer.go:231-232 | an open tracked client has been open and tracked ever since |
| `HomePeer.FiringIsExactIff` | internal/homepeer/peer.go:162-179 | on a device that stays up, the callback leaves only unexpired peers routed if and only if every address led before to its own unexpired peer or to an expired peer's key; and it leaves them all routed if and only if they were and share no key with an expired peer |
| `HomePeer.FiringLeavesTornPeer` | internal/homepeer/peer.go:87-91 | a run in which a configuration call adds a peer and fails, both leases run out, the callback fires, and the added peer is still routed with no timer left |
| `HomePeer.FailedCallOutlivesLease` | internal/homepeer/peer.go:87-91 | a configuration call that fails halfway can leave an expired peer routed with no timer armed |
| `HomePeer.SeparableKeepsDistinct` | internal/homepeer/peer.go:92-92 | distinct keys stay distinct through separable snapshots |
| `HomePeer.ExpiryIsSeparable` | internal/homepeer/peer.go:168-172 | dropping expired peers from distinct keys is always separable |
| `HomePeer.Machine.constructor` | internal/homepeer/peer.go:57-57 | nothing is active, tracked or armed at the start |
| `HomePeer.Machine.CloseRetiredClients` | internal/homepeer/peer.go:137-145 | closes exactly the clients whose address is gone or has another key |
| `HomePeer.Machine.ScheduleExpiry` | internal/homepeer/peer.go:147-162 | a new generation, with a timer at the earliest finite lease if there is one |
| `HomePeer.Machine.ApplyLocked` | internal/homepeer/peer.go:80-95 | the whole new state on success and on a failed configuration call |
| `HomePeer.Machine.Apply` | internal/homepeer/peer.go:68-78 | a foreign overlay or an unacceptable snapshot changes nothing; any other is the step Apply or ApplyFails |
| `HomePeer.Machine.Fire` | internal/homepeer/peer.go:162-179 | a stale callback changes nothing; a current one is the step Fire or FireFails |
| `HomePeer.Machine.Accept` | internal/homepeer/peer.go:212-226 | admits exactly an address that is active and unexpired |
| `HomePeer.Machine.Forget` | internal/homepeer/peer.go:232-232 | a finished forwarder closes and untracks its client |
| `HomePeer.Machine.Close` | internal/homepeer/peer.go:182-193 | a new generation with no timer, and every tracked client closed |
| `Hub.SyncIsExactIffCanonical` | internal/wg/hub.go:93-125 | for distinct keys and addresses, a sync from any interface table ends with exactly the records if and only if their keys are spelled as the interface prints them |
| `Hub.SyncIsExact` | internal/wg/hub.go:93-125 | the same for canonical records: those keys, each with its one /32 and its endpoint |
| `Hub.MisspelledIsRemoved` | internal/wg/hub.go:115-121 | a record whose key text differs from the printed one is removed again |
| `Hub.AbortedSyncIsRepaired` | internal/wg/hub.go:104-122 | whatever calls an earlier sync made before it stopped, the next one ends exact |
| `Hub.SyncIsIdempotent` | internal/wg/hub.go:93-125 | syncing again leaves the whole table as it is: peers, routes and endpoints |
| `Hub.OneDeviceIsRouted` | internal/wg/hub.go:127-134 | syncing one device routes its address to its current key alone and leaves other keys' addresses as they were |
| `Hub.OneDeviceExtends` | internal/wg/hub.go:76-90 | on an exact interface, syncing a new device gives the interface of the enlarged records |
| `Hub.Interface.SyncAll` | internal/wg/hub.go:93-125 | success is the two complete passes, exact for distinct canonical records; failure, also of the listing or on a key text that does not decode, leaves a prefix of their calls |
| `Hub.Interface.SyncDevice` | internal/wg/hub.go:76-90 | a found device is routed; one not found means a full sync, after which the table is exact |
| `DeviceKeys.RunsKeepKeysInOrder` | internal/mobile/enroll_helpers.go:374-423 | over every serial run a device has at most one active key, its versions are distinct and gapless from 1, the active one is the highest, and a rotated-from link names its key one version lower |
| `DeviceKeys.StepKeeps` | internal/devices/keys.go:97-136 | each transaction keeps that order |
| `DeviceKeys.OnlyTheKeyIsRejected` | internal/mobile/enroll_helpers.go:384-407 | the version and one-active constraints never reject a transaction; only the key text can |
| `DeviceKeys.NewRowFits` | internal/devices/keys.go:110-129 | the row a transaction inserts is the device's next version, after whatever it retires |
| `DeviceKeys.KeysOnlyRetire` | internal/mobile/disconnect.go:67-72 | no transaction deletes, renumbers, reassigns or revives a key |
| `DeviceKeys.Registry.Claim` | internal/devices/claim.go:136-167 | the device and its version 1 key, or neither |
| `DeviceKeys.Registry.Rotate` | internal/devices/keys.go:97-136 | succeeds exactly for an active device of this owner with an active key and a key text no other device has active; the new version is one higher; otherwise nothing changes |
| `DeviceKeys.Registry.Enroll` | internal/mobile/enroll_helpers.go:374-423 | afterwards the key is the device's active one, by the first, the same or the next version; or nothing changes |
| `DeviceKeys.Registry.NextVersion` | internal/mobile/enroll_helpers.go:393-399 | one more than the device's highest version over all states |
| `DeviceKeys.Registry.InsertKey` | internal/mobile/enroll_helpers.go:400-404 | the insert is refused exactly when a table constraint is violated |
| `DeviceKeys.Registry.DisconnectAll` | internal/mobile/disconnect.go:21-80 | exactly the owner's active mobile devices are revoked and left without an active key |
| `DirectConfig.Render` | internal/direct/config.go:46-72 | prints exactly the header and one block per peer, in order, exactly for acceptable input |
| `WireGuardConfig.ReadConfig` | App/ios/Shared/WireGuardConfig.swift:48-98 | the line loop computes the fold of the parse function, with the first error as its result |
| `WireGuardConfig.FoldWithKey` | App/ios/Shared/WireGuardConfig.swift:212-236 | the private key a file carries changes nothing else the parser computes |
| `KeyInjection.SettingPrivateKey` | App/ios/Shared/WireGuardConfig.swift:111-140 | replaces the first private-key line of an interface section, else inserts after the last interface header, else prepends a section |
| `KeyInjection.EntryOf` | App/ios/Shared/WireGuardConfig.swift:165-173 | a line `name = value` is read as the lower-case name and the value |
| `KeyInjection.FindEditPicks` | App/ios/Shared/WireGuardConfig.swift:117-136 | the scan replaces only a key line and inserts only after an interface header |
| `KeyInjection.KeyLineIsInert` | App/ios/Shared/WireGuardConfig.swift:126-129 | wherever the parser stands, a replaced line without a further line break had set nothing but, at most, the private key |
| `InjectionEffect.InjectionChangesOnlyTheKey` | App/ios/Shared/WireGuardConfig.swift:111-140 | for every text the parser accepts, with any line breaks, a clean edit changes the private key and nothing else; the key becomes k where the parser reads the written line in an interface section and no later line sets another, and stays as it was elsewhere |
| `InjectionEffect.UnbrokenPieceIsClean` | App/ios/Shared/WireGuardConfig.swift:126-130 | replacing a line that holds no other line break is clean |
| `InjectionEffect.InsertedInInterface` | App/ios/Shared/WireGuardConfig.swift:133-136 | a line is inserted only where the parser, too, is in an interface section |
| `InjectionEffect.LineFeedTextsAreClean` | App/ios/Shared/WireGuardConfig.swift:111-140 | with line feeds only, every edit is clean and written in an interface section |
| `InjectionEffect.KeyInForce` | App/ios/Shared/WireGuardConfig.swift:111-140 | which private key any edited text that parses has, clean edit or not: the last set by the lines before, the written line if the parser reads it in an interface section, and the lines after |
| `InjectionEffect.KeyTakesEffectIff` | App/ios/Shared/WireGuardConfig.swift:111-140 | for every text whose edited form parses, the key in force is k if and only if the parser reads it in an interface section and no later line sets another, or it is read elsewhere and the other lines set k anyway |
| `InjectionEffect.CleanKeyTakesEffectIff` | App/ios/Shared/WireGuardConfig.swift:111-140 | a clean edit always parses, and its key in force is k if and only if it was written in an interface section and no later line sets another key, or k was in force already |
| `InjectionEffect.OnlyTheKeyChangesIff` | App/ios/Shared/WireGuardConfig.swift:111-140 | for every text the parser accepts, nothing but the key changes if and only if by the next section header the parser has the same peers and settings with the edit as without, those a later line assigns apart |
| `InjectionEffect.ReplacementIsHarmlessIff` | App/ios/Shared/WireGuardConfig.swift:126-130 | for a replacement in an interface section and without a header in it: if and only if the replaced lines held no address, no DNS server and no MTU that mattered |
| `InjectionEffect.PrependingIsHarmlessIff` | App/ios/Shared/WireGuardConfig.swift:138-139 | for every prepended section: if and only if the lines before the first header are valid interface lines with no address, no DNS server and no MTU that mattered |
| `InjectionEffect.FoldTail` | App/ios/Shared/WireGuardConfig.swift:61-80 | from a section header on, what the parser takes from the lines does not depend on what it read before |
| `ConfigWitnesses.ReplacementLosesTheAddress` | App/ios/Shared/WireGuardConfig.swift:126-130 | a text that parses and, after injection, has no address left: a carriage return stands between the key and the address |
| `ConfigWitnesses.PlaceholderWins` | App/ios/Shared/WireGuardConfig.swift:117-139 | a config with carriage returns and line feeds: a section is prepended, and the placeholder key stays in force |
| `ConfigWitnesses.PrependingTakesInStrayLines` | App/ios/Shared/WireGuardConfig.swift:138-139 | an MTU line before the first section, ignored by the parser, takes effect after injection |
| `ConfigWitnesses.TabbedKeyWins` | App/ios/Shared/WireGuardConfig.swift:126-136 | a whole config whose own key, written with a tab before its equals sign, stays in force after injection |
| `KeyInjection.TabbedLineIsMissed` | App/ios/Shared/WireGuardConfig.swift:126-129 | a key line with a tab before its equals sign sets the key for the parser and is not the line injection replaces |
| `ConfigRoundTrip.RenderedReadsBackIff` | App/ios/Shared/WireGuardConfig.swift:48-98 | accepted printed text is parsed as one peer per input, in order, with the same key, its single /32 and the same endpoint, and the same address and MTU, if and only if no key and no endpoint holds a line break |
| `ConfigRoundTrip.ParsedIsClean` | App/ios/Shared/WireGuardConfig.swift:61-80 | no key or endpoint the parser returns holds a line break |
| `ConfigWitnesses.BrokenKeyIsMisread` | internal/direct/config.go:46-72 | an accepted call, with a line break in front of a key, whose text is not read back |
| `ConfigWitnesses.BrokenEndpointIsMisread` | internal/direct/config.go:33-44 | an accepted call, with a line break as the zone of an endpoint's address, whose text is not read back |
| `ConfigRoundTrip.EndpointIsSnug` | internal/direct/config.go:33-44 | an accepted endpoint neither starts nor ends with white space |
| `ConfigRoundTrip.RenderedTakesTheKey` | App/ios/Shared/WireGuardConfig.swift:111-140 | printed text with the key injected is parsed as before, with that private key |
| `DirectSnapshot.SelectedExpiry` | internal/direct/handler.go:97-108 | a selected peer is unlimited exactly when it is the user's own, unscoped and away from the configured home; otherwise its expiry is the minimum live grant of the pair, in the future |
| `DirectSnapshot.ListedPeers` | internal/direct/handler.go:97-135 | every listed peer describes a selected device in that sense, and every selected device a mobile can reach is listed |
| `DirectSnapshot.ReadRows` | internal/direct/handler.go:114-135 | the listed peers in row order, and NextExpiry the minimum over them |
| `DirectSnapshot.MinLiveExists` | internal/direct/handler.go:98-99 | a pair with a live grant has a minimum one |
| `DirectSnapshot.UpsertKeepsOnePerPair` | internal/direct/handler.go:171-171 | a pair never has two grants |
| `DirectSnapshot.GrantedHomeIsListed` | internal/direct/handler.go:170-181 | after a mobile's capability stream has written its grant, the home it names is listed if and only if it can serve, has a usable endpoint, is not the mobile itself and the mobile is not the configured home; until the token's expiry, or without end for the user's own unscoped device away from the configured home |
| `MemoryLimiter.AtMostTwiceTheLimit` | internal/ratelimit/memory.go:79-98 | any interval one window long, ends included, holds at most twice the limit of allowed calls for a key, when the clock readings of that key's calls do not decrease in lock order and no reading is older than a sweep before it |
| `MemoryLimiter.OutOfOrderBreaksTheBound` | internal/ratelimit/memory.go:71-98 | readings 0, 0, 10, 10, 20, 10 in lock order, limit 2 and window 10, let five calls stamped 0 to 10 through |
| `MemoryLimiter.TwiceTheLimitHappens` | internal/ratelimit/memory.go:79-98 | the bound is reached |
| `MemoryLimiter.SweepAndCapAreInvisible` | internal/ratelimit/memory.go:74-102 | every decision equals that of a limiter that never sweeps or caps, fed the calls that were not refused, as long as no reading is older than a sweep before it |
| `MemoryLimiter.LateStampSeesTheSweep` | internal/ratelimit/memory.go:71-98 | a run with such an older reading, in which the decisions differ |
| `MemoryLimiter.NeverOverCap` | internal/ratelimit/memory.go:86-91 | the map never holds more than 100000 buckets |
| `MemoryLimiter.OverloadIsRealIff` | internal/ratelimit/memory.go:75-88 | a refusal means that live windows fill the map if and only if the call swept or no bucket had expired |
| `MemoryLimiter.OverloadByExpiredBuckets` | internal/ratelimit/memory.go:74-88 | a run of 100000 accepted calls for different keys and one more, which is refused although every window is over |
| `MemoryLimiter.Memory.constructor` | internal/ratelimit/memory.go:57-59 | the limiter starts with no buckets |
| `MemoryLimiter.Memory.Sweep` | internal/ratelimit/memory.go:106-112 | removes exactly the expired buckets |
| `MemoryLimiter.Memory.Allow` | internal/ratelimit/memory.go:61-102 | one call: new state, decision and remaining time |
| `ClientIp.ClientIP` | internal/audit/audit.go:120-184 | joins the header values, splits and walks them from the right |
| `ClientIp.InPrefixes` | internal/audit/audit.go:201-213 | whether some prefix contains the unmapped address |
| `ClientIp.AnswerIsRightmostClient` | internal/audit/audit.go:138-183 | behind a trusted peer the answer is the rightmost parseable, untrusted, plausible hop with no unparseable hop to its right; in every other case the peer |
| `ClientIp.PrependingChangesNothing` | internal/audit/audit.go:132-183 | once some hop settles the walk, header values prepended by anyone change nothing |
| `ClientIp.UnsettledFollowsPrepended` | internal/audit/audit.go:132-183 | when none does, the prepended values alone decide, so the condition is exact |
| `ClientIp.PrependingTextChangesNothing` | internal/audit/audit.go:132-183 | the same for text put in front of the first value |
| `ClientIp.OneHeaderOrMany` | internal/audit/audit.go:128-133 | several header lines are equivalent to one with commas |
| `ClientIp.Normalize` | internal/config/config.go:196-221 | accepted prefixes are never IPv4-in-IPv6 and no wider than /8 and /16 |
| `ClientIp.NormalizedTrustsSameHosts` | internal/config/config.go:202-210 | an accepted IPv4-in-IPv6 prefix becomes an IPv4 prefix of exactly the same IPv4 hosts |
| `ClientIp.UnnormalizedTrustsNobody` | internal/config/config.go:191-195 | left as written it would match no address the trust check sees |
| `ClientIp.ParseTrusted` | internal/config/config.go:223-249 | the prefixes are exactly those some entry contributes |
| `ClientIp.GroupsAre64s` | internal/audit/audit.go:238-255 | two clients share a rate-limit key exactly when they are the same IPv4 host, in any form, or in one IPv6 /64 |

## Left out

- HTTP handlers, JWT and OAuth handling, cookies and JSON: plumbing around these operations.
- AES-GCM, SHA-256, bcrypt and HMAC: abstract, with freshness, inverse and injectivity as stated.
- The overlay address allocator, UPnP, coturn, OPA and telemetry: their hard parts rest on foreign state.
- `key_eq` and the timing behaviour of the C files: a single loop, and not a functional property.
- The random bytes of `curve25519_generate_private_key`: only its clamping is stated.
- The user-status test of the locking SELECT: the model lets a resolve go on where the source may refuse it, which only adds runs.
- The 15, 20 and 12 second timeouts and the limit of 20 rows per sweep: any step may fail at any time, and any due row may be cleaned.
- Liveness of cleanup, and of waiting for a flight: only safety is stated.
- Roaming endpoints: the device's endpoint is the one last configured, which WireGuard may replace on its own.
- Device behaviour taken from WireGuard itself: a closed device has no peers and takes none; a failed `wg set` changes nothing.
- HomePeer.FiringLeavesNoExpiredPeer: has the premise that every configuration call so far succeeded on separable peers, because without it the statement is false (HomePeer.FiringLeavesTornPeer); FiringRemovesEveryExpiredKey is the part that needs none, and FiringIsExactIff is the exact condition on the state before.
- HomePeer.EveryLeaseHasItsTimer: says nothing of when a due callback runs, which is up to the scheduler.
- MemoryLimiter.AtMostTwiceTheLimit: is for readings of the key in question that do not decrease in lock order, because without that it is false (MemoryLimiter.OutOfOrderBreaksTheBound), and for sweeps that no later reading is older than; counters are unbounded, so an overflow after 2^63 calls in one window is not modelled.
- ClientIp.ClientIP: address parsing and formatting are parameters, so the answer is an address and not its text.
- ClientIp.ParseTrusted: the warning texts are not modelled.
- DirectConfig.Render: whether a text with a colon is a global unicast IPv6 literal is a parameter; error texts are not modelled.
- WireGuardConfig.ReadConfig: text is a sequence of Unicode scalars, without grapheme clusters, and lower-casing covers the characters whose lower case is ASCII.
- InjectionEffect.ReplacementIsHarmlessIff: is for replaced pieces without a section header, where the parser is in an interface section; the others are covered by OnlyTheKeyChangesIff.
- DirectSnapshot.ListedPeers: the order of rows is by identifier; service ports and the printed config are not part of the statement.
- DeviceKeys.Registry.Enroll: the half that finds or inserts the device row is the step EnrollDevice of the state machine and has no method.
- The pair code a claim consumes, and its failure counter: one row updated in the same transaction.
- Deleting a device, which removes its keys with it, and the migration that retired duplicate keys.
