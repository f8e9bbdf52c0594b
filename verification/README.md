# A verified model of the plissken login protocol and its Redis-backed server

The repository lets a web client register and log in with a password that never
reaches the server. A registration is an oblivious evaluation of the password
under a key made for the user, followed by an envelope sealed under the result;
a login opens the envelope again and proves it with a session token that the
server recomputes. The server keeps everything in Redis under string keys.

The model has these layers, each on the one before.

| file | what it models |
|---|---|
| `Encoding.dfy` | bytes, hexadecimal text, fixed-width integers |
| `Groups.dfy` | the subgroup of prime order q of the integers modulo p: powers, inverses, blinding |
| `Suite.dfy` | X25519, HKDF, element and scalar encodings and the oblivious function over such groups |
| `Client.dfy` | the client steps, as functions and as the buffer-filling methods |
| `Storage.dfy` | the storage interface, specified by a store that forgets nothing |
| `Redis.dfy` | the flat string-keyed database and its refinement of that store |
| `Handlers.dfy` | each request handler as a small program between database calls |
| `Machine.dfy` | any number of handlers in flight, one database call at a time, in any order |
| `Sessions.dfy` | the nonce window, session life time and token retirement over whole runs |
| `Login.dfy`, `Completeness.dfy` | the right password always logs in, whatever else goes on |
| `Atomic.dfy` | handlers as single steps: what that adds, and how interleaving breaks it |
| `Messages.dfy` | the same story with every client step through the bindings and every piece of data through its message |
| `PendingKey.dfy` | when a user's key is written only once although calls interleave |
| `Retirement.dfy` | exactly when a token can still be accepted |
| `HappyPath.dfy` | registering, logging in and being checked in sequence, with a witness that the assumptions can be met |
| `Wire.dfy`, `Bindings.dfy` | the messages as JSON records, and the functions the SDK calls |
| `Enumeration.dfy` | key patterns and getting names back from keys |
| `IndexPage.dfy` | what the index page shows and when it comes up |
| `Instances.dfy` | runs from the start that meet the assumptions of the main results, and logins that are refused |
| `Wrapper.dfy`, `AuthServer.dfy` | the Redis wrapper and the server as objects, proved against the programs |

The cryptographic primitives are parameters of a `Suite`, known only through
`Lawful` (hashing lands in the group, opening undoes sealing, the groups fit their
encodings); `LawfulSuiteExists` gives one. That a wrong key is refused
(`Committing`) and that two given inputs do not collide (`NoCollision`,
`NoKeyCollision`) are assumed only where a rejection is claimed. Agreement of client and server is not
assumed anywhere: it comes from modular arithmetic. Random draws, the clock, the
coin of the lazy trim and connection failures are inputs of the steps.

Points where the code differs from what its comments say, or is easily misread:

- Redis ranges include both ends, so a range to `authNoncesMaxCount` keeps and
  reads 21 nonces, not the 20 that the comment speaks of.
- `eval_req_elements` is written but never read: decoding blinds the inputs again.
- The expiry that the credentials check reports is counted from the check, so it
  is at or after the real one.
- The check for an existing registration and the write of its key are two calls.
  With atomic handlers the key is written at most once; interleaved, two clients
  can both be answered and the first one's envelope is filed under the second
  one's key, so that its password does not log in.
- The nonce is checked and the session stored in separate calls, so a finalize
  that is past its check wins even when its nonce has left the window meanwhile.
- App tokens with a ':' in them can make the keys of different users coincide.
- The index page cuts usernames off at their first ':' and then looks those names up,
  so one such username can keep the whole page from coming up.

## Model

| member | source | states |
|---|---|---|
| `Encoding.HexRoundTrip` | auth-server/server/handlers.go:172-181 | the server's hexadecimal decoding recovers the encoded bytes, without an error |
| `Encoding.HexLength` | auth-server/server/handlers.go:173-185 | a text that decodes gives half as many bytes as it has characters |
| `Encoding.HexDecodesExactly` | auth-server/server/handlers.go:172-181 | just the texts of even length with nothing but hexadecimal digits in them are decoded |
| `Encoding.HexNormalForm` | auth-server/cmd/js-bindings/main.go:143-143 | encoding again gives an accepted text in lower case |
| `Encoding.CaseIgnored` | auth-server/server/handlers.go:172-181 | two accepted texts decode to the same bytes if and only if they differ in the case of letters at most |
| `Encoding.UnhexHexAll` | protocol-lib/common/common.go:78-85 | a list of byte strings of any length survives the encode and decode loops |
| `Encoding.Fit32` | protocol-lib/server/server.go:206-209 | copying into a key array keeps a prefix and leaves the rest zero |
| `Groups.InverseCancels` | protocol-lib/client/client.go:36-47 | the extended Euclidean algorithm gives every non-zero scalar an inverse modulo a prime |
| `Groups.BlindingCancels` | protocol-lib/client/client.go:36-47 | blinding, evaluating and unblinding an element is the same as evaluating it |
| `Groups.MulInjective` | protocol-lib/server/server.go:146-146 | evaluation under a non-zero key keeps different elements different |
| `Groups.MulSeparates` | protocol-lib/server/server.go:79-80 | any element but the identity evaluates differently under different keys below the order |
| `Groups.MulStaysInGroup` | protocol-lib/server/server.go:79-80 | evaluation stays in the group |
| `Suite.DiffieHellmanAgrees` | protocol-lib/client/client.go:171-176 | each side gets the same shared key from its private key and the other's public key, or both get none |
| `Suite.ClampedBits` | protocol-lib/server/server.go:49-49 | which bits of a private key count: the low three and the top one are cleared, the one below that is set, all others are kept |
| `Suite.ReadPointBits` | protocol-lib/server/server.go:206-212 | a public key is read with its top bit cleared and all others as they are |
| `Suite.RefusedExactly` | protocol-lib/server/server.go:211-215 | there is no shared key just for the identity or for a private key that is a multiple of the order |
| `Suite.SharedKeysTellPoints` | protocol-lib/server/server.go:211-215 | with one private key two public keys give the same shared key if and only if they are the same |
| `Suite.SharedKeysTellKeys` | protocol-lib/client/client.go:171-176 | with one public key two private keys give the same shared key if and only if they are the same modulo the order |
| `Suite.DerivedKeysTell` | protocol-lib/server/server.go:217-222 | with no collision on the codes at hand two derived keys are the same if and only if secret and salt are |
| `Suite.DerivedKeyForms` | protocol-lib/client/client.go:117-126 | without a salt the derived key is that of 32 zeros, and a shorter one is the beginning of a longer one |
| `Suite.ScalarRoundTrip` | protocol-lib/server/server.go:74-74 | a serialized OPRF key is read back as itself |
| `Suite.ElementRoundTrip` | protocol-lib/common/common.go:121-150 | a compressed element is read back as itself |
| `Suite.LongElementRoundTrip` | protocol-lib/client/client.go:32-32 | the uncompressed form of an element determines it |
| `Suite.ReadsElementsExactly` | protocol-lib/common/common.go:149-153 | what is read as an element: just the identity's byte and the two written forms of the elements of the group, as that element |
| `Suite.ReadScalarIsWritten` | protocol-lib/common/common.go:93-97 | just 32 bytes are read as a scalar, up to a multiple of the order, and below it as the one written |
| `Suite.BlindsExactly` | protocol-lib/common/common.go:101-105 | just lists of one positive length none of whose inputs hashes to the identity can be blinded, each to the hash of its input multiplied by its blind |
| `Suite.RequestsTellInputs` | protocol-lib/client/client.go:36-40 | for lists of any length with the same blinds two requests are the same if and only if their inputs hash to the same elements |
| `Suite.FinalizesExactly` | protocol-lib/client/client.go:43-55 | just evaluations of the length of the request are finalized |
| `Suite.EvaluationsDiscriminate` | protocol-lib/server/server.go:79-80 | under a non-zero key two requests have the same encoded evaluation if and only if they are the same |
| `Suite.ObliviousRunComputesPrf` | protocol-lib/client/client.go:36-55 | for lists of any length the blinded run gives exactly the unblinded function of key and inputs |
| `Suite.BlindingVanishes` | protocol-lib/client/client.go:19-55 | two runs with the same key and inputs and any two lists of non-zero blinds finalize to the same outputs |
| `Suite.HashFrameInjective` | protocol-lib/client/client.go:43-55 | the hashed frame of an output determines the input and the element |
| `Suite.FrameParses` | protocol-lib/client/client.go:43-55 | how a frame is taken apart again: two length-prefixed parts and the label |
| `Suite.LawfulSuiteExists` | protocol-lib/common/common.go:15-16 | the assumptions on the primitives can be met, also that a wrong key is refused: by a suite over the subgroup of order 3 modulo 7 |
| `Client.CopyKey` | protocol-lib/client/client.go:221-223 | the key array is a prefix of the source, filled up with zeros |
| `Client.MakeEnvU` | protocol-lib/client/client.go:86-145 | the method seals the new private key followed by the server key, with the error cases, as its specification says |
| `Client.DecryptEnvU` | protocol-lib/client/client.go:195-225 | what opening the envelope yields and when it fails or panics |
| `Client.DeriveSessionToken` | protocol-lib/client/client.go:147-191 | the token, and each way in which deriving it fails |
| `Client.HonestOutput` | protocol-lib/client/client.go:19-55 | a client with an honest evaluation gets the unblinded function of its password |
| `Client.TagIsOfTestVectors` | protocol-lib/client/client.go:31-31 | the tag of the password hash is that of the test vectors of section J.1 of RFC 9380 |
| `Client.FirstOutputIsOfFirst` | protocol-lib/client/client.go:95-99 | of an honest run with any number of inputs the output for the first one is used |
| `Client.RequestTellsPasswords` | protocol-lib/client/client.go:28-40 | with one blind two passwords give the same blinded request if and only if their inputs hash to the same element |
| `Client.InputTellsPasswords` | protocol-lib/client/client.go:28-35 | two passwords have the same input if and only if they hash to the same element |
| `Client.OpensWhatWasSealed` | protocol-lib/client/client.go:195-225 | what anyone sealed under the key opens to its first 32 bytes and the rest fitted to a key; a panic just for a nonce of another length or too little content |
| `Client.OpensNothingElse` | protocol-lib/client/client.go:217-220 | there is an authentication error just when the cipher refuses to open |
| `Client.ServerKeyTells` | protocol-lib/server/server.go:206-222 | with no collision the recomputed key tells both the shared key and the nonce |
| `Client.ServerKeyBindsNonce` | protocol-lib/server/server.go:217-222 | so a key part belongs to one nonce |
| `Client.ServerKeyBindsUser` | protocol-lib/server/server.go:206-222 | and to one public key |
| `Client.RegistrationIsCoherent` | protocol-lib/client/client.go:86-145 | against an honest evaluation the envelope opens under its own password to the drawn private key, which matches its public key; salt and nonce are the drawn ones |
| `Client.ClientAndServerAgree` | protocol-lib/client/client.go:147-191 | on a coherent envelope, whatever the blind, the client derives the nonce followed by exactly the key the server recomputes; both have none when the point is refused |
| `Client.LoginSucceedsExactly` | protocol-lib/client/client.go:147-225 | a login gets a token if and only if its password hardens, under the key evaluated with, to the key of the envelope, and the point is accepted |
| `Client.PasswordDiscrimination` | protocol-lib/functional_test.go:248-261 | with no collision on the two inputs at hand, a login gets a token if and only if its password hashes to the registered element |
| `Client.KeyDiscrimination` | protocol-lib/client/client.go:147-225 | with no collision on the two frames, the registered password gets a token if and only if the login is evaluated under the key of the registration |
| `Storage.WindowIsTwentyOne` | auth-server/rediswrapper/rediswrapper.go:168-175 | the range kept and read is the newest twenty-one entries |
| `Storage.ListedIsMembership` | auth-server/rediswrapper/rediswrapper.go:191-202 | on encoded nonces the comparison loop is membership |
| `Redis.FamiliesDisjoint` | auth-server/rediswrapper/rediswrapper.go:26-44 | keys of two families differ, whatever the names contain |
| `Redis.KeysCollideExactly` | auth-server/rediswrapper/rediswrapper.go:26-44 | two keys are equal if and only if family and joined name are |
| `Redis.ColonsCollide` | auth-server/rediswrapper/rediswrapper.go:26-28 | two different users with one key |
| `Redis.KeyInjectiveWithin` | auth-server/rediswrapper/rediswrapper.go:26-44 | for users no two of whom have the same joined name the key determines the family and the user |
| `Redis.KeyInjective` | auth-server/rediswrapper/rediswrapper.go:26-44 | for app tokens without ':' the key determines family, app token and username |
| `Redis.CoversPush` | auth-server/rediswrapper/rediswrapper.go:163-167 | a push keeps the stored list a prefix of all nonces that covers the window |
| `Redis.CoversTrim` | auth-server/rediswrapper/rediswrapper.go:168-175 | so does a trim, at any later time: it never removes a visible nonce |
| `Redis.CoversRead` | auth-server/rediswrapper/rediswrapper.go:184-186 | what is read is exactly the window over all nonces ever pushed |
| `Redis.TrimShortens` | auth-server/rediswrapper/rediswrapper.go:168-175 | a trim leaves the newest twenty-one entries and nothing more |
| `Redis.PushLengthens` | auth-server/rediswrapper/rediswrapper.go:163-167 | a push puts the nonce first and keeps all other entries |
| `Redis.OthersKeepList` | auth-server/rediswrapper/rediswrapper.go:46-203 | no other command makes a stored nonce list longer |
| `Redis.OnlyOwnKey` | auth-server/rediswrapper/rediswrapper.go:46-203 | a command touches no key but its own |
| `Redis.OtherSlotsUnchanged` | auth-server/rediswrapper/rediswrapper.go:46-203 | hence nothing of another user or of another family |
| `Redis.NonceListAgrees` | auth-server/rediswrapper/rediswrapper.go:159-203 | push, trim and read on the stored list answer as on the full history and keep representing it |
| `Redis.CallRefinesWithin` | protocol-lib/server/storage.go:5-16 | for users no two of whom have the same joined name every command on the flat database gives the specified reply and keeps representing the typed store |
| `Redis.CallRefines` | protocol-lib/server/storage.go:5-16 | in particular for app tokens without ':' |
| `Handlers.ResumeGetsCloser` | auth-server/server/handlers.go:40-284 | every handler answers after at most three database calls, whatever is replied |
| `Handlers.CredentialsTell` | auth-server/server/handlers.go:277-283 | a successful check reports the user, the version, the second it was made in and an end 900 seconds after |
| `Handlers.KeyPartBindsNonce` | protocol-lib/server/server.go:206-229 | a key part put behind another nonce does not match the same envelope, unless the derivations at hand collide |
| `Machine.StepRefines` | auth-server/rediswrapper/rediswrapper.go:46-203 | one step of the interleaved system over Redis simulates the same step over the typed store |
| `Machine.RedisRefinesStorage` | auth-server/rediswrapper/rediswrapper.go:46-203 | on every schedule over app tokens without ':' the flat, lazily trimmed, expiring database answers as the store that forgets nothing |
| `Machine.SharedNameIsSeen` | auth-server/server/handlers.go:58-71 | two different users with one joined name: after the first has registered the second is refused as registered, which the typed store would not do |
| `Machine.RefinementExactly` | auth-server/rediswrapper/rediswrapper.go:26-203 | for a set of users every schedule over them is answered as by the typed store if and only if no two of them have the same joined name |
| `Machine.HandlersTerminate` | auth-server/server/handlers.go:40-284 | a handler that gets its turns comes to an answer, with any faults |
| `Machine.RunIsLater` | protocol-lib/server/storage.go:5-16 | histories only grow, time only advances and an answer stays as it is |
| `Machine.StepKeepsInv` | protocol-lib/server/server.go:65-230 | every interleaved step keeps the invariants on handlers, envelopes and sessions |
| `Machine.ReachableInv` | protocol-lib/server/server.go:65-230 | they hold in every reachable state |
| `Machine.InterleavedRegistrations` | protocol-lib/server/server.go:65-127 | under every interleaving an envelope exists only with a request, its key was stored for that same user before, and requests are never removed |
| `Sessions.AcceptsExactly` | auth-server/server/handlers.go:199-214 | a finalize request is answered with success exactly by the step that stores the session |
| `Sessions.NewestSessionIsLastAccepted` | auth-server/server/handlers.go:199-204 | the stored session is the token of the last finalize answered with success |
| `Sessions.SingleLiveSession` | auth-server/server/handlers.go:259-283 | the credentials check accepts exactly that token and exactly until its fifteen minutes are over; the reported end is not before the real one |
| `Sessions.FifteenMinutes` | auth-server/server/handlers.go:18-18 | an accepted token is the live one for 900000 milliseconds, if nothing else is stored meanwhile |
| `Sessions.EnvelopeWasRead` | protocol-lib/server/server.go:200-204 | the envelope a finalize handler compares with is the one that was current when it read it |
| `Sessions.SessionProvenance` | protocol-lib/server/server.go:179-230 | every live session in Redis is 44 bytes of hexadecimal and was stored by a finalize less than fifteen minutes ago: its nonce had been issued to that user, and its key part is what the very envelope read by that finalize gives |
| `Sessions.NoncesArePushed` | protocol-lib/server/server.go:154-164 | the nonce history is what the login handlers pushed, newest first |
| `Sessions.WindowIsExact` | auth-server/rediswrapper/rediswrapper.go:159-203 | after any interleaving of pushes, trims and reads, and any coin flips, the nonce check says yes exactly to the twenty-one nonces pushed last |
| `Sessions.StoredListIsShort` | auth-server/rediswrapper/rediswrapper.go:159-178 | on every schedule and for any coins at most 21 entries are stored, and as many more as were pushed since the last trim that went through |
| `Sessions.TwentyOneIssuesRetire` | auth-server/rediswrapper/rediswrapper.go:168-186 | twenty-one later issues push a nonce out of the window |
| `Sessions.StepKeepsRetired` | protocol-lib/server/server.go:189-197 | a retired token stays retired, is not accepted and makes no new session, in one step |
| `Sessions.RunKeepsRetired` | protocol-lib/server/server.go:189-197 | and in every run that does not issue its nonce again |
| `Sessions.LateFinalizeRefused` | protocol-lib/server/server.go:189-197 | a finalize request arriving after the nonce left the window never succeeds, whatever else is in flight |
| `Sessions.TokenRetirement` | auth-server/server/handlers.go:161-215 | once the nonce has left the window and no handler has the token past its check, no continuation that does not issue the nonce again accepts it, and fifteen minutes on Redis does not hold it, however often it was finalized before |
| `Sessions.TwentyOneStartsEndToken` | auth-server/server/handlers.go:161-215 | from twenty-one further login starts, with no handler past its check when they are done, to the same conclusion |
| `Retirement.StillAcceptedExactly` | protocol-lib/server/server.go:179-230 | in any state a token can still be accepted, without its nonce issued again and without another envelope, if and only if a handler only has to store it, or it matches the current envelope and either its nonce is in the window or a handler has it past the nonce check |
| `Retirement.RetirementExactly` | protocol-lib/server/server.go:179-230 | a token that matches the current envelope is out of reach of every continuation that does not issue its nonce again if and only if it is retired |
| `Retirement.InFlightFinalizeStillWins` | auth-server/server/handlers.go:182-204 | from the very start, for every client and any twenty-one other nonces, a run in which the token is accepted although its nonce has left the window |
| `Login.RunKeepsLogin` | protocol-lib/server/server.go:129-170 | while the envelope stays, a login handler answers with that envelope and an evaluation under its key, in every run; only one of whose calls some failed can answer with a failure |
| `Login.StepKeepsFinalize` | protocol-lib/server/server.go:179-230 | while at most twenty later nonces were issued, a step takes a matching finalize forward or to success |
| `Login.LaterSessionsHoldLonger` | auth-server/server/handlers.go:199-204 | a session stored later holds at least as long |
| `Login.LoginIsAnswered` | protocol-lib/server/server.go:129-170 | a login none of whose calls fails is answered with the current envelope and an evaluation under its key, and its nonce has been issued |
| `Login.LoginYieldsToken` | protocol-lib/server/server.go:129-170 | hence the client gets a well-formed token on that nonce that matches the current envelope |
| `Login.TokenIsAccepted` | auth-server/server/handlers.go:161-215 | its finalize succeeds and makes it the session for fifteen minutes |
| `Login.SessionIsHonoured` | auth-server/server/handlers.go:231-284 | with the right app secret the token is accepted until its time is over or another token is accepted |
| `Login.VisitSucceeds` | js-sdk/src/lib.ts:95-133 | from any state with a coherent envelope a whole visit none of whose own calls fails succeeds under every interleaving that leaves its envelope, window, secret and session alone |
| `Login.EndToEnd` | protocol-lib/functional_test.go:230-246 | the same in every reachable state of the flat database |
| `Completeness.EnvelopesKeptExactly` | protocol-lib/server/server.go:103-127 | a run leaves a user's envelopes alone if and only if it stores none |
| `Completeness.CoherenceIsKept` | protocol-lib/functional_test.go:263-282 | a coherent envelope stays current until another one is stored for that user, and a login reading it at the end still makes a matching token; new registration requests do not touch it |
| `Completeness.FinalizedIsCoherent` | protocol-lib/server/server.go:103-127 | a registration finalized against the key that evaluated it succeeds and leaves a coherent envelope |
| `Completeness.RegisteredClientIsAccepted` | protocol-lib/functional_test.go:230-246 | on the flat database and every schedule a client registered so, whose envelope nobody replaced and none of whose calls fails, logs in and has its token accepted |
| `Messages.BindingTokenIsClientToken` | auth-server/cmd/js-bindings/main.go:102-144 | for the answer as a message the login binding returns the text of the token of the original answer, or fails when deriving does |
| `Messages.RegistrationReadIsData` | auth-server/cmd/js-bindings/main.go:45-100 | what the server reads in the registration message is what the client made |
| `Messages.RegisteredThroughMessages` | js-sdk/src/lib.ts:95-133 | the same with every client step taken through the bindings and every piece of data through its message |
| `PendingKey.KeyIsSettledExactly` | auth-server/server/handlers.go:58-82 | a registered user's key is safe from being replaced under every schedule if and only if no handler is past the check for that user |
| `PendingKey.KeyWrittenOnceExactly` | auth-server/server/handlers.go:58-82 | interleaved, the first write of a user's key is the only one in every continuation if and only if no other handler had passed the check by then |
| `PendingKey.SettledKeyIsSealed` | protocol-lib/server/server.go:103-127 | once the key is settled every envelope stored carries it, but for handlers that had already read a key |
| `PendingKey.FinalizeHasFirstKey` | protocol-lib/server/server.go:103-127 | if no other handler is past the check when the first key is written, every finalize for the user has that key, in every continuation |
| `PendingKey.StartedClientIsAccepted` | protocol-lib/functional_test.go:230-246 | interleaved, from the client's own start request on: written with no other handler past the check, its key seals its envelope, and unless that is replaced the client logs in and has its token accepted |
| `Atomic.TurnsFinish` | auth-server/server/handlers.go:40-284 | a handler given all its turns at once does what the atomic step does |
| `Atomic.AtomicRunIsSchedule` | auth-server/server/handlers.go:40-284 | every run of atomic handlers is a schedule of the interleaved system |
| `Atomic.AtomicKeyWrittenOnce` | auth-server/server/handlers.go:58-82 | with atomic handlers a user's key is written at most once and every envelope carries exactly that key |
| `Atomic.AtomicRegistrationIsCoherent` | protocol-lib/server/server.go:65-127 | with atomic handlers an answered start and an accepted finalize leave a coherent envelope, whatever came between |
| `Atomic.FinalizeAcceptsExactly` | protocol-lib/server/server.go:179-230 | finalize accepts a token if and only if none of its three calls fails, it is well-formed, its nonce is in the window and its key part matches the current envelope |
| `Atomic.FaultsInOrder` | auth-server/server/handlers.go:40-284 | connection failures meet the calls of a handler in order |
| `Atomic.StolenKeyPartRefused` | protocol-lib/server/server.go:206-229 | the key part of an accepted token is refused with any other nonce, unless the derivations at hand collide |
| `Atomic.AnswerStatuses` | auth-server/server/handlers.go:40-284 | which HTTP statuses each route can answer with, whatever the faults: a refusal is never a 200 |
| `Atomic.AtomicTokenRetirement` | auth-server/server/handlers.go:161-215 | with atomic handlers, after twenty-one later issues no world, however much later, in which the nonce was not issued again accepts the token |
| `Atomic.RaceOverwritesKey` | auth-server/server/handlers.go:58-82 | interleaved, two start requests are both answered and the second write replaces the first key |
| `Atomic.RaceStrandsFirstClient` | protocol-lib/server/server.go:103-127 | the first client's envelope is then filed under the other key, and with no collision on its two frames its password logs in if and only if the two keys are the same |
| `HappyPath.Registers` | protocol-lib/server/server.go:65-127 | without faults a user who has no request yet is evaluated, then finalized, and has a coherent envelope |
| `HappyPath.ListedIsStored` | auth-server/server/handlers.go:161-215 | a matching token in the window becomes the session for fifteen minutes and nothing else changes |
| `HappyPath.LogsIn` | js-sdk/src/lib.ts:95-133 | from a coherent envelope the right password gets a token, which is accepted and becomes the session |
| `HappyPath.CheckSucceedsExactly` | auth-server/server/handlers.go:231-284 | without faults the check succeeds if and only if the secret is the current one and the token is the live session |
| `HappyPath.CheckAnswersExactly` | auth-server/server/handlers.go:243-283 | and which refusal comes when: 401 for a wrong secret or token, 500 when there is no secret or no live session |
| `HappyPath.NoEnvelopeNoLogin` | protocol-lib/server/server.go:136-140 | without an envelope a login is refused with 400 and no nonce is issued |
| `HappyPath.NoRequestNoEnvelope` | protocol-lib/server/server.go:107-110 | without a pending request finalizing is refused with 500 and nothing is stored |
| `HappyPath.SecondSignUpRefused` | auth-server/server/handlers.go:68-71 | a user who has a request is refused another one with 403 and nothing is stored |
| `HappyPath.UnsavedIsReported` | auth-server/server/handlers.go:200-212 | a token that passed every test is answered with 500 when it cannot be stored |
| `HappyPath.StoryEndsWell` | protocol-lib/functional_test.go:230-246 | in any world where the user is new, registering and logging in succeed, and the check then succeeds after some time if and only if that is under fifteen minutes |
| `HappyPath.StoryExists` | protocol-lib/functional_test.go:230-246 | the assumptions on client, server and library can all be met at once, with a password and a username that the bindings take |
| `Instances.VisitCanHappen` | js-sdk/src/lib.ts:95-133 | from every state with a coherent envelope and the secret there, the handlers' own turns are a run in which the visit takes place undisturbed |
| `Instances.StoryHappens` | protocol-lib/functional_test.go:230-246 | for every client there is a run from the start that meets all that `StartedClientIsAccepted` assumes |
| `Instances.RefusalExists` | protocol-lib/functional_test.go:248-261 | there are a suite, a registration, another password and another key for which nothing collides: the right login gets a token and the other two are refused |
| `Instances.TellingNoncesExists` | protocol-lib/server/server.go:217-222 | there is a suite in which two nonces give different key parts |
| `Wire.UnmarshalElements` | protocol-lib/common/common.go:142-155 | the decode loop gives the elements before the first bad one and that one's error |
| `Wire.UnmarshalScalars` | protocol-lib/common/common.go:87-99 | likewise for the blinds |
| `Wire.MarshalElements` | protocol-lib/common/common.go:120-127 | the encode loop writes every element, in order |
| `Wire.OprfRequestResults.MarshalJSON` | protocol-lib/common/common.go:35-66 | the message of an OPRF request, or a panic without its data |
| `Wire.OprfRequestResults.UnmarshalJSON` | protocol-lib/common/common.go:68-108 | all fields of the receiver afterwards and the error, also when a part is malformed |
| `Wire.OprfRequestRoundTrip` | protocol-lib/common/common_test.go:11-31 | for lists of any length the round trip gives the object back if and only if its evaluation request is the blinding of its inputs |
| `Wire.RequestElementsReadBack` | protocol-lib/common/common.go:49-57 | the blinded elements of a message decode to the evaluation request of the object |
| `Wire.ElementsIgnored` | protocol-lib/common/common.go:68-108 | the blinded elements of a message make no difference to its reader |
| `Wire.DecodedIsFixedPoint` | protocol-lib/common/common.go:35-108 | whatever was decoded survives every further round trip |
| `Wire.OprfServerEvaluation.MarshalJSON` | protocol-lib/common/common.go:119-132 | the message of an evaluation |
| `Wire.OprfServerEvaluation.UnmarshalJSON` | protocol-lib/common/common.go:134-157 | the receiver afterwards and the error |
| `Wire.EvaluationRoundTrip` | protocol-lib/common/common.go:119-157 | an evaluation in the group is read back as itself |
| `Wire.PasswordRegistrationData.MarshalJSON` | protocol-lib/common/common.go:178-187 | the message of a registration |
| `Wire.PasswordRegistrationData.UnmarshalJSON` | protocol-lib/common/common.go:189-216 | the receiver afterwards and the error, field by field |
| `Wire.RegistrationRoundTrip` | protocol-lib/common/common.go:178-216 | registration data is read back as itself |
| `Wire.StartPasswordAuthServerResp.MarshalJSON` | protocol-lib/common/common.go:300-317 | the message of a login answer |
| `Wire.StartPasswordAuthServerResp.UnmarshalJSON` | protocol-lib/common/common.go:319-357 | the receiver afterwards and the error, field by field |
| `Wire.LoginRoundTrip` | protocol-lib/common/common.go:300-357 | a login answer is read back as itself |
| `Bindings.FinalizePasswordRegistration` | auth-server/cmd/js-bindings/main.go:45-100 | decoding, sealing and encoding composed, with every panic |
| `Bindings.FinalizePasswordAuthentication` | auth-server/cmd/js-bindings/main.go:102-144 | decoding, deriving and encoding composed, with every panic |
| `Bindings.RequestIsMadeExactly` | auth-server/cmd/js-bindings/main.go:24-43 | there is a request just for a non-empty username and password that can be blinded, in these names; everything else is a panic |
| `Bindings.ServerReadsClientRequest` | auth-server/cmd/js-bindings/main.go:20-43 | the server evaluates exactly what the client blinded |
| `Bindings.BindingsPreserveToken` | auth-server/cmd/js-bindings/main.go:102-144 | through the messages the binding returns the hexadecimal text of the token derived from the original values, the server decodes it to that token, and one side fails exactly when the other does |
| `Bindings.BindingsPreserveRegistration` | auth-server/cmd/js-bindings/main.go:45-100 | through the messages the server reads what the client made from the original values |
| `Bindings.EvaluationsStayInGroup` | protocol-lib/server/server.go:79-80 | an honest evaluation of a client's request can be written and read back |
| `Enumeration.GlobAffix` | auth-server/rediswrapper/rediswrapper.go:206-206 | a pattern with one star matches exactly the strings with its two ends |
| `Enumeration.SecretKeys` | auth-server/rediswrapper/rediswrapper.go:206-206 | the pattern for secrets finds exactly the keys built from some app token |
| `Enumeration.EnvelopeKeys` | auth-server/rediswrapper/rediswrapper.go:221-221 | the pattern for an app token without pattern characters finds exactly the keys built from some username |
| `Enumeration.SecretSegment` | auth-server/rediswrapper/rediswrapper.go:213-214 | the second part of a secret's key is the app token up to its first colon |
| `Enumeration.EnvelopeSegment` | auth-server/rediswrapper/rediswrapper.go:228-229 | the third part of an envelope's key is the username up to its first colon, for an app token without ':' |
| `Enumeration.ThirdPartExists` | auth-server/rediswrapper/rediswrapper.go:228-229 | a key that matches a pattern of stars and question marks has a third part, whoever wrote it |
| `Enumeration.KeyHasThreeParts` | auth-server/rediswrapper/rediswrapper.go:26-44 | every key that is ever built has three parts, whatever the names contain |
| `Enumeration.UserKeyParts` | auth-server/rediswrapper/rediswrapper.go:26-40 | what the keys of plain names are made of, part by part |
| `Enumeration.SecretKeyParts` | auth-server/rediswrapper/rediswrapper.go:42-44 | likewise for the key of a secret |
| `Enumeration.CallKeepsWritten` | auth-server/rediswrapper/rediswrapper.go:46-203 | every command leaves a database in which only built keys occur and envelopes are under their keys, with clean names if they were |
| `Enumeration.WrittenKeyHasThreeParts` | auth-server/rediswrapper/rediswrapper.go:228-229 | so in a database that the program wrote the index is in range for every key found, with any pattern |
| `Enumeration.ListingExact` | auth-server/rediswrapper/rediswrapper.go:205-232 | the names read off are all different and all real if and only if no name has a ':' |
| `Wrapper.RedisWrapper.StoreUserRequest` | auth-server/rediswrapper/rediswrapper.go:46-59 | is the specified call and fails exactly when the connection does |
| `Wrapper.RedisWrapper.LoadUserRequest` | auth-server/rediswrapper/rediswrapper.go:61-76 | the stored request, or an error when there is none |
| `Wrapper.RedisWrapper.HasUserRequest` | auth-server/rediswrapper/rediswrapper.go:78-84 | whether there is one |
| `Wrapper.RedisWrapper.StoreUserEnvelope` | auth-server/rediswrapper/rediswrapper.go:86-99 | is the specified call |
| `Wrapper.RedisWrapper.LoadUserEnvelope` | auth-server/rediswrapper/rediswrapper.go:101-114 | the stored envelope, or an error when there is none |
| `Wrapper.RedisWrapper.StoreSessionToken` | auth-server/rediswrapper/rediswrapper.go:116-126 | the token is stored for its time to live, and for good when that is zero |
| `Wrapper.RedisWrapper.HasSessionToken` | auth-server/rediswrapper/rediswrapper.go:128-136 | equality with the live token, an error when there is none |
| `Wrapper.RedisWrapper.StoreAppSecret` | auth-server/rediswrapper/rediswrapper.go:138-147 | is the specified call |
| `Wrapper.RedisWrapper.HasAppSecret` | auth-server/rediswrapper/rediswrapper.go:149-157 | equality with the secret, an error when there is none |
| `Wrapper.RedisWrapper.StoreAuthNonce` | auth-server/rediswrapper/rediswrapper.go:159-178 | one push, then a trim exactly when the coin says so and the push went through; the list stored then is the nonce and what was there, cut to 21 entries after a trim |
| `Wrapper.RedisWrapper.HasAuthNonce` | auth-server/rediswrapper/rediswrapper.go:180-203 | the loop finds the nonce if and only if it is listed |
| `Wrapper.RedisWrapper.GetAllAppTokens` | auth-server/rediswrapper/rediswrapper.go:205-217 | one name for each live secret, and never an index out of range |
| `Wrapper.RedisWrapper.GetAllUsernamesFromEnvelopes` | auth-server/rediswrapper/rediswrapper.go:219-232 | the third part of each key found, each key once; for a clean app token these are the names that have an envelope; on a database that the program wrote it fails exactly when the connection does, for every app token |
| `AuthServer.Server.constructor` | protocol-lib/server/server.go:39-56 | the private key is the given one fitted to size or the drawn one, the public key belongs to it |
| `AuthServer.Server.HandleNewUserRequest` | protocol-lib/server/server.go:65-101 | stores the new key and evaluates under it; no evaluation when the store fails |
| `AuthServer.Server.StoreUserData` | protocol-lib/server/server.go:103-127 | the envelope gets the key of the pending request; nothing is stored without one |
| `AuthServer.Server.HandleNewUserAuthentication` | protocol-lib/server/server.go:129-170 | the answer and the new state are those of the login program, nonce and trim included |
| `AuthServer.Server.IsRegistered` | protocol-lib/server/server.go:172-177 | whether there is a request |
| `AuthServer.Server.IsAuthenticated` | protocol-lib/server/server.go:179-230 | yes if and only if the length is right, the nonce is listed and the rest is what the envelope gives; never no without an error |
| `AuthServer.MyServer.HandleStartPasswordRegistration` | auth-server/server/handlers.go:40-85 | answer and new state are those of the program for this request: the check for an existing one, then evaluation and write |
| `AuthServer.MyServer.HandleFinalizePasswordRegistration` | auth-server/server/handlers.go:87-119 | likewise: the key read for the pending request, then the envelope write, each with its failure |
| `AuthServer.MyServer.HandleStartPasswordAuthentication` | auth-server/server/handlers.go:121-159 | likewise: envelope, evaluation under its key, nonce push and optional trim |
| `AuthServer.MyServer.HandleFinalizePasswordAuthentication` | auth-server/server/handlers.go:161-215 | likewise: hexadecimal and length errors before any call, then nonce, envelope, comparison and session write |
| `AuthServer.MyServer.HandleCheckCredentials` | auth-server/server/handlers.go:231-284 | likewise: the secret before the token, and the SDK version and times reported |
| `AuthServer.MyServer.HandleIndex` | auth-server/server/handlers.go:286-339 | what is shown for a name is what is stored under its key; without pattern characters in app tokens exactly the stored envelopes whose usernames have no ':' are shown, and without a fault the page comes up if and only if every username cut off at its ':' names an envelope too; with clean names these are all envelopes whose app token has a secret, each once; on a database that the program wrote no handler panics |
| `IndexPage.NamesAreUsers` | auth-server/rediswrapper/rediswrapper.go:225-231 | of what is stored under a token, just the usernames without ':' are among the names read off the keys |
| `IndexPage.PageShown` | auth-server/server/handlers.go:299-338 | what the loops leave at their end is exactly those envelopes |
| `IndexPage.LoadTells` | auth-server/server/handlers.go:321-329 | loading fails without a fault only for a cut-off username that names no envelope |
| `AuthServer.ServerAnswers` | auth-server/server/handlers.go:40-284 | after any sequence of requests the objects answer any next one as the atomic handlers over the typed store do, with any faults |
| `AuthServer.MalformedTokenRefused` | auth-server/server/handlers.go:172-181 | a token text of odd length or with another character than hexadecimal digits is refused with 400 before any call, and nothing changes |
| `AuthServer.WrongLengthRefused` | protocol-lib/server/server.go:184-187 | so is one of another length than 88 digits |
| `AuthServer.RequestsKeepWritten` | auth-server/server/handlers.go:40-284 | serving any requests keeps the database the program's own, and clean requests keep its names clean |
| `AuthServer.CleanRequestsKeepCleanNames` | auth-server/server/handlers.go:286-339 | if all requests had clean names, the index page can rely on clean names |
| `AuthServer.ScheduleKeepsWritten` | auth-server/rediswrapper/rediswrapper.go:228-229 | after every schedule with any names all keys of the database have their third part |

## Left out

- HTTP, Gin, CORS, logging, error wrapping, configuration, key files, start and shutdown; requests arrive decoded and answers are values.
- The syntax of JSON and its base64 inside Redis: messages and stored values are records, so a stored value that is no JSON cannot arise.
- The internals of P-256, Curve25519, Argon2, AES-GCM, HMAC and SHA-256: prime-order groups modulo p stand in for the curves and the rest are functions known by their laws. Scalars are decoded modulo q.
- The refusals of the OPRF library are modelled after section 3.3.1 of RFC 9497 (an empty list, lists of different lengths, an input that hashes to the identity); the library itself is not part of this model.
- HKDF (sections 2.2 and 2.3 of RFC 5869) only up to its first block, which is all that is read.
- Randomness: nonces, keys, salts and blinds are inputs of the steps; that a nonce is not issued again is assumed only where stated.
- A nil byte slice and an empty one are told apart only for the salt.
- The capacity of slices: slicing a plaintext shorter than one key is a panic here even where spare capacity would allow it.
- The text of the index page and its separators; the page is the list of envelopes shown.
- Cryptographic secrecy and timing.
- The resource server, the web clients and the Node example.
- Wrapper.RedisClient.Keys: for patterns with brackets or a backslash it is not said which keys match, because character classes and escapes are Redis internals.
- Sessions.TokenRetirement: does not hold for every token whose nonce has left the window, because a handler already past its nonce check still stores it (`Retirement.InFlightFinalizeStillWins`); the condition it has is exact (`Retirement.RetirementExactly`).
- Atomic.AtomicKeyWrittenOnce: does not hold when calls interleave (`Atomic.RaceOverwritesKey`); there the exact condition is `PendingKey.KeyWrittenOnceExactly`.
- Enumeration.ThirdPartExists: the matcher has no character classes and no escapes; for such patterns the result is that of `WrittenKeyHasThreeParts`, on databases that the program wrote.
- Machine.RedisRefinesStorage: for app tokens without ':'; the exact condition on the users is `Machine.RefinementExactly`.
- Sessions.SingleLiveSession: speaks of exact time in milliseconds and of the moment the last reply comes; Redis may drop a key only when it is next looked at, which no command can see.
