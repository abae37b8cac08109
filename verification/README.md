# Morpheus daemons: a verified model

Morpheus is a game server made of a realm daemon (`realmd`), which logs clients in and shows them
the realm list, and proxy daemons (`proxyd`), one or more per realm, which clients are sent to. The
files here model the parts whose correctness does not show in any single branch, and prove what
they promise. `dafny verify dfyconfig.toml` checks everything.

| file | what it models |
|---|---|
| `MersenneTwister.dfy` | the random number generator: twist in place, tempering, both seedings |
| `Bytes.dfy`, `ModArith.dfy` | byte strings, big numbers as bytes and as hexadecimal text, congruences |
| `Srp6.dfy`, `SrpLogin.dfy`, `AuthSession.dfy` | the SRP-6 logon on both daemons, from the arithmetic to the bytes on the wire and in the account row, and the entry packet of the proxy daemon |
| `RealmSession.dfy`, `LogonRuns.dfy` | the connection states of the realm daemon, with database answers arriving in any order, and the digests proofs are compared with over such runs |
| `Registry.dfy`, `AnnounceProtocol.dfy` | the registry of proxies and the announce, shutdown and request messages that keep it |
| `ByteBuffer.dfy`, `PacketBuffer.dfy`, `RealmList.dfy` | the packet buffer and its typed values, and the realm list packets built with it |
| `HeaderCipher.dfy`, `ProxyInput.dfy`, `ProxyOutput.dfy`, `OutputQueue.dfy` | packet headers under the chained cipher, frame reassembly, and the two output queues |
| `SqlParameters.dfy`, `SqlConnection.dfy`, `SqlTransaction.dfy` | queued database requests, transactions and the worker that runs them |
| `Dbc.dfy` | the table file reader and its four loaders |
| `Wrappers.dfy` | the option type the others share |

Classes stand for the objects the daemons update in place. Each of their methods is proved against
a function of the old state (`Step`, `Announced`, `Called`, `PacketOf`, ...), and the properties
are proved about that function, over single steps and over whole runs.

## Where the code is not what it is taken for

The code is modelled as it is written. Where it misses a property one would expect, there is the exact
condition under which it holds, over all inputs or runs, and a lemma with an input or a run on which it fails.

- A big number written with `BN_bn2bin` and then reversed over the whole buffer is its little-endian
  encoding exactly when it fills the buffer or is 0; the number 1 is shifted to the top (`Bytes.BinReversedIsLE`,
  `Bytes.OneIsShifted`). Where the buffer was not cleared, 0 fails too (`Bytes.BinReversedExactly`). This limits what a client
  reads as B (`SrpLogin.ClientReadsB`), which stored password hashes survive (`SrpLogin.PassHashSurvives`)
  and which session keys reach the proxy daemon (`SrpLogin.SameKey`).
- After a partial write the next attempt starts one byte too early, and a write that takes nothing drops
  the packet (`OutputQueue.RunExact`, `OutputQueue.PartialWriteRepeatsAByte`). On the proxy daemon the
  size field is patched again on what is left (`ProxyOutput.ContinuesExactly`, `ProxyOutput.RunExact`,
  `ProxyOutput.PartialWriteLosesSize`).
- The size check of the entry packet counts the command and not the header, so it lets packets through whose
  fields do not fit (`AuthSession.AbortsExactly`, `AuthSession.UnendedNameAborts`).
- A packet that needed more than one read is dispatched and deleted, but the number of bytes still
  expected is kept. Behind it the connection ends: cleanly when nothing more arrives, by use of the deleted
  packet when bytes do (`ProxyInput.DeletedIsUsed`, `ProxyInput.ContinuedIsLast`, `ProxyInput.CutPacketIsFatal`).
  So all packets are dispatched exactly when none but the last came in parts (`ProxyInput.DispatchedUnlessCut`).
  Sizes are not checked against the buffer (`ProxyInput.OverrunExactly`).
- The cipher is applied when a packet is first offered and not when it is sent, so packets that wait when the
  key is set go out ciphered (`ProxyOutput.KeyDecides`, `ProxyOutput.WaitingIsCiphered`).
- A logon proof is compared as soon as the logon was asked for; a ban, a lock or a missing answer does not
  keep it from being accepted (`RealmSession.ProofBehindChallenge`, `RealmSession.BannedYetAccepted`). The
  digest it must equal then has no number of the account in it, but a salt that no packet has carried yet
  (`LogonRuns.AcceptedProofs`, `LogonRuns.UnansweredDigest`). A reconnect proof is compared before the key is
  looked up as well (`RealmSession.ReconnectBehindChallenge`), with a digest that knows the numbers 0 and 3 and
  whatever two uncleared buffers hold (`LogonRuns.ReconnectedAndCompared`).
- The number A of a client is not checked, though section 2.5.4 of RFC 5054 asks for it: from a multiple of the
  prime the daemon makes a key in which the verifier has no part (`SrpLogin.MultipleFixesKey`).
- The observer of the session key query has its condition the wrong way round, so a row that is found
  ends the connection and a missing one continues it; that answer is also the one event that leads out
  of the closing state (`RealmSession.StaysClosing`, `RealmSession.ClosingIsLeft`). The observer of the character counts calls
  back twice when there are no rows (`RealmSession.ListsPerAnswer`).
- An address is not unique in the registry: a realm without proxies takes one that another realm has
  (`Registry.AddressNotUnique`, `Registry.AddressStaysUnique`). Two live proxies that share one may
  announce themselves and be removed without end (`Registry.ConflictRepeats`). The assertion that a shutdown removes
  something fails when a proxy stops after the realm list came late (`AnnounceProtocol.LateListAborts`,
  `AnnounceProtocol.StopTripsExactly`).
- `SqlOperationTransaction` promises to restore autocommit. What it restores is what the connection
  object says, and nothing sets that when the connection is opened (`SqlConnection.ModeAfter`). On a
  connection where it says false, requests that follow a transaction wait for the next one and are lost when
  that fails (`SqlConnection.OutcomeExactly`, `SqlConnection.RequestLost`). The destructor deletes only half of
  the requests that are left (`SqlTransaction.SqlOperationTransaction.Destroy`).
- Two strings given for one position are joined instead of the second replacing the first
  (`SqlParameters.BoundByPosition`, `SqlParameters.StringsJoin`). Parameters of a failed request stay set and
  can take part in the next one (`SqlConnection.OwnParametersOnly`, `SqlConnection.LeftoverTakesPart`).
- Truth values are read from one byte and written as four (`ByteBuffer.BoolReadsOneOfFour`).
- The comments in `common/dbc/DBC_Store.h` put the power type of a class in column 3 and its names
  from column 5 on; the loader reads columns 2 and 4 to 19, and the model follows the loader.

## Model

| member | source | states |
|---|---|---|
| `MersenneTwister.XShift` | common/MTRand.h:143-163 | restarting the recurrence from any of its own windows continues the same sequence |
| `MersenneTwister.Recurrence` | common/MTRand.h:149-160 | word k + 624 is word k + 397 xored with the twist of the joined words k and k + 1 |
| `MersenneTwister.MixWord` | common/MTRand.h:150-150 | the joined word has the top bit of the one and the other 31 bits of the next |
| `MersenneTwister.TwistWord` | common/MTRand.h:151-151 | the twist is half of a word, xored with 0x9908b0df where it is odd |
| `MersenneTwister.XorWord` | common/MTRand.h:151-151 | words are added by exclusive or |
| `MersenneTwister.XLow` | common/MTRand.h:88-89 | with 64-bit words, every word stays within 32 bits |
| `MersenneTwister.Generator.Twist` | common/MTRand.h:149-160 | the three loops, reading old and new words side by side, leave the next 624 words of the recurrence |
| `MersenneTwister.Generator.GenrandInt32` | common/MTRand.h:137-174 | over any number of draws the n-th value is the tempered word x[624+n] of the sequence the seeding started |
| `MersenneTwister.TemperOrder` | common/MTRand.h:167-171 | the four tempering steps in their order |
| `MersenneTwister.TemperStep11` | common/MTRand.h:167-167 | the first of them |
| `MersenneTwister.TemperStep7` | common/MTRand.h:168-168 | the second |
| `MersenneTwister.TemperStep15` | common/MTRand.h:169-169 | the third |
| `MersenneTwister.TemperStep18` | common/MTRand.h:170-170 | the fourth |
| `MersenneTwister.Generator.InitGenrand` | common/MTRand.h:79-91 | word 0 is the low 32 bits of the number, every other follows from the one before it, and the next draw twists |
| `MersenneTwister.SeededExactly` | common/MTRand.h:79-91 | two numbers seed the same array exactly when their low 32 bits agree |
| `MersenneTwister.SeedNextWord` | common/MTRand.h:84-89 | the word that follows, with its multiplier and index |
| `MersenneTwister.ScrambleWord` | common/MTRand.h:84-89 | what a word contributes to the next |
| `MersenneTwister.Generator.InitByArray` | common/MTRand.h:97-134 | from the array of 19650218, max(624, key length) rounds of the first pass, 623 of the second, and 0x80000000 in front |
| `MersenneTwister.Generator.StirPass` | common/MTRand.h:105-119 | the first pass is the first max(624, key length) rounds, wrapping array and key independently |
| `MersenneTwister.Generator.SettlePass` | common/MTRand.h:121-131 | the second pass is the 623 rounds that follow, from wherever the first one stopped |
| `MersenneTwister.StirRound` | common/MTRand.h:105-119 | a round of the first pass: which word it changes, where the index wraps and copies, and that the key index goes round the key |
| `MersenneTwister.SettleRound` | common/MTRand.h:121-131 | and of the second pass |
| `MersenneTwister.StirWordIs` | common/MTRand.h:107-109 | the word of the first pass |
| `MersenneTwister.SettleWordIs` | common/MTRand.h:122-124 | the word of the second |
| `MersenneTwister.RoundsAdd` | common/MTRand.h:105-131 | rounds are done one after the other |
| `MersenneTwister.UnstepAfterStep` | common/MTRand.h:149-160 | one step can be undone on the 19937 significant bits |
| `MersenneTwister.StepAfterUnstep` | common/MTRand.h:149-160 | and every state is reached: the step is a bijection on those bits |
| `MersenneTwister.TwistInjective` | common/MTRand.h:149-160 | two states agree on the significant bits after n steps exactly when they did before |
| `MersenneTwister.NeverZero` | common/MTRand.h:149-160 | a state is non-zero after n steps exactly when it was before |
| `MersenneTwister.ZerosFixed` | common/MTRand.h:149-160 | the all-zero state is a fixed point, so the condition above cannot be dropped |
| `MersenneTwister.StepsAreWindow` | common/MTRand.h:143-163 | the step-by-step form and the window form of the recurrence agree |
| `MersenneTwister.TemperUndone` | common/MTRand.h:167-171 | tempering is a bijection of the 32-bit words, with its inverse given |
| `MersenneTwister.OutputsDetermineFuture` | common/MTRand.h:137-174 | any 624 consecutive values determine all later ones |
| `MersenneTwister.SeededUsable` | common/MTRand.h:79-91 | seeding with any number gives 32-bit words that are not all zero |
| `MersenneTwister.KeyedUsable` | common/MTRand.h:97-134 | seeding with any non-empty key does too |
| `MersenneTwister.RunsNeverZero` | common/MTRand.h:79-174 | after any seeding no number of draws reaches the all-zero state |
| `Bytes.BinReversedIsLE` | realmd/Realm_Socket.cpp:760-762 | convert-and-reverse is little-endian encoding exactly for full-width numbers and 0 |
| `Bytes.BinReversedExactly` | realmd/Realm_Socket.cpp:321-323 | on a buffer that was not cleared it is that exactly for full-width numbers, and for 0 where the buffer was all zero |
| `Bytes.OneIsShifted` | realmd/Realm_Socket.cpp:760-762 | the number 1 is read back as 256 to the power of one less than the width |
| `Bytes.BinReversedFull` | realmd/Realm_Socket.cpp:768-773 | a full-width number overwrites all of a reused buffer |
| `Bytes.BinFromBin` | realmd/Realm_Database.cpp:133-135 | bytes survive the way through a big number exactly when they do not start with 0 |
| `Bytes.HexRoundTrip` | proxyd/tbc/Proxy_Handlers.cpp:205-208 | reading hexadecimal text undoes writing it, for every number |
| `Bytes.HexText` | realmd/Realm_Socket.cpp:845-845 | the text of a number is "0" or two digits a byte, from the highest byte and the high half on |
| `Bytes.DigitIsAscii` | realmd/Realm_Socket.cpp:845-845 | digits are the upper-case ones of the ASCII table; lower case is read too |
| `Bytes.XorBit` | realmd/Realm_Socket.cpp:357-357 | bit k of the exclusive or of two bytes is the sum of their bits k modulo 2 |
| `Bytes.FixedLEAt` | realmd/Realm_Socket.cpp:760-762 | byte k of a little-endian number |
| `Bytes.FixedLECuts` | common/ByteBuffer.h:58-62 | a number that does not fit its width is cut to the low bytes |
| `Bytes.ReverseBytes` | realmd/Realm_Socket.cpp:281-284 | the in-place reversal |
| `Bytes.ReverseFront` | proxyd/tbc/Proxy_Handlers.cpp:255-255 | the in-place reversal of the first bytes, the others untouched |
| `Bytes.BnToBin` | realmd/Realm_Socket.cpp:322-322 | only the front of the buffer is written |
| `Srp6.ClientBase` | realmd/Realm_Socket.cpp:749-755 | B - 3g^x is congruent to g^b |
| `Srp6.ServerBase` | realmd/Realm_Socket.cpp:308-315 | A v^u is congruent to g^(a+ux) |
| `Srp6.PublicValue` | realmd/Realm_Socket.cpp:749-755 | B is 3v + g^b modulo N for every v |
| `Srp6.SecretIsPower` | realmd/Realm_Socket.cpp:308-315 | the secret of either side is g^(b(a+ux)) modulo N |
| `Srp6.SecretOfAnyA` | realmd/Realm_Socket.cpp:308-315 | for whatever A and v, the daemon computes (A v^u)^b modulo N |
| `Srp6.Agreement` | realmd/Realm_Socket.cpp:308-315 | for every modulus above 1 and all exponents both sides compute the same secret, as in section 2.6 of RFC 5054 with k = 3 |
| `Srp6.MultipleFixesSecret` | realmd/Realm_Socket.cpp:308-315 | for every modulus N above 1, a client number that is a multiple of N makes the secret 0, or 1 for exponent 0, whatever the verifier |
| `SrpLogin.HonestClientAgrees` | realmd/Realm_Socket.cpp:272-428 | a client that computes by its own formulas from sections 3 and 3.1 of RFC 2945, from the wire bytes alone, gets the K, the M1 and the reply that the daemon computes, whatever its stack holds, given a full-width salt, B and S and a password hash that does not start with 0; M1 is H(H(N) xor H(g), H(name), s, A, B, K) |
| `SrpLogin.SameSessionKey` | realmd/Realm_Socket.cpp:317-339 | picking every other byte and interleaving the digests gives the bytes the copying loops give |
| `SrpLogin.KeyBytes` | realmd/Realm_Socket.cpp:317-339 | the even bytes of K are the digest of the even bytes of S, the odd ones of the odd |
| `SrpLogin.XorAllBit` | realmd/Realm_Socket.cpp:355-358 | the mask is the two digests added bit by bit modulo 2 |
| `SrpLogin.ServerSValue` | realmd/Realm_Socket.cpp:287-315 | S is (A v^u)^b with u the little-endian number of H(A, B) |
| `SrpLogin.VerifierValue` | realmd/Realm_Socket.cpp:817-847 | v is g^x with x the little-endian number of H(s, P) |
| `SrpLogin.PassBytesValue` | realmd/Realm_Socket.cpp:830-833 | the bytes of a stored hash stand for its number, shifted up where it is shorter than 20 bytes |
| `SrpLogin.FullSecret` | realmd/Realm_Socket.cpp:317-339 | the buffer holds S alone exactly when S has full width, or is 0 and the buffer happened to be clear; a full-width S leaves nothing of the uncleared buffer in the key |
| `SrpLogin.MultipleFixesKey` | realmd/Realm_Socket.cpp:280-339 | for every A that is a multiple of the prime the key is made of what the uncleared buffer held, reversed |
| `SrpLogin.UnansweredSecret` | realmd/Realm_Socket.cpp:308-339 | while v, b and B are 0 the secret is 1 for every A |
| `SrpLogin.ClientReadsB` | realmd/Realm_Socket.cpp:760-763 | the client reads the daemon's B exactly when B fills its 32 bytes or is 0 |
| `SrpLogin.PassHashSurvives` | realmd/Realm_Socket.cpp:830-833 | the stored hash is unpacked unchanged exactly when its first byte is not 0 or all of it is |
| `SrpLogin.InterleaveKey` | realmd/Realm_Socket.cpp:317-339 | the copying loops compute the interleaved key of section 3.1 of RFC 2945 |
| `SrpLogin.HashHalf` | realmd/Realm_Socket.cpp:325-328 | the digest of every second byte |
| `SrpLogin.SpreadDigest` | realmd/Realm_Socket.cpp:330-331 | a digest goes to every second byte, the others stay |
| `SrpLogin.LogonSession.SetVs` | realmd/Realm_Socket.cpp:817-847 | v is g^x for the salted password hash, and s and v are stored in hexadecimal |
| `SrpLogin.LogonSession.AccountExists` | realmd/Realm_Socket.cpp:742-781 | B is 3v + g^b, and the packet carries B, g, N, s and the random tail in that order |
| `SrpLogin.LogonSession.BuildChallenge` | realmd/Realm_Socket.cpp:742-781 | the one buffer reused for four numbers leaves each of them whole |
| `SrpLogin.LogonSession.HandleLogonProof` | realmd/Realm_Socket.cpp:272-428 | the client is accepted exactly on H(H(N) xor H(g), H(name), s, A, B, K) with K over S and what the uncleared buffer held, the reply is H(A, M, K), and K is stored; a rejected client changes nothing |
| `SrpLogin.LogonSession.ScramblerOf` | realmd/Realm_Socket.cpp:287-306 | u is the little-endian number of H(A, B) |
| `SrpLogin.LogonSession.SecretKey` | realmd/Realm_Socket.cpp:308-339 | S is (A v^u)^b, and K is interleaved from the buffer it is written to and reversed in |
| `SrpLogin.LogonSession.ProofOf` | realmd/Realm_Socket.cpp:341-388 | M1 written out as in section 3 of RFC 2945: H(H(N) xor H(g), H(name), s, A, B, K) |
| `SrpLogin.AccountRow.SetSv` | realmd/Realm_Database.cpp:109-127 | the row holds the new salt and verifier |
| `SrpLogin.AccountRow.UpdateAccount` | realmd/Realm_Database.cpp:129-145 | the key is stored as the number its bytes stand for, little-endian, in hexadecimal, and the caller's buffer is left reversed |
| `SrpLogin.ProxySession.AccountRetrieved` | proxyd/tbc/Proxy_Handlers.cpp:172-307 | the four outcomes; a client is let in exactly when the account is known, the stored verifier is the recomputed one, and its digest is H(name, 0, its seed, the seed, key) over the key of which the first 40 bytes are reversed; then the cipher is keyed |
| `SrpLogin.ProxySession.RecomputeVerifier` | proxyd/tbc/Proxy_Handlers.cpp:204-226 | the verifier from the stored salt and hash |
| `SrpLogin.ProxySession.SetKey` | proxyd/tbc/Proxy_Crypto.cpp:44-63 | the cipher key is the HMAC of the session key bytes |
| `SrpLogin.SameVerifier` | proxyd/tbc/Proxy_Handlers.cpp:204-233 | from a full-width salt the proxy daemon recomputes the realm daemon's verifier |
| `SrpLogin.ProxyVerifierValue` | proxyd/tbc/Proxy_Handlers.cpp:204-226 | the recomputed verifier is g^x with the salt in its own width |
| `SrpLogin.StoredKeyValue` | proxyd/tbc/Proxy_Crypto.cpp:44-63 | the key the cipher gets is the stored number, lowest byte first, without leading zeros |
| `SrpLogin.CheckedKeyAt` | proxyd/tbc/Proxy_Handlers.cpp:250-262 | of the key that is checked the first forty bytes are reversed and the others are not |
| `SrpLogin.SameKey` | realmd/Realm_Database.cpp:132-138 | the stored text gives back the 40 key bytes exactly when the last one is not 0 |
| `SrpLogin.HandOff` | proxyd/tbc/Proxy_Handlers.cpp:204-287 | with the row the realm daemon wrote, the proxy daemon lets a client in and keys the cipher from the same 40 bytes exactly when it sends the digest over them |
| `AuthSession.AbortsExactly` | proxyd/tbc/Proxy_Handlers.cpp:155-163 | past the size check the reads fail exactly when no zero ends the login name before the last 24 bytes |
| `AuthSession.IgnoredExactly` | proxyd/tbc/Proxy_Handlers.cpp:151-153 | a packet is ignored exactly when it declares a size below 33 |
| `AuthSession.FieldsWhere` | proxyd/tbc/Proxy_Handlers.cpp:155-163 | which bytes of a packet are the name, the seed and the digest |
| `AuthSession.UnendedNameAborts` | proxyd/tbc/Proxy_Handlers.cpp:151-163 | packets of every declared size from 37 on that pass the check and on which the reads fail: all bytes alike and none of them zero |
| `AuthSession.StringEnds` | common/ByteBuffer.h:196-206 | reading a string ends before a position exactly when there is a zero before it |
| `AuthSession.PacketUnderstood` | proxyd/tbc/Proxy_Handlers.cpp:151-163 | login, seed and digest of an honest client's packet are read as they were written, whatever stands behind them |
| `AuthSession.ChallengeRead` | realmd/Realm_Socket.cpp:742-781 | what a client finds in the challenge, byte by byte: B, g, N, the salt and the random number |
| `AuthSession.HandleAuthSession` | proxyd/tbc/Proxy_Handlers.cpp:151-170 | a short packet is ignored, a failing read aborts, and otherwise login, seed and digest are kept for the answer of the database |
| `AuthSession.RealmLogin` | realmd/Realm_Socket.cpp:272-428 | account answer and proof, one after the other: an honest client is accepted, gets the reply it expects, and its own key is stored, given full-width B and S |
| `AuthSession.WorldEntry` | proxyd/tbc/Proxy_Handlers.cpp:151-307 | entry packet and account answer: a client with the stored key is let in and the cipher is keyed with that key, with a packet the receive buffer holds |
| `AuthSession.LoginThroughBothDaemons` | proxyd/tbc/Proxy_Handlers.cpp:151-307 | the two together, from the stored password hash to the keyed cipher: accepted by the realm daemon with the expected reply given full-width B and S, and let in by the proxy daemon when the last key byte is not 0 |
| `RealmSession.StepKeeps` | realmd/Realm_Socket.cpp:194-277 | every event keeps the invariant and none leads back to the first state |
| `RealmSession.StatesExactly` | realmd/Realm_Socket.cpp:194-528 | from which state and by which event each state is reached |
| `RealmSession.QueuesExactly` | realmd/Realm_Socket.cpp:237-815 | by which event, in which state, each kind of packet is queued |
| `RealmSession.ListsExactly` | realmd/Realm_Socket.cpp:448-554 | how many packets an event queues, and when a realm list |
| `RealmSession.AskedExactly` | realmd/Realm_Socket.cpp:237-492 | which event asks and which answers each query |
| `RealmSession.NamesExactly` | realmd/Realm_Socket.cpp:237-492 | when name and build are taken; a logon appends to the name |
| `RealmSession.CommandsExactly` | realmd/Realm_Socket.cpp:194-234 | the command byte of each request |
| `RealmSession.SupportedBuilds` | realmd/Realm_Socket.cpp:119-133 | the four builds |
| `RealmSession.LockLetsIn` | realmd/Realm_Socket.cpp:729-738 | a locked account gets a challenge from its last address only |
| `RealmSession.ChallengedAtHome` | realmd/Realm_Socket.cpp:729-781 | in every run a challenge stands for an account that is not banned, and if it is locked for its last address |
| `RealmSession.AmountsLast` | realmd/Realm_Database.h:121-123 | the last row of a realm decides its count |
| `RealmSession.AmountsKeys` | realmd/Realm_Database.h:121-123 | and exactly the realms with a row have one |
| `RealmSession.ListTouches` | realmd/Realm_Socket.cpp:617-670 | the later builds' list enters a zero for each of its realms without a count, and changes no count |
| `RealmSession.RunKeeps` | realmd/Realm_Socket.cpp:194-554 | so does every run |
| `RealmSession.RealmListOnlyAfterProof` | realmd/Realm_Socket.cpp:448-554 | in every run each realm list is queued behind an accepted proof |
| `RealmSession.PathsNeverMix` | realmd/Realm_Socket.cpp:237-277 | no connection takes part in both the logon and the reconnect exchange |
| `RealmSession.StepEarns` | realmd/Realm_Socket.cpp:392-428 | only a proof equal to the digest the daemon computes queues the packet that says so, and queued packets stay |
| `RealmSession.ProofPacketsAreEarned` | realmd/Realm_Socket.cpp:392-528 | in every run an acceptance packet stands for a proof that equalled the computed digest |
| `RealmSession.ProofBehindChallenge` | realmd/Realm_Socket.cpp:268-277 | in every run each accepted proof stands behind a challenge exactly when no matching proof arrives before the account was answered as existing, not banned and not locked elsewhere |
| `RealmSession.BannedYetAccepted` | realmd/Realm_Socket.cpp:268-277 | the shortest run on which one does: the address is banned, and a proof is accepted exactly when it equals the digest |
| `RealmSession.ReconnectBehindChallenge` | realmd/Realm_Socket.cpp:490-501 | in every run each accepted reconnect proof stands behind a challenge exactly when no matching one arrives before the session key query was answered without a row |
| `RealmSession.ReconnectedUnasked` | realmd/Realm_Socket.cpp:490-527 | the shortest run on which one does |
| `LogonRuns.AcceptedProofs` | realmd/Realm_Socket.cpp:280-392 | in every run in which the digests are those the daemon computes, each acceptance packet stands for a proof equal to the digest over the account's verifier if a challenge was queued before it, and over v, b and B of 0 if none was |
| `LogonRuns.UnansweredDigest` | realmd/Realm_Socket.cpp:280-388 | the latter digest is made of the salt, A, zeros for B, and a key from the secret 1 |
| `LogonRuns.AnsweredDigest` | realmd/Realm_Socket.cpp:280-388 | the former digest is made of the salt, A, B and the key over the verifier |
| `LogonRuns.BannedAndCompared` | realmd/Realm_Socket.cpp:268-388 | the run of a banned address with that digest: accepted exactly when the proof equals it |
| `LogonRuns.ReconnectedAndCompared` | realmd/Realm_Socket.cpp:494-527 | the run of a reconnect without an answer: accepted exactly on the digest of name, the client's bytes, the numbers 0 and 3 and what the uncleared buffers held |
| `RealmSession.LeavingClosing` | realmd/Realm_Socket.cpp:791-815 | the closing state is left exactly by the answer that no session key row was found |
| `RealmSession.StaysClosing` | realmd/Realm_Socket.cpp:791-815 | in every run a closing connection stays closing exactly when that answer does not arrive |
| `RealmSession.ClosingIsLeft` | realmd/Realm_Database.h:86-101 | runs on which that happens, for every build and name |
| `RealmSession.ListsPerAnswer` | realmd/Realm_Database.h:114-128 | one realm list per answer, two when it has no rows |
| `RealmSession.VerifierRewritten` | realmd/Realm_Socket.cpp:530-554 | and as many times salt and verifier are stored anew |
| `RealmSession.RewritingsCounted` | realmd/Realm_Socket.cpp:448-554 | in every run each logon challenge and each realm list stands for one storing of salt and verifier, but for the lists sent from counts already known |
| `RealmSession.RealmSocket.HandleInput` | realmd/Realm_Socket.cpp:194-234 | dispatch by command; a failed read or an unknown command closes |
| `RealmSession.RealmSocket.HandleAuthLogonChallenge` | realmd/Realm_Socket.cpp:237-270 | the logon step with its wrong-state and wrong-build branches |
| `RealmSession.RealmSocket.HandleAuthLogonProof` | realmd/Realm_Socket.cpp:272-428 | the proof step by state and by comparison of the proof with the computed digest |
| `RealmSession.RealmSocket.HandleAuthReconnectChallenge` | realmd/Realm_Socket.cpp:479-492 | the reconnect step; the build is not checked |
| `RealmSession.RealmSocket.HandleAuthReconnectProof` | realmd/Realm_Socket.cpp:494-528 | the reconnect proof step, by state and comparison |
| `RealmSession.RealmSocket.HandleRealmList` | realmd/Realm_Socket.cpp:448-477 | a list from known counts, or a query for them |
| `RealmSession.RealmSocket.SendRealmList` | realmd/Realm_Socket.cpp:536-553 | the list for the client's build; an unsupported build closes |
| `RealmSession.RealmSocket.AccountChecked` | realmd/Realm_Socket.cpp:706-789 | one answer per account state; a locked account is refused from any other than its last address |
| `RealmSession.RealmSocket.GetCharAmount` | realmd/Realm_Socket.cpp:530-554 | the counts are kept, a list is sent, and the verifier is stored anew |
| `RealmSession.RealmSocket.GetSessionkey` | realmd/Realm_Socket.cpp:791-815 | closes, or sends the challenge and moves on from any state |
| `RealmSession.RealmSocket.Answer` | realmd/Realm_Database.h:79-215 | what each observer makes of the rows it gets |
| `RealmSession.RealmSocket.AnswerAccount` | realmd/Realm_Database.h:189-214 | no row, an active ban, or the lock and last address taken over |
| `RealmSession.RealmSocket.AnswerAmounts` | realmd/Realm_Database.h:114-128 | the map of counts built row by row, and one call more when there is none |
| `Registry.AnnouncedKeeps` | realmd/Realm_Service.cpp:172-249 | the registry stays in key order, with known realms only and no realm and address pair twice |
| `Registry.AnnouncedEffect` | realmd/Realm_Service.cpp:181-291 | although the load is looked up by address alone, exactly the announced realm's entry changes; a conflict leaves no entry with the address |
| `Registry.UnknownIgnored` | realmd/Realm_Service.cpp:176-179 | an announcement of an unknown realm changes nothing |
| `Registry.ConflictExactly` | realmd/Realm_Service.cpp:181-236 | when two requests go out, and to whom, the other realm first |
| `Registry.ReachedWellFormed` | realmd/Realm_Service.cpp:122-291 | after any events and realm lists whatsoever, conflicting announcements included, the registry is in key order, with known realms only and no realm and address pair twice |
| `Registry.BestIsFirstLeast` | realmd/Realm_Service.cpp:293-316 | the chosen proxy is the first of the least loaded; none is chosen exactly when there is none |
| `Registry.AnnounceRefines` | realmd/Realm_Service.cpp:172-272 | where each address has one realm, an announcement is an update of a map from addresses to realm and load |
| `Registry.DeleteRefines` | realmd/Realm_Service.cpp:274-291 | and a shutdown is a removal from it |
| `Registry.ReachedIsMap` | realmd/Realm_Service.cpp:122-291 | over all events and realm lists in which each address has one realm, the registry is the map these updates and removals make |
| `Registry.AddressNotUnique` | realmd/Realm_Service.cpp:189-190 | a registry and an announcement that put one address under two realms |
| `Registry.AddressStaysUnique` | realmd/Realm_Service.cpp:181-236 | an announcement makes an address ambiguous exactly when its realm has no proxy and another realm's proxy has the address |
| `Registry.ConflictRepeats` | realmd/Realm_Service.cpp:181-236 | after a conflict over an address, when the second realm has another proxy, the answers to the two requests end in the same conflict however often they come |
| `Registry.RealmService.ProcessProxyAnnounce` | realmd/Realm_Service.cpp:172-236 | the scan, its three outcomes and the two requests after a conflict |
| `Registry.RealmService.AddProxy` | realmd/Realm_Service.cpp:238-249 | the entry goes behind the others of its realm |
| `Registry.RealmService.UpdateProxyLoad` | realmd/Realm_Service.cpp:251-272 | the first entry with the address gets the load |
| `Registry.RealmService.DeleteProxy` | realmd/Realm_Service.cpp:274-291 | all entries with the address go; the assertion fails exactly when there was none |
| `Registry.RealmService.DeleteProxies` | realmd/Realm_EC_Communicator.cpp:81-81 | the registry is emptied |
| `Registry.RealmService.UpdateRealms` | realmd/Realm_Service.cpp:122-147 | the registry is emptied and every known realm is asked, in order |
| `Registry.RealmService.Push` | realmd/Realm_EC_Communicator.cpp:100-139 | what each event does to the registry |
| `Registry.RealmService.GetProxyForRealm` | realmd/Realm_Service.cpp:293-316 | the two loops find the entry of the specification, and the empty string without proxies |
| `AnnounceProtocol.RunKeeps` | realmd/Realm_EC_Communicator.cpp:78-139 | in every interleaving, the last message under way from an address, or else the registry, tells its state |
| `AnnounceProtocol.ChannelExactly` | proxyd/Proxyd_EC_Communicator.cpp:87-142 | what each step pushes; messages arrive in order and none is lost |
| `AnnounceProtocol.RequestsExactly` | realmd/Realm_Service.cpp:122-147 | whom a realm list asks; requests are taken from the front |
| `AnnounceProtocol.Resynchronised` | realmd/Realm_EC_Communicator.cpp:78-98 | once nothing is under way to or from an address, the registry lists it exactly when its proxy is live and its realm known, with the load it last announced |
| `AnnounceProtocol.Settles` | proxyd/Proxyd_EC_Communicator.cpp:109-142 | taking requests and delivering messages uses up what is under way |
| `AnnounceProtocol.OrderlyRunsNeverAbort` | realmd/Realm_Service.cpp:289-289 | when the realm list comes before the proxies, no shutdown trips the assertion |
| `AnnounceProtocol.DrainTrips` | realmd/Realm_Service.cpp:274-291 | delivering all that is under way from an address trips the assertion exactly when one of its shutdowns finds it not listed |
| `AnnounceProtocol.StopTripsExactly` | realmd/Realm_Service.cpp:274-291 | in every run, delivering all that is under way from a live proxy and then its shutdown, before another realm list, trips it exactly when one of its earlier shutdowns does or the address is not listed and no announcement of a known realm is under way |
| `AnnounceProtocol.LateListAborts` | realmd/Realm_EC_Communicator.cpp:78-133 | a live, settled proxy that stops after a new realm list trips it |
| `AnnounceProtocol.LateListReachable` | realmd/Realm_Service.cpp:181-185 | such a proxy occurs: one that announced itself before the list |
| `AnnounceProtocol.ProxyCommunicator.AnnounceSelf` | proxyd/Proxyd_EC_Communicator.cpp:87-97 | pushes realm, address and current load |
| `AnnounceProtocol.ProxyCommunicator.Shutdowned` | proxyd/Proxyd_EC_Communicator.cpp:99-107 | pushes the address |
| `AnnounceProtocol.ProxyCommunicator.Push` | proxyd/Proxyd_EC_Communicator.cpp:109-142 | answers requests for its own realm only, and restarts a timer that was started |
| `HeaderCipher.RoundTrip` | proxyd/tbc/Proxy_Crypto.cpp:65-90 | from a shared position decryption undoes encryption and the other way round, and both ends keep the same position |
| `HeaderCipher.EncryptAt` | proxyd/tbc/Proxy_Crypto.cpp:65-76 | byte t of the cipher stream: the byte xored with key byte i + t round the twenty, plus the cipher byte before it |
| `HeaderCipher.DecryptAt` | proxyd/tbc/Proxy_Crypto.cpp:78-90 | byte t of the plain stream: the byte less the cipher byte before it, xored with that key byte |
| `HeaderCipher.EndsAt` | proxyd/tbc/Proxy_Crypto.cpp:65-90 | where either stream leaves the position |
| `HeaderCipher.EncryptCut` | proxyd/tbc/Proxy_Crypto.cpp:65-76 | encrypting in two pieces is encrypting the whole |
| `HeaderCipher.DecryptCut` | proxyd/tbc/Proxy_Crypto.cpp:78-90 | the same for decryption |
| `HeaderCipher.CutsAgree` | proxyd/tbc/Proxy_Crypto.cpp:65-76 | however a stream is cut into headers, the cipher stream and the end position are the same |
| `HeaderCipher.ConversationRoundTrip` | proxyd/tbc/Proxy_Crypto.cpp:65-90 | header by header, the peer recovers every header and stays in step |
| `HeaderCipher.ProxyCrypto.EncryptHeader` | proxyd/tbc/Proxy_Crypto.cpp:65-76 | four bytes in place, the rest untouched, nothing at all before a key is set |
| `HeaderCipher.ProxyCrypto.DecryptHeader` | proxyd/tbc/Proxy_Crypto.cpp:78-90 | six bytes in place, likewise |
| `OutputQueue.AttemptFromExact` | realmd/Realm_Socket.cpp:858-880 | from an exact stream one attempt keeps it exact when it is clean, and spoils it when it is not |
| `OutputQueue.CorruptStays` | realmd/Realm_Socket.cpp:858-880 | no later event repairs a spoiled stream |
| `OutputQueue.RunExact` | realmd/Realm_Socket.cpp:849-930 | over whole runs, bytes taken followed by bytes queued are the bytes sent exactly when every attempt was clean |
| `OutputQueue.PartialWriteRepeatsAByte` | realmd/Realm_Socket.cpp:863-868 | two bytes of which one is taken: the first is sent twice, the second never |
| `OutputQueue.RunRegistered` | realmd/Realm_Socket.cpp:917-930 | a waiting packet keeps the handler registered exactly as long as no attempt failed; after a failure nothing is sent any more |
| `OutputQueue.RealmOutput.Send` | realmd/Realm_Socket.cpp:917-930 | queue, and register when nobody was waiting |
| `OutputQueue.RealmOutput.HandleOutput` | realmd/Realm_Socket.cpp:849-890 | the loop is a sequence of attempts, and its result says whether it is registered and whether packets wait |
| `ProxyOutput.ContinuesExactly` | proxyd/Proxy_Socket.cpp:198-213 | what is offered after a partial write is what was not taken exactly when the write was clean |
| `ProxyOutput.AttemptExact` | proxyd/Proxy_Socket.cpp:196-224 | an attempt keeps the stream exact exactly when it fails or is clean |
| `ProxyOutput.RunInStep` | proxyd/Proxy_Socket.cpp:203-205 | over all runs, with errors and with the key set at any moment, every header is ciphered once, in send order |
| `ProxyOutput.RunExact` | proxyd/Proxy_Socket.cpp:75-234 | over all runs, bytes taken and what is left of the packet under way are the frames of all packets offered so far, at every moment, exactly when every attempt that does not fail is clean |
| `ProxyOutput.PartialWriteLosesSize` | proxyd/Proxy_Socket.cpp:197-213 | a packet of four bytes of which one is taken first: the peer gets another size and command |
| `ProxyOutput.KeyDecides` | proxyd/tbc/Proxy_Handlers.cpp:287-295 | a packet goes out plain exactly when it was first offered before the key was set, however long before it was sent |
| `ProxyOutput.WaitingIsCiphered` | proxyd/Proxy_Socket.cpp:197-205 | a packet sent before the key is set and offered afterwards goes out ciphered |
| `ProxyOutput.FramesAreRead` | proxyd/Proxy_Socket.cpp:196-206 | a client that deciphers headers and believes the size field recovers exactly the framed packets |
| `ProxyOutput.SizedBytes` | proxyd/Proxy_Socket.cpp:197-200 | the size field counts what is behind it, highest byte first, and the other bytes stay |
| `ProxyOutput.FrameBytes` | proxyd/tbc/Proxy_Crypto.cpp:65-76 | the first four bytes are ciphered exactly when a key is set |
| `ProxyOutput.ClientReadsAll` | proxyd/Proxy_Socket.cpp:75-234 | with clean attempts the client reads all packets in order, however sends, writes and the key interleave |
| `ProxyOutput.ProxyOutputQueue.Send` | proxyd/Proxy_Socket.cpp:75-84 | queue, and register when nobody was waiting |
| `ProxyOutput.ProxyOutputQueue.KeySet` | proxyd/tbc/Proxy_Handlers.cpp:287-287 | the key takes effect for the packets offered first from then on |
| `ProxyOutput.ProxyOutputQueue.PrepareFront` | proxyd/Proxy_Socket.cpp:197-205 | the size is patched always, the header ciphered unless continuing |
| `ProxyOutput.ProxyOutputQueue.TryFront` | proxyd/Proxy_Socket.cpp:197-222 | one turn of the loop is one attempt |
| `ProxyOutput.ProxyOutputQueue.HandleOutput` | proxyd/Proxy_Socket.cpp:189-234 | the loop is a sequence of attempts |
| `ProxyInput.RunFaithful` | proxyd/Proxy_Socket.cpp:93-150 | however receive calls cut the payloads and wherever between two headers the key is set, what is dispatched is, in order, what a client sent that writes its sizes highest byte first, as long as each header is read in the mode it was framed in |
| `ProxyInput.PlainFrame` | proxyd/Proxy_Socket.cpp:107-111 | a client's packet on the wire before the key: its size highest byte first, the rest as in memory |
| `ProxyInput.SizeOnTheWire` | proxyd/Proxy_Socket.cpp:107-111 | the size the daemon takes from any header, plain or deciphered: 256 times the first byte plus the second |
| `ProxyInput.ClosedExactly` | proxyd/Proxy_Socket.cpp:100-135 | when an activation closes the connection |
| `ProxyInput.AssertsExactly` | proxyd/Proxy_Socket.cpp:117-187 | when it fails an assertion |
| `ProxyInput.ExpectedExactly` | proxyd/Proxy_Socket.cpp:117-121 | what the first read of a packet leaves expected, in unsigned arithmetic |
| `ProxyInput.FailedHeaderRepeats` | proxyd/Proxy_Socket.cpp:100-111 | after a failed header read the six bytes of the last header are taken again |
| `ProxyInput.MidPacket` | proxyd/Proxy_Socket.cpp:117-145 | in the middle of a packet, bytes there and bytes expected add up to the declared size plus 2 |
| `ProxyInput.AllDispatched` | proxyd/Proxy_Socket.cpp:93-150 | when everything is read and no packet is under way, every packet was dispatched |
| `ProxyInput.DispatchedUnlessCut` | proxyd/Proxy_Socket.cpp:93-150 | for packets that fit the buffer, whatever the cuts: when all bytes are read, all packets were dispatched exactly when none before the last needed a further read |
| `ProxyInput.DeletedIsUsed` | proxyd/Proxy_Socket.cpp:130-148 | over every run a deleted packet is used exactly when bytes arrive behind a packet that needed more than one read |
| `ProxyInput.ContinuedIsLast` | proxyd/Proxy_Socket.cpp:130-148 | behind such a packet every activation ends the connection and dispatches nothing; cleanly exactly when the receive call gives 0 or -1 |
| `ProxyInput.CutPacketIsFatal` | proxyd/Proxy_Socket.cpp:93-150 | from the start, in every mode, any two packets: the first in two parts is dispatched, and the first byte of the second is read for the deleted one |
| `ProxyInput.OverrunExactly` | proxyd/Proxy_Socket.cpp:100-121 | bytes can be received past the end of the buffer exactly when the deciphered size is below 4 or above 4094 |
| `ProxyInput.NextOverrunExactly` | proxyd/Proxy_Socket.cpp:130-132 | the same for the rest of a packet: exactly when more is expected than the buffer holds |
| `ProxyInput.NoOverrun` | proxyd/Proxy_Socket.cpp:93-150 | over every run whose headers declare 4 to 4094, failed reads included, nothing is received past the end |
| `ProxyInput.FailedReadShifts` | proxyd/Proxy_Socket.cpp:117-127 | after a failed payload read the last header byte is lost and a byte of the next packet takes its place, unnoticed exactly when all bytes from there on are that byte |
| `ProxyInput.ProxyInputHandler.HandleInput` | proxyd/Proxy_Socket.cpp:93-150 | one activation, both branches, with every result the receive calls can give, up to overrun, use of the deleted packet and failed assertions |
| `ProxyInput.ProxyInputHandler.KeySet` | proxyd/tbc/Proxy_Handlers.cpp:287-287 | the key takes effect for the headers read from then on |
| `ProxyInput.ProxyInputHandler.DecipherHeader` | proxyd/Proxy_Socket.cpp:107-111 | the header deciphered in place and its size put in memory order |
| `ProxyInput.ProxyInputHandler.FirstPart` | proxyd/Proxy_Socket.cpp:106-128 | the packet made of header and payload, five bytes after an error, and what is still expected in unsigned arithmetic |
| `ProxyInput.ProxyInputHandler.NextPart` | proxyd/Proxy_Socket.cpp:130-148 | the rest of a packet, with the receive result tested before the packet is touched |
| `ProxyInput.ProxyInputHandler.Receive` | proxyd/Proxy_Socket.cpp:117-117 | received bytes land behind what is in the buffer, which stays |
| `ProxyInput.ProxyInputHandler.ProcessIncoming` | proxyd/Proxy_Socket.cpp:152-187 | dispatched once, then deleted; a packet without a whole header fails the assertion |
| `ByteBuffer.RoundTrip` | common/ByteBuffer.h:58-311 | a value of any type that can be written and read, containers nested to any depth, is read back where it was written, with the cursor right behind it |
| `ByteBuffer.NumberBytes` | common/ByteBuffer.h:58-62 | a number is written lowest byte first |
| `ByteBuffer.SignedBytes` | common/ByteBuffer.h:91-110 | a signed one in two's complement |
| `ByteBuffer.TextBytes` | common/ByteBuffer.h:123-134 | a text as its characters and a zero |
| `ByteBuffer.StringRead` | common/ByteBuffer.h:196-206 | a text is read up to its zero, or to the end |
| `ByteBuffer.ContainerBytes` | common/ByteBuffer.h:514-570 | a container as its count in four bytes and its elements |
| `ByteBuffer.ElementsJoin` | common/ByteBuffer.h:514-545 | elements one after the other |
| `ByteBuffer.EntriesJoin` | common/ByteBuffer.h:562-570 | entries one after the other, key before value |
| `ByteBuffer.ReadsExactly` | common/ByteBuffer.h:137-206 | which reads fail, and when |
| `ByteBuffer.KeysReadOnce` | common/ByteBuffer.h:572-586 | from any bytes no key is read twice, and the first entry is kept |
| `ByteBuffer.BoolReadsOneOfFour` | common/ByteBuffer.h:137-141 | a truth value has no writing operator: promoted to a number it takes four bytes, of which reading takes one and gets the value |
| `ByteBuffer.BoolFromByte` | common/ByteBuffer.h:137-141 | from a byte that was written it is read right exactly below 128 |
| `ByteBuffer.AllRoundTrip` | common/ByteBuffer.h:514-560 | the elements of vectors and lists |
| `ByteBuffer.EntriesRoundTrip` | common/ByteBuffer.h:562-586 | the entries of maps, where reading inserts and a present key wins |
| `ByteBuffer.SessionRoundTrip` | common/ByteBuffer.h:70-206 | any sequence of values written one after the other is read back in order, with the cursor at the end |
| `ByteBuffer.GuidRoundTrip` | common/ByteBuffer.h:299-311 | a packed identifier is read back whatever follows; its length is 1 plus the number of non-zero bytes |
| `ByteBuffer.MaskBit` | common/ByteBuffer.h:299-311 | bit k of the mask is set exactly when byte k is not zero |
| `ByteBuffer.PackedBytes` | common/ByteBuffer.h:299-311 | behind the mask stand the bytes that are not zero, the lowest first |
| `ByteBuffer.GuidPrefixFree` | common/ByteBuffer.h:299-311 | no packed identifier is a prefix of another's |
| `PacketBuffer.HeaderReadsBack` | common/ByteBuffer.h:458-511 | patching touches the four header bytes alone, and command and size read back |
| `PacketBuffer.HeaderBytesAre` | common/ByteBuffer.h:458-496 | the four bytes of a header: size plus 2 highest byte first, command lowest byte first |
| `PacketBuffer.Buffer.ServerPacket` | common/ByteBuffer.h:451-451 | a new packet is its header, with the cursor behind it |
| `PacketBuffer.Buffer.AppendBytes` | common/ByteBuffer.h:282-292 | writing at the cursor overwrites or grows |
| `PacketBuffer.WrittenByte` | common/ByteBuffer.h:282-292 | byte by byte: the written ones, the old ones, and zeros in a gap |
| `PacketBuffer.Buffer.Write` | common/ByteBuffer.h:70-135 | puts the encoding of any value at the cursor, wherever it is |
| `PacketBuffer.Buffer.WriteElems` | common/ByteBuffer.h:514-545 | the loop over the elements, at the cursor |
| `PacketBuffer.Buffer.WriteEntries` | common/ByteBuffer.h:562-570 | the loop over the entries, at the cursor |
| `PacketBuffer.Buffer.Read` | common/ByteBuffer.h:137-206 | reads what the specification decodes and moves the cursor behind it |
| `PacketBuffer.Buffer.ReadText` | common/ByteBuffer.h:196-206 | up to the next zero, or to the end without one |
| `PacketBuffer.Buffer.ReadElems` | common/ByteBuffer.h:524-560 | the counted loop |
| `PacketBuffer.Buffer.ReadEntries` | common/ByteBuffer.h:572-586 | the counted loop, keeping the first entry of a key |
| `PacketBuffer.Buffer.AppendPackGuid` | common/ByteBuffer.h:299-311 | the mask completed bit by bit behind the cursor is the packed form, wherever the cursor is |
| `PacketBuffer.WrittenTwice` | common/ByteBuffer.h:282-292 | writing in two pieces is writing the whole, over old bytes and past the end alike |
| `PacketBuffer.Buffer.SetSize` | common/ByteBuffer.h:487-496 | the size field in network order, the cursor where it was |
| `PacketBuffer.Buffer.SetOpcode` | common/ByteBuffer.h:458-466 | the command field, the cursor where it was |
| `PacketBuffer.Buffer.Opcode` | common/ByteBuffer.h:471-480 | the command, the cursor where it was |
| `PacketBuffer.Buffer.Size` | common/ByteBuffer.h:501-511 | the size, the cursor where it was |
| `RealmList.PacketRoundTrip` | realmd/Realm_Socket.cpp:617-670 | a client reads back exactly the listed realms exactly when their number fits the count and the body fits the length field |
| `RealmList.PacketBytes` | realmd/Realm_Socket.cpp:556-670 | the packet byte by byte in both layouts: command, length, four zeros, count, lines, two closing bytes |
| `RealmList.LineBytes` | realmd/Realm_Socket.cpp:581-650 | a line byte by byte in both layouts |
| `RealmList.LinesJoin` | realmd/Realm_Socket.cpp:574-657 | lines one after the other |
| `RealmList.TextOfAt` | realmd/Realm_Socket.cpp:583-583 | an address goes out character by character |
| `RealmList.SelectedAscends` | realmd/Realm_Socket.cpp:635-657 | the list has one line for each realm of the client's build, in ascending order |
| `RealmList.RealmListRoundTrip` | realmd/Realm_Socket.cpp:556-670 | both together for the list a client gets, each line with the realm's icon, name, population and timezone, the client's count there, the first least loaded proxy's address, the offline colour exactly where the address is empty, and the lock by security level |
| `RealmList.RealmSocket.BuildRealmPacket` | realmd/Realm_Socket.cpp:556-615 | the packet of build 5875, with the proxies the registry chooses |
| `RealmList.RealmSocket.BuildExpansionRealmPacket` | realmd/Realm_Socket.cpp:617-670 | the packet of the later builds; looking counts up enters zeros and changes none |
| `RealmList.RealmSocket.WriteLine` | realmd/Realm_Socket.cpp:581-597 | one line of the first layout |
| `RealmList.RealmSocket.WriteExpansionLine` | realmd/Realm_Socket.cpp:640-650 | one line of the second layout, with the lock by security level |
| `RealmList.RealmSocket.CountRealms` | realmd/Realm_Socket.cpp:562-567 | the counting loop counts the lines that are written |
| `SqlParameters.BoundByPosition` | database/Database.cpp:56-118 | every position is bound to the last argument given for it, strings to all of theirs joined, gaps to false |
| `SqlParameters.BindKeeps` | database/Database.cpp:123-147 | the type and value each kind of argument is bound as |
| `SqlParameters.LastValueBinds` | database/Database.cpp:56-108 | a value given last is what its position is bound to, other positions stay, gaps are false |
| `SqlParameters.LastStringJoins` | database/Database.cpp:110-118 | a string given last is appended to what its position had |
| `SqlParameters.StringsJoin` | database/Database.cpp:110-118 | two strings for one position are bound as one |
| `SqlParameters.OrderAcrossPositions` | database/Database.cpp:56-118 | only the order of the calls for one and the same position matters |
| `SqlParameters.OrderIndependent` | database/Database.cpp:56-118 | when each position is given once, the calls may come in any order |
| `SqlParameters.SwapCondition` | database/Database.cpp:56-118 | two calls commute exactly when they are for different positions, equal, or strings that commute |
| `SqlConnection.OwnParametersOnly` | database/Database.cpp:123-152 | a request runs with its own parameters only exactly when it gives every position that is still set |
| `SqlConnection.LeftoverTakesPart` | database/Database.cpp:123-152 | a failed request with two parameters and a request with one behind it, which then runs with two |
| `SqlConnection.ExecutedIsEffect` | database/Database.cpp:120-160 | the effect of a request is the same on every connection with the same database and set parameters; others see it at once exactly when autocommit is on |
| `SqlConnection.ExecutedExactly` | database/Database.cpp:120-160 | when a request succeeds, what it ran with, and what is set afterwards |
| `SqlConnection.EffectsInOrder` | database/Database.h:500-513 | the requests of a transaction take effect one after the other up to the first that fails |
| `SqlConnection.WholeOrNothing` | database/Database.h:496-527 | what one operation should leave |
| `SqlConnection.OutcomeSplits` | database/Database.cpp:198-207 | what a queue should leave is what its operations leave one after the other |
| `SqlConnection.LeftoversCovered` | database/Database.cpp:123-152 | a request that gives all positions is not touched by what failed requests left set |
| `SqlConnection.LeftoversNeverMatter` | database/Database.cpp:123-152 | over any queue of such requests and transactions what was left set never matters |
| `SqlConnection.RunAllIsHidden` | database/Database.h:498-513 | while a transaction runs, others see nothing of it |
| `SqlConnection.CallIsAtomic` | database/Database.h:496-527 | success: all requests applied in order and visible; failure: what was committed before, which is the old state exactly when nothing else was pending |
| `SqlConnection.ServedIsPosted` | database/MySQL/MySQLConnection.cpp:113-113 | for every queue, from the connection as the driver opens it, with the flag of the connection object either way: what the connection sees, what others see, and whether requests wait; once a transaction has run on a connection whose flag is false, single requests wait for the next transaction to commit or drop them |
| `SqlConnection.OutcomeExactly` | database/Database.h:474-527 | for every queue and from that connection: at every moment each operation has taken effect as a whole or not at all exactly when every failing transaction finds nothing waiting that mattered; others then see the outcome at the last moment when nothing was waiting |
| `SqlConnection.ServedIsOutcome` | database/Database.cpp:198-207 | where the flag is true each operation of any queue takes effect as a whole or not at all, at once and for everyone |
| `SqlConnection.RequestLost` | database/Database.h:496-527 | where it is false, any request that succeeds between an empty transaction and one that fails is lost |
| `SqlConnection.RequestLostOnce` | database/Database.h:496-527 | a database cell and a queue of three operations on which that happens |
| `SqlConnection.ModeAfter` | database/Database.h:474-483 | autocommit is what it was exactly when the connection object knew it or no transaction ran |
| `SqlTransaction.DatabaseConnection.SetAutoCommit` | database/MySQL/MySQLConnection.cpp:172-181 | switching autocommit on makes everything pending visible; switching it off changes nothing |
| `SqlTransaction.SqlOperationRequest.AddBool` | database/Database.cpp:56-63 | the vector grows to the position with blank elements, and the position gets the value |
| `SqlTransaction.SqlOperationRequest.AddUint8` | database/Database.cpp:65-72 | the same for a byte; the string the position may have is kept |
| `SqlTransaction.SqlOperationRequest.AddUint16` | database/Database.cpp:74-81 | the same for a short number |
| `SqlTransaction.SqlOperationRequest.AddUint32` | database/Database.cpp:83-90 | the same for a number |
| `SqlTransaction.SqlOperationRequest.AddUint64` | database/Database.cpp:92-99 | the same for a long number |
| `SqlTransaction.SqlOperationRequest.AddFloat` | database/Database.cpp:101-108 | the same for a float |
| `SqlTransaction.SqlOperationRequest.AddString` | database/Database.cpp:110-118 | text is appended to what the position has |
| `SqlTransaction.SqlOperationRequest.Execute` | database/Database.cpp:120-160 | the binding loop, the run and the clearing; -1 leaves what was set |
| `SqlTransaction.SqlOperationTransaction.Append` | database/Database.h:488-491 | requests wait in the order they came |
| `SqlTransaction.SqlOperationTransaction.RunRequests` | database/Database.h:500-513 | the loop runs up to the first failure and deletes exactly the requests that succeeded |
| `SqlTransaction.SqlOperationTransaction.Call` | database/Database.h:496-527 | commit or roll back, -1 or 0, no request deleted twice |
| `SqlTransaction.SqlOperationTransaction.Destroy` | database/Database.h:474-483 | deletes the first half of what is left, all of it exactly when that is at most one, and switches autocommit to the remembered value |
| `SqlTransaction.DatabaseWorker.Perform` | database/Database.cpp:204-206 | one operation run and deleted; of a transaction's requests that did not succeed, half stay undeleted |
| `SqlTransaction.DatabaseWorker.PerformTransaction` | database/Database.h:474-527 | run and destruction in one: which requests are deleted, none of them twice, and the connection afterwards |
| `SqlTransaction.DatabaseWorker.Svc` | database/Database.cpp:198-207 | the worker's loop serves the whole queue in order |
| `Dbc.LastRowDecides` | common/dbc/DBC_Store.cpp:57-63 | the last record with an identifier decides its entry |
| `Dbc.OtherKeysKept` | common/dbc/DBC_Store.cpp:57-63 | identifiers without a record keep their entry |
| `Dbc.FileReadsBack` | common/dbc/DBC_File.cpp:36-58 | a file made of rows and strings is well formed, holds those rows at 20 + i * record size, and its strings begin where the reader looks |
| `Dbc.TextInBlock` | common/dbc/DBC_File.cpp:74-97 | a string reference means the same in the file as in the block of strings |
| `Dbc.TextEnds` | common/dbc/DBC_File.cpp:74-97 | a text ends at its first zero |
| `Dbc.LoadedFile` | common/dbc/DBC_Store.cpp:50-173 | loading such a file enters its rows, the last one winning, with the texts of its block |
| `Dbc.ItemColumns` | common/dbc/DBC_Store.cpp:57-63 | the columns of an item |
| `Dbc.SpellColumns` | common/dbc/DBC_Store.cpp:78-105 | the columns of an enchantment, and those a failing string leaves behind |
| `Dbc.RaceColumns` | common/dbc/DBC_Store.cpp:120-141 | the columns of a race |
| `Dbc.ClassColumns` | common/dbc/DBC_Store.cpp:156-168 | the columns of a class |
| `Dbc.DbcFile.constructor` | common/dbc/DBC_File.cpp:45-55 | the numbers of the header, in unsigned arithmetic |
| `Dbc.OpenDbc` | common/dbc/DBC_File.cpp:36-58 | a file with another magic number is refused |
| `Dbc.DbcFile.ReadUint32` | common/dbc/DBC_File.cpp:60-65 | four bytes, little-endian, and the cursor behind them |
| `Dbc.DbcFile.ReadString` | common/dbc/DBC_File.cpp:74-97 | the text up to its zero, with the cursor back behind the field; throws exactly without a block of strings |
| `Dbc.DbcFile.SkipField` | common/dbc/DBC_File.cpp:99-102 | one field further |
| `Dbc.DbcStore.LoadItemDbc` | common/dbc/DBC_Store.cpp:50-68 | the items are those of all records, the last one winning |
| `Dbc.DbcStore.LoadSpellItemEnchantmentsDbc` | common/dbc/DBC_Store.cpp:70-110 | the same for enchantments; without strings the first record leaves a half-filled entry |
| `Dbc.DbcStore.LoadChrRacesDbc` | common/dbc/DBC_Store.cpp:112-146 | the same for races, the sixteen names read past |
| `Dbc.DbcStore.LoadChrClassesDbc` | common/dbc/DBC_Store.cpp:148-173 | the same for classes |

## Left out

- Event reactors, sockets, threads, locks, CORBA: receive and send are an arbitrary number of bytes, methods under a lock are single steps, the event channel is one first-in first-out queue per proxy.
- OpenSSL: SHA1 and HMAC are arbitrary functions with 20-byte results, random numbers are inputs; the salt is taken to have its top bit set, as it is drawn.
- `proxyd/wlk/Proxy_Crypto.cpp`: RC4 inside OpenSSL; constant tables, logging, configuration and process control.
- Floating point: loads and populations are reals or opaque bytes; loads are never NaN. How the proxy computes its load is not part of this model.
- Big-endian hosts.
- SrpLogin.LogonSession.HandleLogonProof: counting and banning after wrong passwords is not modelled; what the uncleared buffer holds is an input; the answer packets and the change of state are part of `RealmSession.dfy`.
- SrpLogin.AccountRow.SetSv: the request that empties the two columns and the one that fills them are taken in the order they are queued; with several database threads that order is not certain.
- SrpLogin.ProxySession.AccountRetrieved: demands that a key text read after a matching verifier has 40 bytes or more, because the code reverses 40 bytes of a buffer of the number's own width; with fewer it leaves the buffer.
- RealmSession.RealmSocket.Answer: a session key answer without a row continues the connection; that the code then reads a column of the missing row is not modelled.
- OutputQueue.RealmOutput.HandleOutput: the copy that moves the remainder of a packet to the front overlaps itself and is taken to move the bytes; the same holds for ProxyOutput.ProxyOutputQueue.TryFront.
- RealmSession.RealmSocket.HandleAuthReconnectProof: the digest the proof is compared with is an input; the same holds for RealmSession.RealmSocket.HandleAuthLogonProof, whose digest is computed in `SrpLogin.dfy`. `LogonRuns.dfy` puts the computed digests into the runs.
- RealmSession.RealmSocket.AnswerAccount: of the row only what decides the answer is read; password hash, identifier and level are kept by the code for later use.
- RealmSession.RealmSocket.GetCharAmount: that the verifier is stored anew is counted, what is stored is not; after a reconnect no password hash was read, and unpacking the empty text leaves no number to work on.
- Registry.RealmService.ProcessProxyAnnounce: the conflicting entry's realm is read before the entry is erased, where the code reads it afterwards through an iterator that is no longer valid.
- ProxyInput.ProxyInputHandler.HandleInput: what happens after memory behind the buffer was overwritten or a deleted packet was used is not modelled; sizes are those of a 64-bit host.
- ProxyInput.RunFaithful: says nothing when a header is read in another mode than it was framed in, or a receive call at the start of a packet fails.
- PacketBuffer.Buffer.Write: demands that the cursor stays below the limit of the assertion in `append` after the write, where the code asks for it before each part; `put` at a position and moving the cursors from outside are not used by the modelled packets but for the two header fields.
- SqlConnection.OutcomeExactly: speaks of one connection and one worker; up to 32 workers share the queue (`database/Database.h`), and in what order operations on different connections take effect is up to the database and not modelled.
- SqlConnection.CallIsAtomic: holds where commit and rollback are real and a failing statement leaves the database alone, as with MySQL; the SQLite connection does nothing on either.
- SqlTransaction.SqlOperationRequest.Execute: whether the statement has a result makes no difference to the model; how results travel to observers is part of `RealmSession.dfy` only. A transaction that is destroyed without having run is not modelled: the worker always runs it.
- Dbc.DbcFile.ReadString: demands a zero behind the string, because the loop does not end without one. Files whose header does not match their length or the loader's number of fields, a missing file and a header with no fields are not modelled: reads past the end leave indeterminate values.
- Dbc.DbcStore.LoadChrRacesDbc: the name pointers point into strings that are gone by then, so no names are kept; the same holds for the classes.
- MersenneTwister.Generator.GenrandInt32: the branch for a generator that was never seeded is left out, because the constructor seeds; 64-bit `unsigned long`. Scaling to ranges and reals is left out: it keeps no state.
- Character creation and listing, realm split, ping and played-time packets: none keeps session state between packets; creation rests on name rules, object numbers and table contents that are not part of this model, and checks its limits apart from applying them.
