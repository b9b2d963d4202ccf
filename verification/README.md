# Verified models of the Go API's hard parts

This Dafny project models four parts of the service and proves what they are for. Each part has a
specification in functions on values, lemmas about every input or every run of it, and, where the Go
code changes state, classes and methods proved against that specification.

- **Passwords.** Blowfish with its key schedules (`Blowfish`, `KeySchedule`, `Ciphers`), bcrypt's base64
  (`Base64`), and the hash format, generation and comparison (`Bcrypt`, `BcryptOps`). The tables of
  digits of pi are arbitrary throughout. The algorithms are Schneier's Blowfish and Provos and Mazières,
  "A Future-Adaptable Password Scheme" (USENIX 1999); the base64 is section 4 of RFC 4648 with another
  alphabet and the padding stripped.
- **Events.** The outbox table (`Outbox`) under any number of relays (`Relays`), the wallet consumer
  (`Wallets`), one whole process from registration to wallet as a step system (`Delivery`, `Settling`),
  and the bus, the relay's loop and the workers as objects that refine it (`Processes`).
- **Rate limiting.** Token buckets with idle sweeping, each request as one step (`RateLimiting`), as
  objects (`RateLimiters`), and as the two critical sections it really is (`LimiterThreads`,
  `LimiterBound`).
- **Posts.** Creation under an Idempotency-Key by any number of requests with crashes and database
  failures between any two steps (`Idempotency`, `PostHandlers`, `Posts`), and the paginated listing
  (`Listing`) with its title search (`Likes`).

A run is a sequence of actions; an action that is not possible in the state it meets changes nothing, so
a lemma about every sequence is a lemma about every reachable state. Clocks, random bytes, ids drawn by
the database, the interleaving and the outcome of each database call are parameters.

What the models show the code does not do:

- The README of the service and `internal/models/post.go:47` call the title search a case-insensitive
  substring match. It is one exactly when the text has no `%`, `_` or `\`, because the text is put into
  an ILIKE pattern unescaped (`Likes.SearchIsSubstringIffPlain`).
- The statement of a failure mark has no guard on the status, so one that reaches the table late makes a
  published event pending again (`Relays.PublishedCanComeBack`, `Relays.TerminalChanges`). This takes a
  caller whose context is alive: the relay loop issues its own failure marks only once its context is
  done, and with that context. With the one relay a process starts it cannot happen at all
  (`Delivery.TerminalIsFinal`).
- An event's attempts have no bound, because reclaiming a stale event does not look at them
  (`Relays.AttemptsHaveNoBound`); they exceed ten exactly by such reclaims
  (`Relays.PastMaxIffReclaimed`).
- A process whose context is done delivers nothing until it is restarted (`Settling.StoppedWithWorkLeft`,
  `Settling.CanSettleIff`). An event can fail for good only by a failure mark that reaches the table,
  which the loop's own marks do not: after a restart the program always gets everything delivered
  (`Settling.NoEventFails`, `Settling.ProgramSettles`).
- A page number so large that its offset wraps around is answered with an error or with rows of an earlier
  page (`Listing.PageIsRightIff`, `Listing.HugePageIsTheFirst`).
- An Idempotency-Key whose first request crashes, meets a database failure, or is refused after the claim
  is never answered with a post; a title or content with U+0000 passes validation and is then refused by
  the database every time (`Idempotency.KeyIsUsableIffOwnerAlive`, `Idempotency.KeysGetLost`).
- A sweep that deletes a bucket between the two critical sections of a request lets its client exceed
  the rate (`LimiterThreads.SweepNoticedIffOrphans`), by at most the burst and the rate once more for
  each such sweep (`LimiterBound.OrphansBoundRate`).
- Base64 encoding and decoding undo each other exactly on lengths that are not a multiple of three
  (`Base64.TrimmedRoundTrip`); bcrypt uses only such lengths.

## Model

| member | source | states |
|---|---|---|
| Blowfish.BlockRoundTrip | internal/pkg/blowfish/block.go:115-159 | for every P-array and S-boxes, decryption undoes encryption and encryption undoes decryption |
| Blowfish.FeistelUndo | internal/pkg/blowfish/block.go:115-159 | a whitened Feistel network run with its subkeys reversed undoes itself, for any round function and any number of rounds |
| Blowfish.BytesRoundTrip | internal/pkg/blowfish/cipher.go:75-91 | on any 8 bytes, byte-level decryption and encryption undo each other in both orders |
| Blowfish.GetNextWord | internal/pkg/blowfish/block.go:9-21 | the word is the next four bytes of the cyclic key, big-endian, and the position moves on by four, wrapping around |
| Ciphers.WrittenOutIsFeistel | internal/pkg/blowfish/block.go:115-136 | the sixteen rounds written out line by line are the loop of Feistel rounds |
| Ciphers.EncryptionIs | internal/pkg/blowfish/block.go:115-136 | encryption in the source's own lines and operators: the half-words start with x[0] = l xor p[0] and x[1] = r xor z[0] xor p[1] and go on as x[i] = x[i-2] xor z[i-1] xor p[i] up to 16, where z[i] is ((s0 + s1) xor s2) + s3 of the entries that the bytes of x[i] select from the top byte on; the result is (x[15] xor p[17], x[16]) |
| Ciphers.KnownAnswer | internal/pkg/blowfish/block.go:115-136 | with zero subkeys, ones in the first two boxes, zeros in the third and i at place i of the fourth, the zero block becomes (4, 2) |
| Blowfish.RoundFunctionIs | internal/pkg/blowfish/block.go:119-134 | the round function spelled out: add, xor, add on the table entries at the four bytes, top byte first |
| Blowfish.EncryptBytesAre | internal/pkg/blowfish/cipher.go:75-81 | the eight bytes in and out are big-endian, spelled out |
| Blowfish.WordAtIs | internal/pkg/blowfish/block.go:9-21 | the cyclic word spelled out: four bytes at positions modulo the length, shifted by 24, 16, 8 and 0 |
| Ciphers.Cipher.F | internal/pkg/blowfish/block.go:119-134 | on the cipher's arrays: the round function of its S-boxes, which RoundFunctionIs spells out |
| Ciphers.Cipher.EncryptBlock | internal/pkg/blowfish/block.go:115-136 | on the cipher's arrays: returns the encryption of the two halves under the current tables, which EncryptionIs spells out |
| Ciphers.Cipher.DecryptBlock | internal/pkg/blowfish/block.go:138-159 | returns the decryption of the two halves under the current tables |
| Ciphers.Cipher.Encrypt | internal/pkg/blowfish/cipher.go:75-81 | writes the encryption of 8 source bytes into the destination and nothing else, also when both are the same buffer |
| Ciphers.Cipher.Decrypt | internal/pkg/blowfish/cipher.go:85-91 | the same for decryption |
| Ciphers.Cipher.constructor | internal/pkg/blowfish/cipher.go:93-99 | the cipher starts with its own copies of the initial tables |
| Ciphers.Cipher.ExpandKey | internal/pkg/blowfish/block.go:28-65 | the in-place loops with the inlined circular word read reach the specified schedule on any tables |
| Ciphers.Cipher.ExpandKeyWithSalt | internal/pkg/blowfish/block.go:71-113 | the in-place loops reach the salted schedule, the salt position running on through P and all S-boxes |
| KeySchedule.ExpandKeyIsZeroSalt | internal/pkg/blowfish/block.go:67-113 | for every key, every starting cipher and every non-empty all-zero salt, the salted schedule equals the plain one |
| KeySchedule.MixedAt | internal/pkg/blowfish/block.go:30-43 | every subkey is xored with its own word of the key stream |
| KeySchedule.KeyWordsAre | internal/pkg/blowfish/block.go:28-43 | the 18 key words are the words of the key's endless repetition one after the other, big-endian |
| KeySchedule.ScheduleIs | internal/pkg/blowfish/block.go:45-64 | the schedule pair by pair: each of the 521 pairs, in the order of P and the four boxes, is the encryption of the pair before it, the first of (0, 0), under the tables in which the pairs before it are already new |
| KeySchedule.SaltedScheduleIs | internal/pkg/blowfish/block.go:80-112 | the same with the next eight bytes of the cyclic salt xored into each pair before it is encrypted |
| KeySchedule.IterateAdds | internal/pkg/bcrypt/bcrypt.go:232-238 | running the rounds m + n times is running them m times and then n times |
| KeySchedule.IterateDoubles | internal/pkg/bcrypt/bcrypt.go:232-238 | one more unit of cost doubles the work: the rounds of cost c + 1 are those of cost c done twice |
| KeySchedule.SetupSameStream | internal/pkg/bcrypt/bcrypt.go:217-241 | keys whose cyclic repetitions agree on 72 bytes give the same cipher at every cost and salt |
| BcryptOps.ExpensiveBlowfishSetup | internal/pkg/bcrypt/bcrypt.go:217-241 | nothing if the salt does not decode, otherwise a cipher in the state of the salted schedule followed by 2^cost rounds of key and salt |
| BcryptOps.SetupIs | internal/pkg/bcrypt/bcrypt.go:224-241 | the setup is the salted schedule of the zero-terminated key followed by 2^cost rounds |
| BcryptOps.EksRoundIs | internal/pkg/bcrypt/bcrypt.go:235-238 | a round is the schedule of the key and then that of the salt |
| Powers.Pow2Is | internal/pkg/bcrypt/bcrypt.go:234 | the rounds double with each unit of cost: 16 at 4, 1024 at 10, 2147483648 at 31 |
| Base64.DecodeEncode | internal/pkg/bcrypt/base64.go:9-35 | decoding an RFC 4648 encoding, padding included, gives back any bytes |
| Base64.AlphabetIs | internal/pkg/bcrypt/base64.go:9-11 | the letters of the values 0 to 63 are `./`, `A` to `Z`, `a` to `z` and `0` to `9` |
| Base64.PiecesAre | internal/pkg/bcrypt/base64.go:13-16 | the values encoded are the four six-bit digits of three bytes taken as one number |
| Base64.EncodeIs | internal/pkg/bcrypt/base64.go:13-16 | a rest of one or two bytes is filled up with zero bits and two or one pads |
| Base64.DecodeIs | internal/pkg/bcrypt/base64.go:29-34 | what decoding makes of four letters, of the last ones with pads, and what it refuses |
| Base64.TrimmedEncoding | internal/pkg/bcrypt/base64.go:13-21 | the stripped encoding of n bytes has ceil(4n/3) letters, and only padding was stripped |
| Base64.TrimmedRoundTrip | internal/pkg/bcrypt/base64.go:13-35 | for every non-empty byte string, decoding undoes encoding if and only if the length is not a multiple of three |
| Base64.Base64Encode | internal/pkg/bcrypt/base64.go:13-21 | the stripping loop keeps exactly the letters before the padding |
| Base64.Base64Decode | internal/pkg/bcrypt/base64.go:23-35 | the padding loop appends 4 - n mod 4 signs and then decodes, skipping CR and LF as the decoder does |
| Base64.NothingToSkip | internal/pkg/bcrypt/base64.go:13-35 | a stripped encoding, with any pads put back, has nothing the decoder would skip |
| Bcrypt.PrintParse | internal/pkg/bcrypt/bcrypt.go:168-194 | for every record whatever, parsing its printed form returns it if and only if major is at most '2', minor is not '$', the cost is 4 to 31, the salt has 22 bytes and the hash 31 |
| Bcrypt.ParsedIs | internal/pkg/bcrypt/bcrypt.go:168-194 | for every text: what parsing refuses, with which error and in which order, and otherwise which bytes become which field |
| Bcrypt.AtoiPairIs | internal/pkg/bcrypt/bcrypt.go:282-286 | two bytes are a number if they are two digits, or a sign and a digit |
| Bcrypt.PrintedText | internal/pkg/bcrypt/bcrypt.go:243-263 | the 60 bytes spelled out: `$`, the versions, `$`, two digits of cost, `$`, salt and hash |
| Bcrypt.Overwrite | internal/pkg/bcrypt/bcrypt.go:254-261 | what a copy into the middle of a buffer leaves at each position |
| BcryptOps.Hashed.Hash | internal/pkg/bcrypt/bcrypt.go:243-263 | the buffer filled step by step is the printed form, in the 59-byte and the 60-byte layout |
| BcryptOps.Hashed.DecodeVersion | internal/pkg/bcrypt/bcrypt.go:265-279 | which prefixes and versions are refused with which error, what is stored, and how many bytes are used |
| BcryptOps.Hashed.DecodeCost | internal/pkg/bcrypt/bcrypt.go:282-293 | the two-character Atoi, sign included, and the range check; the record changes only on success |
| BcryptOps.Hashed.FillFromHash | internal/pkg/bcrypt/bcrypt.go:168-194 | filling the record field by field parses the text, with the same errors in the same order |
| Bcrypt.HashLength | internal/pkg/bcrypt/bcrypt.go:196-215 | the encoded hash always has 31 bytes |
| Bcrypt.SaltLength | internal/pkg/bcrypt/bcrypt.go:217-222 | a 22-byte salt that decodes gives 1 to 16 bytes, and 16 exactly when it has no CR or LF in it |
| BcryptOps.EncryptInPlace | internal/pkg/bcrypt/bcrypt.go:205-209 | 64 encryptions of one 8-byte window of the buffer in place, the rest untouched |
| BcryptOps.HashPassword | internal/pkg/bcrypt/bcrypt.go:196-215 | the three windows of the magic text, 64 times each, first 23 bytes, in base64 |
| Bcrypt.GeneratedRecord | internal/pkg/bcrypt/bcrypt.go:95-166 | generation succeeds exactly for passwords of at most 72 bytes, costs of at most 31 and a random source that works, and its text parses to a record whose salt decodes to the random bytes and whose hash is the password's under it |
| Bcrypt.GeneratedCost | internal/pkg/bcrypt/bcrypt.go:139-166 | a cost of 4 to 31 is taken as given and one below 4 as 10: it is the cost of the setup behind the stored hash, the one in the text `$2a$cc$` and the one `Cost` reports; a cost above 31 is refused |
| Bcrypt.HashOfIs | internal/pkg/bcrypt/bcrypt.go:196-215 | the hash is that of the cipher set up at the given cost with the decoded salt and the zero-terminated password |
| Bcrypt.EncodedIs | internal/pkg/bcrypt/bcrypt.go:197-214 | the blocks OrpheanB, eholderS and cryDoubt, by their bytes, are encrypted 64 times each, and 23 of the 24 bytes go into base64 |
| Bcrypt.CompareGenerated | internal/pkg/bcrypt/bcrypt.go:95-137 | a generated hash reports its cost, accepts its own password, and accepts another exactly when it hashes alike under that salt |
| Bcrypt.CompareSameStream | internal/pkg/bcrypt/bcrypt.go:108-125 | passwords that fill the key stream alike are indistinguishable to every comparison, whatever the stored text |
| Bcrypt.OnlyFirst72Bytes | internal/utils/password.go:22-25 | passwords that share their first 72 bytes are indistinguishable to every comparison |
| BcryptOps.GenerateFromPassword | internal/pkg/bcrypt/bcrypt.go:95-166 | the operation on objects computes the specified result; a long password, a bad cost and a failing random source are reported in this order |
| BcryptOps.CompareHashAndPassword | internal/pkg/bcrypt/bcrypt.go:108-125 | the comparison of the two printed records gives the specified result for every text |
| BcryptOps.Cost | internal/pkg/bcrypt/bcrypt.go:131-137 | the cost of any parseable text, and the parse error of any other |
| Outbox.SelectOldest | internal/repository/outbox_repository.go:82-94 | there is always a selection of at most n distinct eligible unlocked rows in created_at order that passes over none for a younger one |
| Outbox.WithClaimsAt | internal/repository/outbox_repository.go:134-154 | the updates of a batch touch each claimed row once and no other |
| Outbox.EligibleIs | internal/repository/outbox_repository.go:82-91 | a row may be claimed if and only if it is pending and due, or processing and locked more than 300 000 000 microseconds ago |
| Outbox.FailedRowIs | internal/repository/outbox_repository.go:190-209 | a failure mark makes a row failed from ten attempts on, and before that pending again, due after 2^attempts seconds up to eight attempts and after 300 at nine; everything else it leaves |
| Outbox.OutboxRepository.Create | internal/repository/outbox_repository.go:22-53 | every other event stays as it was; the new one is pending with no attempts, unlocked, and can be claimed exactly from now on |
| Outbox.OutboxRepository.ClaimBatch | internal/repository/outbox_repository.go:55-161 | takes only pending rows that are due and rows locked more than five minutes ago, returns them as they were and marks exactly those, field by field; without a commit nothing changes |
| Outbox.OutboxRepository.MarkPublished | internal/repository/outbox_repository.go:163-183 | only that row changes, to published at the given time and unlocked |
| Outbox.OutboxRepository.MarkFailed | internal/repository/outbox_repository.go:185-223 | only that row changes: failed from ten attempts on, otherwise pending with its back-off, whatever it was before |
| Relays.EveryRun | internal/repository/outbox_repository.go:134-210 | in every run of any number of relays: attempts counts the claims, locked_at is set exactly while processing, pending means fewer than ten claims and failed at least ten, and successive claims are separated by a mark or by more than five minutes |
| Relays.EveryRunInNumbers | internal/repository/outbox_repository.go:82-91 | in every run and in microseconds: a processing event can be claimed exactly from more than 300 000 000 after its lock on, a pending one exactly when due, others never; pending means fewer than ten attempts and failed at least ten; and two claims with no mark between are more than 300 000 000 apart |
| Relays.AlwaysClaimable | internal/repository/outbox_repository.go:82-91 | in every reachable state an unfinished event can be claimed from 300 s after its last update, and a selection that misses it is full of older ones |
| Relays.BackoffIsExact | internal/repository/outbox_repository.go:193-205 | after a failure mark the event is eligible exactly from 2^attempts seconds on up to eight attempts, from 300 s on at nine, and never from ten on |
| Relays.AttemptsHaveNoBound | internal/repository/outbox_repository.go:88-91 | for every n there is a run after which an event has had n attempts |
| Relays.PastMaxIffReclaimed | internal/repository/outbox_repository.go:88-91 | in every run an event has had more than ten attempts if and only if it was reclaimed while processing with ten attempts or more |
| Relays.PublishedCanComeBack | internal/repository/outbox_repository.go:185-210 | a run of the table after which a failure mark that reaches it makes a published event pending, since the statement does not look at the status |
| Relays.TerminalChanges | internal/repository/outbox_repository.go:163-210 | in every run, a terminal event changes status exactly by a failure mark on a published one or a publication mark on a failed one |
| Wallets.WalletRepository.Create | internal/repository/wallet_repository.go:73-125 | inserts or falls back to the row in the way; fails exactly when the database does, before or after the effect, and for unknown customers without a wallet |
| Wallets.WalletRepository.CreateForCustomer | internal/service/wallet_service.go:24-45 | refuses the empty customer without touching the table and otherwise creates the NGN wallet, passing on database errors |
| Wallets.WalletRepository.Handle | internal/consumer/wallet_consumer.go:25-59 | succeeds exactly when its database call does and the customer named has a wallet afterwards; a failed call may have had its effect |
| Wallets.DeliverAllIs | internal/consumer/wallet_consumer.go:25-59 | any run of deliveries leaves every wallet as it was and adds one empty wallet for each known customer named who had none |
| Wallets.OnlyTheSetMatters | internal/migrations/files/007_create_wallets.up.sql:20-21 | two runs reach the same wallets if and only if they name the same customers among those without one |
| Wallets.SameWalletForever | internal/repository/wallet_repository.go:112-119 | once a customer has a wallet, every later delivery returns that very wallet |
| Wallets.LookupAfterRun | internal/repository/wallet_repository.go:27-71 | after any run of deliveries a lookup finds a wallet for exactly the known customers named, in NGN only, and it is that customer's, empty and active |
| Delivery.EveryRun | internal/service/outbox_service.go:44-87 | in every run of a process with crashes, lost marks and handler errors: one event per user, what the relay holds is processing and distinct, the queue is bounded, and every published event's message is queued, in hand, handled or noted as lost |
| Delivery.EveryRunInNumbers | internal/router/router.go:44-61 | the queue never holds more than 1000 messages and no more than four workers have one |
| Delivery.EndToEnd | internal/service/outbox_service.go:44-87 | nobody unregistered gets a wallet; once all is published and the bus is idle, a user without a wallet is one whose event a crash or failing handler dropped; without those there is exactly one NGN wallet per user |
| Delivery.CleanLosesNothing | internal/events/bus.go:85-120 | without crashes and handler errors no message is ever dropped |
| Delivery.TerminalIsFinal | internal/router/router.go:60-61 | with the one relay a process starts, no step of any run touches a published or failed event |
| Delivery.RunRefines | internal/service/outbox_service.go:44-87 | every run of the process is, on the outbox table, a run of the relay system |
| Delivery.NeverStuck | internal/repository/outbox_repository.go:82-91 | nothing a process goes through keeps an unfinished event unclaimable for more than five minutes |
| Settling.CanSettleIff | internal/service/outbox_service.go:27-87 | after any run, also one with failure marks that reach the table, the process going on with every step taken while its context is alive and in the order of time can get every event published and handled if and only if that is already so, or the context is alive and no event has failed for good |
| Settling.CanSettleAfterRestartIff | internal/service/outbox_service.go:27-87 | after any run, also one with failure marks that reach the table, and a restart, it can if and only if no event has failed for good |
| Settling.NoEventFails | internal/service/outbox_service.go:66-74 | in every run in which the failure marks do not reach the table, as the relay sends them with a context that is done, no event ever fails |
| Settling.ProgramSettles | internal/service/outbox_service.go:27-87 | after every such run and a restart, however the program goes on it takes at most as many steps as there is work, and it has a next step exactly until every event is published and handled |
| Settling.EveryWayDrains | internal/service/outbox_service.go:27-87 | with the context alive, every way of going on is bounded by the work there is and can be extended, by claims late enough, exactly until every event is published or failed and the bus is empty |
| Settling.StoppedWithWorkLeft | internal/service/outbox_service.go:34-36 | a registration and the end of the context lead to a state with work left |
| Settling.CanHaveWalletIff | internal/events/bus.go:85-120 | after any run, a registered customer can still come to have a wallet, by steps taken while the context is alive and by restarts, if and only if there is one, or the event is neither published nor failed, or the context is alive and the message is on the queue or with a worker |
| Settling.StaysHopeless | internal/events/bus.go:97-120 | a customer without a wallet whose event is finished and whose message is gone never gets one, whatever happens |
| Processes.Bus.constructor | internal/events/bus.go:24-33 | an empty queue of the given size, or 1000 for sizes below one |
| Processes.Bus.Publish | internal/events/bus.go:48-59 | sends only into room, refuses only when the context is done, and waits exactly when neither holds |
| Processes.Bus.Receive | internal/events/bus.go:91-92 | takes the oldest message |
| Processes.Bus.Subscribe | internal/events/bus.go:35-46 | the handler comes after those already subscribed to the type, and other types keep theirs |
| Processes.Process.CreateWithOutbox | internal/repository/user_repository.go:32-132 | user and event are added together or not at all |
| Processes.Process.Dispatch | internal/events/bus.go:97-120 | every handler subscribed to the message's type is called, and the message is dropped whatever they say, as a step of the system |
| Processes.Process.PublishItem | internal/service/outbox_service.go:57-86 | one item is queued and marked, or refused and marked, or waits at a full queue, as steps of the system |
| Processes.Process.PublishItems | internal/service/outbox_service.go:57-86 | the loop deals with the items in order, each once, whatever the rest of the process does; only a full queue holds it up |
| Processes.Process.PublishBatch | internal/service/outbox_service.go:44-87 | one tick is a run of the system: a claim, reported, unreported or not committed, and then the items of the batch |
| RateLimiting.SweepingIsInvisible | internal/middleware/middleware.go:355-393 | for every rate and every timed run, the sweeping limiter answers every request as one that never deletes a bucket |
| RateLimiting.IdleBucketIsFull | internal/middleware/middleware.go:300-325 | for every rate, a bucket idle for more than ten minutes and a new one answer the next request alike, and from a rate of one on are left in the same state |
| RateLimiting.AdmitsExactly | internal/middleware/middleware.go:300-317 | a request is admitted if and only if no window ending with it then exceeds the burst plus the rate times its length |
| RateLimiting.RateBound | internal/middleware/middleware.go:300-317 | in every window of every run a client is admitted at most burst + rate times length, and never for rates below one |
| RateLimiting.ClientsDoNotInterfere | internal/middleware/middleware.go:372-393 | a client's answers depend on that client's own requests alone |
| RateLimiters.TokenBucket.Allow | internal/middleware/middleware.go:300-317 | refills, caps and spends in place as specified |
| RateLimiters.RateLimiter.constructor | internal/middleware/middleware.go:344-353 | burst and refill rate are both the given rate, and there are no buckets |
| RateLimiters.RateLimiter.Lookup | internal/middleware/middleware.go:376-382 | finds the client's bucket or inserts a new full one, leaving the others |
| RateLimiters.RateLimiter.Handle | internal/middleware/middleware.go:373-392 | the answer and the new buckets of one request are the specified ones; other clients' bucket objects are untouched |
| RateLimiters.RateLimiter.Sweep | internal/middleware/middleware.go:361-367 | deletes exactly the buckets idle at the tick |
| LimiterThreads.AsIfAtomic | internal/middleware/middleware.go:372-393 | with both critical sections interleaved freely, while no sweep deletes a held bucket the answers are those of single-step requests, in the order they spend, without sweeps |
| LimiterThreads.SweepNoticedIffOrphans | internal/middleware/middleware.go:357-393 | for every rate of at least one and every run so far without orphans, a sweep can be told from none by some later requests if and only if it deletes a bucket a request holds |
| LimiterThreads.SweptAdmitsTooMany | internal/middleware/middleware.go:357-393 | after an orphaning sweep one client gets one request more than the burst at one moment |
| LimiterThreads.OrphanCanHappen | internal/middleware/middleware.go:357-384 | a first request that takes more than ten minutes between its sections is orphaned by a sweep |
| LimiterBound.OrphansBoundRate | internal/middleware/middleware.go:357-393 | for every rate and every interleaving of the two sections and of sweeps, a client is admitted in every window at most (1 + m) times the burst plus the rate times its length, m being the sweeps that deleted its bucket while a request held it; and never for rates below one |
| Idempotency.EveryRun | internal/handlers/post_handler.go:106-263 | in every run only the owner of a key creates and completes, rows are processing without or completed with the response, and 201s carry the stored post |
| Idempotency.AtMostOnePost | internal/handlers/post_handler.go:106-219 | at most one post per key, user and endpoint over every interleaving with crashes and database failures, made from the draft of the request that took the key |
| Idempotency.RepliesAgree | internal/handlers/post_handler.go:170-192 | every answer that carries a post has status 201, belongs to a request with the stored hash, and carries the one post made for the key |
| Idempotency.TwoRepliesAgree | internal/handlers/post_handler.go:182-263 | any two such answers for one key carry the same JSON value |
| Idempotency.LoserIsAnswered | internal/handlers/post_handler.go:131-201 | a request that finds its key taken gets 422 if and only if the hash differs, 409 if and only if it agrees and the row is processing, the post if and only if it agrees and the row is completed, and never the 500 of a missing or invalid record |
| Idempotency.LoserFindsRow | internal/repository/idempotency_repository.go:65-118 | in every run, a request that lost the claim finds a row when it reads, that of another request and with that request's hash, so the answers for a missing row are never given |
| Idempotency.RefusedForItsBody | internal/handlers/post_handler.go:149-157 | with any hash function: 422 if and only if the body hashes differently from the owner's |
| Idempotency.RecordsOnlyComplete | internal/repository/idempotency_repository.go:120-155 | no step removes a row or changes its hash, and a row changes only once, from processing to completed with the created post |
| Idempotency.LostForever | internal/handlers/post_handler.go:212-215 | a key whose owner is gone stays processing in every continuation |
| Idempotency.AliveCanFinish | internal/handlers/post_handler.go:207-263 | a key whose owner is alive with a valid draft that the database can store can be completed in at most two more steps |
| Idempotency.KeyIsUsableIffOwnerAlive | internal/handlers/post_handler.go:207-263 | a taken key can still come to be answered with a post if and only if it is completed or its owner is alive with a draft that is valid and has no U+0000 |
| Idempotency.KeysGetLost | internal/service/post_service.go:24-52 | two runs that lose a key: a crash after the claim, and a title with U+0000, which validation accepts and the database refuses |
| PostHandlers.IdempotencyRepository.Create | internal/repository/idempotency_repository.go:24-63 | inserts or loses; says so exactly when the call works and the database can store the key; may fail after its effect |
| PostHandlers.IdempotencyRepository.Complete | internal/repository/idempotency_repository.go:120-155 | an existing row gets the response and keeps its hash; a missing one is no error |
| PostHandlers.PostService.Create | internal/service/post_service.go:24-53 | refuses exactly a title that is all white space or, trimmed, has more than 300 bytes, and a status other than none, draft, published and archived; otherwise stores one post with the trimmed title and the status given, draft if none, unless the database fails or the text has a U+0000 |
| Posts.ValidatedIs | internal/service/post_service.go:25-39 | which drafts are valid and what they become, with the texts and numbers written out |
| Posts.TrimIs | internal/service/post_service.go:25-31 | trimming takes away all white space at both ends and nothing else |
| Posts.WhiteSpaceIs | internal/service/post_service.go:25 | the characters trimmed, by code point |
| Posts.ByteLengthsAre | internal/service/post_service.go:29 | lengths are those of UTF-8: one to four bytes for a character |
| PostHandlers.PostHandler.Claim | internal/handlers/post_handler.go:110-131 | the claim with other requests at work before it is a run of the protocol and decides what comes next |
| PostHandlers.PostHandler.Replay | internal/handlers/post_handler.go:131-201 | the branches for a taken key give the answer of the protocol's step |
| PostHandlers.PostHandler.MakePost | internal/handlers/post_handler.go:207-215 | the creation, its refusal and its failure are the protocol's step |
| PostHandlers.PostHandler.Save | internal/handlers/post_handler.go:232-263 | storing the response and answering are the protocol's step |
| PostHandlers.PostHandler.Create | internal/handlers/post_handler.go:39-264 | the handler as written, with any other requests between its database calls, is a run of the protocol that gives it that answer; a refused request leaves no trace, and which requests are refused with 401, 400 and 413 is spelled out |
| Likes.SearchIsSubstringIffPlain | internal/repository/post_repository.go:89-93 | for every way of folding letters, the search finds exactly the titles containing the text, ignoring case, for every title, if and only if the text has no `%`, `_` or backslash |
| Likes.StoredSearchIsSubstringIffPlain | internal/repository/post_repository.go:89-93 | the same over the titles the service can store, for every text the database can read that is at most 298 bytes long |
| Likes.NeverMalformed | internal/repository/post_repository.go:91 | no search text makes a pattern that the database rejects for a dangling escape |
| Likes.PlainIsSubstring | internal/repository/post_repository.go:89-93 | for plain text the pattern matches exactly the texts that contain it |
| Likes.PercentFindsEverything | internal/repository/post_repository.go:91 | searching for a percent sign finds every title, also one the service stores that has none |
| Listing.ListingIsUnique | internal/repository/post_repository.go:123-129 | the column and then the id order a set of posts in one way only |
| Listing.OrderIs | internal/repository/post_repository.go:107-129 | which of two posts comes first, for each field and direction, in plain comparisons |
| Listing.IdLessIs | internal/repository/post_repository.go:127 | ids are compared as text: the first difference decides, and a prefix comes first |
| Listing.IsAscIs | internal/repository/post_repository.go:111-114 | ascending is asc in any case, and nothing else |
| Listing.OrderBy | internal/repository/post_repository.go:127 | the posts, each once, in that order |
| Listing.PostRepository.BuildWhere | internal/repository/post_repository.go:73-98 | the n-th placeholder is $n and names the n-th argument, and the conditions together are the filter asked for |
| Listing.SameWhere | internal/repository/post_repository.go:100-129 | the count query and the list query select the same posts, although the second has more arguments |
| Listing.MatchingIs | internal/repository/post_repository.go:79-93 | the matching posts, filter by filter |
| Listing.PostRepository.List | internal/repository/post_repository.go:72-150 | the rows match the filter and come in the order asked for, field by field and direction by direction, by created_at downwards unless asked otherwise and by id upwards on equal values; they are that slice of the listing at the offset wrapped to 64 bits, the total is the number of matching posts, and it fails exactly on a user id that is no UUID, on a U+0000 in a filter, and on a negative limit or offset |
| Listing.PagesPartition | internal/service/post_service.go:152-161 | for a fixed table, filter and order, pages 1 to total_pages together list each matching post exactly once, in order |
| Listing.PlaceOfPost | internal/utils/pagination.go:36-51 | the i-th post is on page i / size + 1, which is among the total |
| Listing.NothingAfterLastPage | internal/utils/pagination.go:36-51 | pages after the last are empty |
| Listing.TotalPagesIsLeast | internal/service/post_service.go:152-161 | the total is the least number of pages, at least one, that holds everything |
| Listing.ParsePage | internal/utils/pagination.go:15-21 | a valid number is kept, and everything else is page one |
| Listing.ParsePageSize | internal/utils/pagination.go:24-33 | a size of 1 to 100 is kept, larger ones become 100 and everything else 20 |
| Listing.ParseSort | internal/utils/pagination.go:58-77 | the field is from the allow-list or the default, the direction asc only if asked for |
| Listing.ListService.List | internal/service/post_service.go:67-85 | refuses exactly the unknown statuses, passes on exactly the database's refusals, and reports total and pages of the same filter |
| Listing.ListService.Handle | internal/handlers/post_handler.go:299-322 | exactly an unknown status, a user id that is no UUID, a U+0000 in it or in the search text, and a page whose offset wraps around to a negative number are refused; otherwise the answer is that page of the matching posts if and only if the offset does not wrap around or wraps around to behind the last row |
| Listing.PageIsRightIff | internal/repository/post_repository.go:116-118 | the rows at the wrapped offset are those of the page if and only if the offset does not wrap around or wraps around to behind the last row |
| Listing.HugePageIsTheFirst | internal/repository/post_repository.go:116-118 | with 64 posts a page, page 2^58 + 1 shows the first page again |

## Left out

- Base64.Base64Encode: not defined on the empty string, where the Go code indexes before the buffer.
- Ciphers.Cipher.EncryptBlock: runs eight turns of two rounds where the source has sixteen lines; Ciphers.WrittenOutIsFeistel is about the sixteen lines.
- Processes.Process.Dispatch: the handlers are those the router subscribes, the wallet consumer for the one type of event there is; further handlers of other types are not modelled.
- Delivery.EndToEnd: messages lost to a crash are named, not recovered, since the queue is in memory and events are marked when queued.
- Delivery.EveryRun: steps stay possible after the context is done, and a mark sent on an expired context may take effect or not; both only add runs the invariants have to hold in.
- RateLimiting.SweepingIsInvisible: a request is one step here; LimiterThreads has the two critical sections.
- Idempotency.KeyIsUsableIffOwnerAlive: rows deleted together with their user are not modelled.
- Likes.SearchIsSubstringIffPlain: letters are folded one by one, each to one character or more; foldings that look at neighbouring letters are not modelled.
- Listing.PostRepository.List: the collation of titles is an arbitrary ranking, and how a text reads as a UUID is an arbitrary function.
- Listing.PagesPartition: the table is fixed; the count and the list are separate queries and other writers between them are not modelled.
- `NewSaltedCipher` with an empty salt and the key-size errors: bcrypt always has a 16-byte salt and a non-empty key.
- The values of the pi tables, and constant-time comparison.
- The ticker loop of the relay, which calls the batch again and again; and starting and stopping of goroutines.
- Floating-point rounding in the bucket.
- SHA-256, JSON encoding and UUIDs: hashes are given with the request, a stored JSON value is the post itself.
- Update, delete and single reads of posts, authentication, refresh tokens, roles, e-mail, uploads, body dumps, HTTP plumbing, configuration and migrations.
