# Kiroshi, modelled in Dafny

Kiroshi's devices talk through a relay that is not trusted. This project models the
code of the repository that fixes how they do so, and proves what that code is for:

- **Sealed frames** (`scripts/generate-v2-vectors.ts`): ChaCha20-Poly1305 as written
  there, with JavaScript's signed 32-bit arithmetic, the key and counter set-up, the
  stream and authenticator loops, the header encoding, the nonce, the sealed box and
  the word fingerprint. `Bits`, `Numerals`, `ChaCha`, `Poly`, `Aead`, `Frames` and
  `Fingerprint`. `RelayCrypto` is the app's side (`RelayCrypto.swift`): which headers
  exist, and how frames and boxes are opened. `Rfc8439` is the standard by itself, and
  `Layout` frames and boxes byte by byte: both sides are proved to be these.
- **A relay session**: the host (`VectorHost.swift`) and the phone's calls
  (`RelayConnection.swift`), and both composed: in lock-step, and with frames on the way
  in both directions. `VectorHost`, `RelayConnection`, `Waiting`, `Transit`, `AtMostOnce`.
- **The device registry** (`FakeRelayDevices.swift`), by the text its keys come in and
  by the bytes they stand for (`Base64URL.swift`). `RelayDevices`, `DeviceKeys`,
  `DeviceReplies`, `Base64Url`, `StandardBase64`.
- **Sign-in navigation** (`router.tsx`, `authorize-state.ts`): guards and loaders that
  change the stored bearer and a session marker and leave by redirects, for arbitrary
  answers of the relay. `SignIn`.
- **The baseline ratchet** (`scripts/baseline.ts`): duplicate numbering, ownership by
  suite, and check, update and prune over text files, in UTF-16 code units. `Text`,
  `Ordinals`, `Baseline`, `Verdicts`, `Collect`, `Reports`, `ChangedScope`.
- **The search codec** (`join-search.ts`, `join-state.ts`): query strings printed and
  read back, and invitation links. `SearchCodec`.

Each actor, tab and folder is a class over its fields, proved equal to a step function;
theorems over whole runs are about that function. A run is described by a log of what
was done; an invariant says which entry may follow which log, and what the fields are
after it. What an operation does is stated a second time without its step function, case
by case or from the standard behind it, and proved of it: `Rfc8439`, `Layout`, `Waiting`,
`DeviceReplies`, `Verdicts`, `Reports`, and the lemmas of `VectorHost`, `SignIn` and
`SearchCodec` about every frame, location and query.

`Common` holds the shared value types and powers. External primitives (signatures, key
agreement, HKDF, SHA-256), standard base64 and UTF-8 are functions given to the model;
what is used of them is a precondition of the lemma that uses it. Random nonces, the
relay's answers and the tools' reports are parameters.

## Findings

- `DiagnosticIsRecordable`, `DiagnosticsThatNeverPass`: a biome diagnostic without a
  source line, or whose collapsed line is blank or cut right behind a space or inside a
  surrogate pair, has an item that reading the baseline changes. It fails `check` also
  directly after `baseline:update`. The exact condition is `RecordsWhatWasFound`.
- `TestFileIsRecordable`: so does a failed test whose name is empty, ends in white
  space, holds a line break or an unpaired surrogate. The line behind such a break
  belongs to no suite, unless it reads like an item itself: a first prune then does not
  settle (`PruneSettlesExactly`, `BrokenNameStaysBehind`), a second one does
  (`TwoPrunesSettle`).
- `OneKeyTwoHolders`: the registry files devices under the text of a key. One key has
  two texts where a URL-safe character stands, and two accounts can hold it under them;
  the second is told that nothing was transferred. When that cannot be:
  `OneDeviceExactly`, `OneHolderExactly`, `LastDecidesExactly`; it never is when every
  text is the canonical one (`CanonicalTextsDecide`).
- `LongerReusesTheKeyBlock`: block counters are 32 bits wide, so byte 2^38 - 64 of a
  longer plaintext is joined with the block the one-time key was cut from. Up to that
  length all blocks differ (`BlocksAreFresh`).
- `CallRunsOnTime`, `NeverRunsAtTheLimit`: headers exist below counter 2^53. A host at
  that limit raises its counter and takes a draw, but sends no hello, and a call that
  needed one never runs.
- `PipelinedCalls`: the phone sends on without waiting for replies and resends a refused
  call once. So every call that one hello tells of is sure to run, over every schedule of
  sends, arrivals and hearings, exactly when at most one restart of the host is pending;
  with more, `OvertakingRefuses` is a schedule that gives up the first call before
  anything runs. In lock-step, each frame replied to before the next leaves, n calls
  outlast n restarts (`CallsToldByOneHello`).
- `NoCallRunsTwice`: what the phone says is true all the same, whatever is overtaken and
  however often the host restarts: an answered call ran once, a refused one never ran.
- `PruneOfChangedBreaksVitest`: a prune by the tests that changed drops the recorded
  failures of unit tests that did not run, which is why the script refuses it.
- `WidthsAreNeeded`: the header encoding is unambiguous for 16-byte ids and a 32-byte
  challenge, which the types of the generator do not demand; its optional fields carry
  no length.
- `NonceLengthIsNeeded`: the message a device signs at registration has no separators.
  It is unambiguous for 32-byte nonces, which live nonces always are.

## Model

| member | source | states |
|---|---|---|
| Bits.JsSumIsPlus | scripts/generate-v2-vectors.ts:74 | a sum of two words masked with JavaScript's signed `&` and stored in a Uint32Array is their sum modulo 2^32 |
| Bits.JsRotateIsRotl | scripts/generate-v2-vectors.ts:64-65 | `rotateLeft` of a signed exclusive or, stored in a Uint32Array, is the rotation of the words' exclusive or |
| Bits.RotateLeftIsRotation | scripts/generate-v2-vectors.ts:64-65 | shifting left, shifting right without sign and joining is rotation of a 32-bit word |
| Bits.RotlBit | scripts/generate-v2-vectors.ts:64-65 | bit k of the rotated word is the bit as many places below it, around the word |
| Bits.XorBit | scripts/generate-v2-vectors.ts:75 | each bit of `^` on natural numbers is the exclusive or of the operands' bits |
| Bits.AndBit | scripts/generate-v2-vectors.ts:128 | each bit of `&` is the conjunction of the operands' bits |
| Bits.OrBit | scripts/generate-v2-vectors.ts:65 | each bit of the joining operator is the disjunction of the operands' bits |
| ChaCha.QuarterRound | scripts/generate-v2-vectors.ts:67-82 | the four words become the sums, exclusive ors and rotations by 16, 12, 8 and 7 of section 2.1 of RFC 8439, for any four distinct places; the other twelve words stay |
| ChaCha.QuarterRoundInverts | scripts/generate-v2-vectors.ts:67-82 | a quarter round has an inverse on both sides and leaves the twelve other words alone |
| ChaCha.DoubleRound | scripts/generate-v2-vectors.ts:93-102 | the loop body applies the four column and the four diagonal quarter rounds, in that order |
| ChaCha.TenDoubleRounds | scripts/generate-v2-vectors.ts:93-102 | the loop applies the permutation of ten double rounds |
| ChaCha.PermuteIsBijective | scripts/generate-v2-vectors.ts:92-102 | the ten double rounds are a bijection on sixteen-word states |
| ChaCha.InitialState | scripts/generate-v2-vectors.ts:85-91 | constants, key, counter and nonce at their words of the state, the counter reduced modulo 2^32 by the array |
| ChaCha.Serialize | scripts/generate-v2-vectors.ts:103-106 | the block is the sum of the permuted and the initial words, each little-endian |
| ChaCha.ChaChaBlock | scripts/generate-v2-vectors.ts:84-107 | the block function of section 2.3 of RFC 8439, for every counter |
| ChaCha.ChaCha20 | scripts/generate-v2-vectors.ts:109-122 | byte i of the output is byte i of the input joined with byte i mod 64 of block firstCounter + i/64, for any length, a short last block included |
| ChaCha.StreamTwice | scripts/generate-v2-vectors.ts:109-122 | applying the stream twice restores the input, whatever its length |
| Rfc8439.BlockIsTheRfcs | scripts/generate-v2-vectors.ts:84-107 | for every key, counter and nonce the block is that of section 2.3: the constants, ten column and diagonal rounds over the eight quads, the sums as little-endian bytes |
| Rfc8439.StreamIsTheRfcs | scripts/generate-v2-vectors.ts:109-122 | for inputs of any length, each byte is exclusive or-ed with its byte of the block of section 2.3 so many blocks on |
| Rfc8439.ClampIsTheRfcs | scripts/generate-v2-vectors.ts:128 | masking the number is clearing the bits of the seven key bytes that section 2.5 names |
| Rfc8439.TagIsTheRfcs | scripts/generate-v2-vectors.ts:127-137 | for every one-time key and message of any length the tag's number is the accumulator of section 2.5.1, over chunks with a byte of one behind them, modulo 2^130 - 5, plus s, modulo 2^128 |
| Rfc8439.SealedIsTheRfcs | scripts/generate-v2-vectors.ts:140-153 | for every key, nonce, plaintext and additional data what is sealed is what section 2.8 gives, byte by byte |
| Numerals.BigEndianRoundTrip | scripts/generate-v2-vectors.ts:43-57 | a number below 256^width is read back from its big-endian bytes |
| Numerals.LittleEndianRoundTrip | scripts/generate-v2-vectors.ts:58-62 | a number below 256^width is read back from its little-endian bytes |
| Numerals.BigEndianByteAt | scripts/generate-v2-vectors.ts:43-57 | byte i of width written is digit width - 1 - i in base 256 |
| Numerals.LittleEndianByteAt | scripts/generate-v2-vectors.ts:58-62 | byte i written is digit i in base 256 |
| Poly.LittleEndianIsSum | scripts/generate-v2-vectors.ts:124-125 | `littleEndian`, through reversed hexadecimal text, is the sum of byte i times 256^i, 0 for no bytes |
| Poly.AccumulateIsPolynomial | scripts/generate-v2-vectors.ts:130-135 | reducing at each step equals reducing the sum of c_i r^(n-i+1) once, and the accumulator stays below the prime |
| Poly.ClampedBelow | scripts/generate-v2-vectors.ts:128 | clamped r is below 2^124 |
| Poly.Poly1305 | scripts/generate-v2-vectors.ts:127-138 | sixteen bytes holding (polynomial mod 2^130 - 5 plus s) mod 2^128, for every one-time key and message of any length |
| Poly.TagBytesHoldTheNumber | scripts/generate-v2-vectors.ts:136-137 | the padded, decoded and reversed text of the tag is always sixteen bytes, whose little-endian reading is the number |
| Poly.ChunkNumberInjective | scripts/generate-v2-vectors.ts:132-133 | two chunks with the same number are the same chunk; every number is nonzero and below the prime |
| Poly.ChunksAreSmall | scripts/generate-v2-vectors.ts:131-133 | every chunk number of any message is nonzero and below the prime |
| Poly.ChunksInjective | scripts/generate-v2-vectors.ts:131-133 | messages with the same chunk numbers are the same |
| Aead.AuthenticatedLength | scripts/generate-v2-vectors.ts:140-151 | the authenticated input is a multiple of sixteen bytes long |
| Aead.AuthenticatedInjective | scripts/generate-v2-vectors.ts:143-152 | below 2^64 bytes, the chunk numbers of the authenticated input determine the additional data and the ciphertext |
| Aead.Seal | scripts/generate-v2-vectors.ts:143-153 | `aead` is stream from block 1, then the tag under the key cut from block 0 over padded parts and both lengths |
| Aead.OpensExactlyTheSealed | scripts/generate-v2-vectors.ts:143-153 | a body opens to a plaintext if and only if it is what sealing that plaintext gives, for every length |
| Aead.StatesTellApart | scripts/generate-v2-vectors.ts:84-102 | permuted states are equal if and only if key, nonce and counter modulo 2^32 are |
| Aead.BlocksAreFresh | scripts/generate-v2-vectors.ts:144-145 | all blocks of one sealing, block 0 included, come from different states if and only if the plaintext has at most 2^38 - 64 bytes |
| Aead.LongerReusesTheKeyBlock | scripts/generate-v2-vectors.ts:84-89 | in a longer plaintext, byte 2^38 - 64 is joined with the first byte of the one-time key |
| Frames.ParsesExactly | scripts/generate-v2-vectors.ts:230-243 | a parser recovers header and remainder from signed bytes if and only if they are that header's encoding followed by that remainder |
| Frames.SignedBytesTellApart | scripts/generate-v2-vectors.ts:233-250 | two frames with the same signed bytes have the same header and ciphertext |
| Frames.WidthsAreNeeded | scripts/generate-v2-vectors.ts:230-231 | without fixed widths two different headers have one encoding |
| Frames.SubkeyInfoInjective | scripts/generate-v2-vectors.ts:223-228 | the HKDF input is equal if and only if key id and device are |
| Frames.NonceInjective | scripts/generate-v2-vectors.ts:248 | nonces of counters below 2^64 are equal if and only if the counters are |
| Frames.FrameOf | scripts/generate-v2-vectors.ts:245-273 | the frame of a header within the writers' ranges, signed over encoding and ciphertext; otherwise the error that is thrown |
| Frames.SealedBoxOf | scripts/generate-v2-vectors.ts:275-293 | ephemeral key, nonce, and the plaintext sealed under the key derived from both public keys |
| Layout.FrameIs | scripts/generate-v2-vectors.ts:223-273 | the frame of a header is its bytes in their order and widths, the body that RFC 8439 seals under the key and nonce the header tells, and a signature over both; it throws exactly for numbers out of range and a signature that does not verify |
| Layout.BoxIs | scripts/generate-v2-vectors.ts:275-293 | a box is the ephemeral public key, the nonce and the plaintext sealed by RFC 8439 under the key derived from both public keys |
| Layout.HeadersAre | apps/ios/Kiroshi/Core/RelayCrypto.swift:24-43 | a header exists exactly for a name of at most 65535 bytes, ids of 16 bytes, a counter below 2^53 and a challenge of 32 bytes |
| Layout.RefusesInOrder | apps/ios/Kiroshi/Core/RelayCrypto.swift:113-142 | a frame is refused as a replay, by its sender, its signature, its length, its nonce and its tag, in that order; what opens is the sealed body of `FrameIs` |
| Layout.RefusesBoxesInOrder | apps/ios/Kiroshi/Core/RelayCrypto.swift:144-186 | a box is refused by its length, by a secret of zeros and by its tag, in that order, each part at its place |
| Layout.SmallOrderIs | apps/ios/Kiroshi/Core/RelayCrypto.swift:55-63 | which keys and points are of small order, the top bit left out |
| RelayCrypto.FrameOpens | apps/ios/Kiroshi/Core/RelayCrypto.swift:113-142 | the app opens the generator's frame to its plaintext, of any length, under a smaller last accepted counter; under any other it is a replay, and with a signature not strictly valid it is forged |
| RelayCrypto.OpensExactlySealedFrames | apps/ios/Kiroshi/Core/RelayCrypto.swift:113-142 | what opens to a plaintext is, if and only if, a newer frame of the sender, strictly signed, with the one body that sealing gives |
| RelayCrypto.BoxOpens | apps/ios/Kiroshi/Core/RelayCrypto.swift:144-186 | the recipient opens a sealed box to its plaintext, of any length, unless the shared secret is zero, and then refuses it |
| RelayCrypto.OpenedBoxesAreSealed | apps/ios/Kiroshi/Core/RelayCrypto.swift:170-186 | behind ephemeral key and nonce, what opens is the one body that sealing gives |
| Fingerprint.WordIndex | scripts/generate-v2-vectors.ts:202-203 | each index is below 2048 |
| Fingerprint.IndexIsDigit | scripts/generate-v2-vectors.ts:202-203 | index i is digit i in base 2048 of the bits above the lowest 62 |
| Fingerprint.ShowsElevenBitsEach | scripts/generate-v2-vectors.ts:198-204 | word i is the one numbered by the eleven bits from bit 11i on of the first sixteen digest bytes |
| Fingerprint.IndicesRecombine | scripts/generate-v2-vectors.ts:198-205 | the six indices recombine in base 2048 to the top 66 bits |
| Fingerprint.SharedFingerprint | scripts/generate-v2-vectors.ts:192-205 | with 2048 distinct words two digests show the same six words if and only if their top 66 bits agree |
| VectorHost.VectorHost.constructor | apps/ios/KiroshiTests/VectorHost.swift:80-95 | a new host holds no challenge, has accepted nothing and run nothing |
| VectorHost.VectorHost.Send | apps/ios/KiroshiTests/VectorHost.swift:114-151 | fields, outcome and log after any inbound frame are those of the step function |
| VectorHost.VectorHost.HearFrame | apps/ios/KiroshiTests/VectorHost.swift:128-151 | an accepted frame moves the last accepted counter and is reported before it is handled |
| VectorHost.VectorHost.HandleFrame | apps/ios/KiroshiTests/VectorHost.swift:131-151 | fields, outcome and log are those of the step function, of which `AnswersEveryHello` and `RefusesOrRuns` say what it does |
| VectorHost.HearsExactly | apps/ios/KiroshiTests/VectorHost.swift:114-129 | the host hears exactly the frames sealed to it, version 2, without ids, with a counter below 2^53 above the last and a challenge of 32 bytes or none; anything else throws and changes nothing |
| VectorHost.AnswersEveryHello | apps/ios/KiroshiTests/VectorHost.swift:131-136 | every hello heard is answered by one hello under the next draw, which is held from then on, the counter one higher; without a draw it throws; held back, only the last accepted counter moves |
| VectorHost.RefusesOrRuns | apps/ios/KiroshiTests/VectorHost.swift:137-151 | every other frame heard: a pending restart forgets the challenge and greets with a new draw, a frame under another challenge is refused with a hello, a call under the challenge held runs and is answered, and anything else throws; at the limits the counter and the draw are spent and nothing goes out |
| VectorHost.DoesAsTold | apps/ios/KiroshiTests/VectorHost.swift:97-108 | what the three controls change and push |
| VectorHost.VectorHost.PushFrame | apps/ios/KiroshiTests/VectorHost.swift:174-193 | the challenge of a hello is held and the counter raised before anything fails; from counter 2^53 on, or with a challenge of another length than 32, no header exists and it throws |
| VectorHost.VectorHost.Draw | apps/ios/KiroshiTests/VectorHost.swift:168-172 | the first draw leaves the supply; an empty supply throws and changes nothing |
| VectorHost.VectorHost.AnswerTheHello | apps/ios/KiroshiTests/VectorHost.swift:101-104 | a hello with a fresh draw, and hellos answered from then on |
| VectorHost.VectorHost.Hello | apps/ios/KiroshiTests/VectorHost.swift:106-108 | a hello under a given challenge, held unless another one goes on the wire |
| VectorHost.VectorHost.Restarts | apps/ios/KiroshiTests/VectorHost.swift:97-99 | only the pending restarts change |
| VectorHost.RunTracks | apps/ios/KiroshiTests/VectorHost.swift:114-193 | over every run the log obeys its rules, counters below 2^53 among them, and determines the held challenge and both counters |
| VectorHost.RunsUnderTheLatestHello | apps/ios/KiroshiTests/VectorHost.swift:137-146 | over every run a call runs only under the challenge most recently installed, with no restart since, as the frame just accepted under it |
| VectorHost.StaleChallengesNeverRun | apps/ios/KiroshiTests/VectorHost.swift:130-146 | after a restart or a newer challenge no frame sealed under an earlier one runs, if challenges are introduced once |
| VectorHost.DistinctDrawsIntroduceOnce | apps/ios/KiroshiTests/VectorHost.swift:168-177 | the challenges introduced are exactly the draws taken, in order, so distinct draws are introduced once |
| VectorHost.StaleDrawsNeverRun | apps/ios/KiroshiTests/VectorHost.swift:130-177 | with pairwise distinct draws, over every run no frame sealed under a challenge from before a restart or a newer one runs |
| VectorHost.NoFrameRunsTwice | apps/ios/KiroshiTests/VectorHost.swift:122-146 | over every run accepted counters, and those of the calls that ran, strictly increase past the starting one |
| VectorHost.NoncesNeverRepeat | apps/ios/KiroshiTests/VectorHost.swift:174-184 | no two frames pushed over a run have the same counter or nonce |
| VectorHost.CallRunsOnTime | apps/ios/KiroshiTests/VectorHost.swift:130-150 | a client that resends under the challenge of each answering hello gets its call run on exactly the computed send, at most max(n,1)+1 with n restarts pending, and not before, if and only if the host's counter has room for the hellos on the way; one draw is spent per restart or empty held challenge |
| VectorHost.NeverRunsAtTheLimit | apps/ios/KiroshiTests/VectorHost.swift:178-182 | with no room for a hello below 2^53, a refused call never runs, however often it is sent |
| RelayConnection.RelayConnection.OpenSocket | apps/ios/Kiroshi/Core/RelayConnection.swift:178-185 | a connection starts with no challenge and a hello alone in its outbox |
| RelayConnection.RelayConnection.BeginCall | apps/ios/Kiroshi/Core/RelayConnection.swift:112-134 | a call is refused when nothing is connected; else it gets the next id and waits for a challenge, or is queued at once under the held one (its deadline is a step of its own, `RunsOut`, at any time) |
| RelayConnection.RelayConnection.HeardChallenge | apps/ios/Kiroshi/Core/RelayConnection.swift:566-581 | every call is told the fresh challenge in the order of the ids: queued, left, resent once, or given up as refused |
| RelayConnection.RelayConnection.TellCall | apps/ios/Kiroshi/Core/RelayConnection.swift:569-579 | what one call does, by its stage and whether it was resent |
| RelayConnection.RelayConnection.QueueCall | apps/ios/Kiroshi/Core/RelayConnection.swift:583-586 | the call is queued and joins the outbox |
| RelayConnection.RelayConnection.SettleCall | apps/ios/Kiroshi/Core/RelayConnection.swift:588-592 | a call ends once, and only while in flight |
| RelayConnection.RelayConnection.SendFirst | apps/ios/Kiroshi/Core/RelayConnection.swift:323-374 | a counter of the key is spent for a hello and for a call; from 2^53 on a hello ends the connection and a call fails; only a queued call leaves, under the challenge held then |
| RelayConnection.RelayConnection.RotateTo | apps/ios/Kiroshi/Core/RelayConnection.swift:534-564 | the fields are those of the step function, of which `RotatesExactly` and `RotatedCallsAreQueued` say what becomes of the calls |
| RelayConnection.RelayConnection.FailPendingCalls | apps/ios/Kiroshi/Core/RelayConnection.swift:206-213 | at the end of a connection every call in flight ends the same way, and nothing is queued |
| Waiting.ConnectsExactly | apps/ios/Kiroshi/Core/RelayConnection.swift:178-185 | a connection opens with a hello alone in its outbox and no challenge |
| Waiting.CallsExactly | apps/ios/Kiroshi/Core/RelayConnection.swift:112-134 | a call takes the next id, is queued at once with a challenge held and waits without one |
| Waiting.HearsExactly | apps/ios/Kiroshi/Core/RelayConnection.swift:566-581 | of each call in flight: given up when sent twice, queued when waiting or sent once under another challenge, left otherwise; those queued join the outbox in the order of their ids |
| Waiting.SendsHello | apps/ios/Kiroshi/Core/RelayConnection.swift:323-374 | a hello leaves under the next counter of the key; without a counter below 2^53, or undelivered, it ends the connection and every call |
| Waiting.SendsCall | apps/ios/Kiroshi/Core/RelayConnection.swift:351-374 | the call that is next leaves under the challenge held if it is still queued, and is dropped otherwise, a counter spent either way; without a counter, or undelivered, it ends |
| Waiting.RotatesExactly | apps/ios/Kiroshi/Core/RelayConnection.swift:534-564 | a newer key is taken, the challenge forgotten, a hello put in an open connection's outbox, and every queued call waits again; an older one changes nothing |
| Waiting.ClosesExactly | apps/ios/Kiroshi/Core/RelayConnection.swift:206-213 | every call in flight ends with the connection, and nothing stays in the outbox |
| Waiting.CallsArePlaced | apps/ios/Kiroshi/Core/RelayConnection.swift:112-592 | over every run of a new connection a call waits only while no challenge is held, and a queued one stands in the outbox with a challenge held |
| Waiting.RotatedCallsAreQueued | apps/ios/Kiroshi/Core/RelayConnection.swift:534-586 | over every run, a call in flight and unsent when the key is rotated waits from then on, whatever comes but a challenge, and the next challenge heard queues it |
| Waiting.QueuedCallsLeave | apps/ios/Kiroshi/Core/RelayConnection.swift:323-366 | a queued call leaves under the challenge held as soon as what stands in front of it has left, with counters left and frames delivered |
| RelayConnection.SentAtMostTwice | apps/ios/Kiroshi/Core/RelayConnection.swift:112-598 | over every run of connections, calls, challenges, sends, answers, deadlines, rotations and ends a call is sent at most twice, and given up as refused only after that |
| RelayConnection.SettledForGood | apps/ios/Kiroshi/Core/RelayConnection.swift:588-598 | how a call ended never changes |
| RelayConnection.PhoneNoncesNeverRepeat | apps/ios/Kiroshi/Core/RelayConnection.swift:323-374 | over every run, rotations included, no two frames the phone sends under one key have the same counter or nonce |
| RelayConnection.CallsToldByOneHello | apps/ios/Kiroshi/Core/RelayConnection.swift:499-592 | in lock-step with the host, each frame replied to before the next one leaves: of n calls that one hello tells of its challenge the one at place k in the order of the ids, from 0, runs and is answered if and only if at most n + k restarts are pending, and is otherwise given up as refused without running; nothing else runs, and those put back run behind the others |
| RelayConnection.ServedExactly | apps/ios/Kiroshi/Core/RelayConnection.swift:566-581 | with so many refusals to come, each putting the first call back once and giving it up the second time, the call at place k is served if and only if they are at most n + k |
| RelayConnection.UndisturbedCall | apps/ios/Kiroshi/Core/RelayConnection.swift:499-592 | composed with the host, one undisturbed call under a challenge heard at any time runs and is answered if and only if at most one restart is pending, and is otherwise given up as refused without running |
| VectorHost.RepliesToCall | apps/ios/KiroshiTests/VectorHost.swift:114-193 | a newer call sealed right, with room for the reply, takes a restart, is refused under the held challenge or the next draw, or runs: host and push after it are those of `Reply` |
| VectorHost.ServesOrRefuses | apps/ios/KiroshiTests/VectorHost.swift:114-193 | whatever its counters and supplies, the host drops a sealed call, refuses it, or runs it under the held challenge |
| Transit.SchedulesEnd | apps/ios/Kiroshi/Core/RelayConnection.swift:323-592 | whatever both ends hold, a schedule of moves that have something to do is no longer than the load of its session |
| Transit.MovesAreSteps | apps/ios/Kiroshi/Core/RelayConnection.swift:323-366 | a move is a step of one end: the next of the outbox leaves, the first frame arrives at the host and what is pushed for it goes back in order, or the first push is heard |
| Transit.HearsAsSteps | apps/ios/Kiroshi/Core/RelayConnection.swift:499-527 | a push above the last accepted counter is heard, a hello as its challenge and an answer as the end of its call; any other is dropped |
| Transit.ComesToRest | apps/ios/Kiroshi/Core/RelayConnection.swift:323-592 | from every session some schedule leaves nothing to send and nothing on the way |
| Transit.TellingEnds | apps/ios/Kiroshi/Core/RelayConnection.swift:499-592 | n calls told by one hello are over, whichever way, after at most 6n such moves |
| Transit.ExchangesAreInStep | apps/ios/Kiroshi/Core/RelayConnection.swift:323-351 | lock-step exchanges are one of the schedules |
| Transit.FewRestartsServeAll | apps/ios/Kiroshi/Core/RelayConnection.swift:323-592 | with at most one restart pending, whichever challenge the calls were told, every schedule that comes to rest has run each call once and answered it, in the order of the ids from some call on and then from the first |
| Transit.OvertakingRefuses | apps/ios/Kiroshi/Core/RelayConnection.swift:323-592 | with more restarts than one, a schedule on which all calls leave before anything arrives has the first call refused twice and given up, with nothing run |
| Transit.PipelinedCalls | apps/ios/Kiroshi/Core/RelayConnection.swift:323-592 | every schedule that comes to rest has run and answered all calls told by one hello if and only if at most one restart is pending |
| Transit.TwoCallsTwoRestarts | apps/ios/Kiroshi/Core/RelayConnection.swift:323-592 | an instance: two calls sent without waiting to a host with two restarts pending, the first given up with nothing run |
| Transit.PlainlySeals | apps/ios/Kiroshi/Core/RelayConnection.swift:351-366 | what is asked of sealing and opening can be had, for any calls |
| AtMostOnce.NoCallRunsTwice | apps/ios/Kiroshi/Core/RelayConnection.swift:112-592 | from a fresh connection, over every schedule of calls made, sends, arrivals, hearings, deadlines, hellos and restarts at any time, with any counters: no call runs twice, one settled as answered ran, one settled as refused did not |
| AtMostOnce.HappensAsSteps | apps/ios/Kiroshi/Core/RelayConnection.swift:112-592 | what happens on a schedule is a move, or a step of the phone or the host on its own |
| RelayDevices.FakeRelayDevices.Send | apps/ios/KiroshiTests/FakeRelayDevices.swift:47-61 | registry, reply and log after any request are those of the step function |
| RelayDevices.FakeRelayDevices.AnswerRequest | apps/ios/KiroshiTests/FakeRelayDevices.swift:63-75 | an unknown bearer is refused, then method and path decide |
| RelayDevices.FakeRelayDevices.IssueChallenge | apps/ios/KiroshiTests/FakeRelayDevices.swift:77-85 | a nonce is recorded for the caller, unless a challenge is to expire |
| RelayDevices.FakeRelayDevices.RegisterDevice | apps/ios/KiroshiTests/FakeRelayDevices.swift:87-118 | the nonce is spent before account and proof are judged; the reply and the registry follow |
| RelayDevices.FakeRelayDevices.EnrolDevice | apps/ios/KiroshiTests/FakeRelayDevices.swift:108-117 | a new key gets the next id, a known one keeps its id and moves to the caller |
| RelayDevices.FakeRelayDevices.DeleteDevice | apps/ios/KiroshiTests/FakeRelayDevices.swift:120-125 | a device of that id and the caller is removed, otherwise nothing changes |
| RelayDevices.FakeRelayDevices.ExpireChallenges | apps/ios/KiroshiTests/FakeRelayDevices.swift:27-29 | only the number of challenges to expire changes |
| DeviceReplies.ReachesTheRegistry | apps/ios/KiroshiTests/FakeRelayDevices.swift:47-69 | requests elsewhere are passed on, deletions lost when they are to be, an unknown bearer refused with 401; each is recorded, and nothing else changes |
| DeviceReplies.ServesNoOther | apps/ios/KiroshiTests/FakeRelayDevices.swift:70-75 | of an account's other requests every one is refused with 404 |
| DeviceReplies.AnswersChallenge | apps/ios/KiroshiTests/FakeRelayDevices.swift:77-85 | 201 with the text of the bytes drawn, live for the account unless it is to expire |
| DeviceReplies.ReadsExactlyTheFields | apps/ios/KiroshiTests/FakeRelayDevices.swift:87-96 | the fields are read if and only if all four are there, the key of 32 bytes and the signature of 64 |
| DeviceReplies.RefusesRegistration | apps/ios/KiroshiTests/FakeRelayDevices.swift:87-107 | 400 without the fields, or without a live nonce of the account, which is spent when it is live; 403 when the key did not sign label, account, key and nonce |
| DeviceReplies.AnswersRegistration | apps/ios/KiroshiTests/FakeRelayDevices.swift:97-117 | a proven registration spends the nonce; 201 with the next id for a new text, 200 with the id it has for a known one, transferred exactly from another account |
| DeviceReplies.AnswersDeletion | apps/ios/KiroshiTests/FakeRelayDevices.swift:72-73 | 204 and one device of the caller's with the id behind the path gone, or 404 and nothing changed |
| RelayDevices.OwnershipIsLastRegistration | apps/ios/KiroshiTests/FakeRelayDevices.swift:97-124 | over every run a key text belongs to an account if and only if the last registration or deletion of that text is a registration by that account |
| RelayDevices.RegistrationsAreProven | apps/ios/KiroshiTests/FakeRelayDevices.swift:77-107 | every registration proves its key over a nonce recorded for the same account and untouched since; an expired challenge is never recorded |
| RelayDevices.NonceRegistersOnce | apps/ios/KiroshiTests/FakeRelayDevices.swift:97-99 | between two registrations over one nonce it was recorded again |
| RelayDevices.DeletionsAreOwn | apps/ios/KiroshiTests/FakeRelayDevices.swift:120-125 | a deletion removes the device its key text held, and that device is the caller's |
| RelayDevices.TransferredMeansMoved | apps/ios/KiroshiTests/FakeRelayDevices.swift:108-117 | `transferred` is answered if and only if the device of the key text changes account; its id stays |
| RelayDevices.NoncesAreConserved | apps/ios/KiroshiTests/FakeRelayDevices.swift:77-107 | over every run recorded challenges are registrations, burnt, replaced and live nonces together; none is replaced if nonces are fresh |
| RelayDevices.CreatedIdsDiffer | apps/ios/KiroshiTests/FakeRelayDevices.swift:108-112 | no id is issued twice over a run, deletions in between or not |
| RelayDevices.IdsTellDevicesApart | apps/ios/KiroshiTests/FakeRelayDevices.swift:108-117 | at any time device ids are pairwise distinct and below the next one |
| RelayDevices.MessageParses | apps/ios/KiroshiTests/FakeRelayDevices.swift:103-104 | with 32-byte keys and nonces signed messages are equal if and only if user, key and nonce are |
| RelayDevices.NonceLengthIsNeeded | apps/ios/KiroshiTests/FakeRelayDevices.swift:103-104 | with nonces of other lengths two users' messages can be equal |
| RelayDevices.SignedBytesTellRegistrationsApart | apps/ios/KiroshiTests/FakeRelayDevices.swift:87-107 | two registrations of a run over the same signed bytes are by the same user, of the same key, over the same nonce |
| Base64Url.UrlRoundTrip | apps/ios/Kiroshi/Core/Base64URL.swift:4-16 | what is encoded as unpadded URL-safe base64 is decoded again, for a standard encoding that is |
| Base64Url.SecondText | apps/ios/Kiroshi/Core/Base64URL.swift:6-8 | a text and its standard twin decode alike, and differ if and only if it has a URL-safe character |
| Base64Url.ReadsTheTwin | apps/ios/Kiroshi/Core/Base64URL.swift:4-9 | a text is decoded as its standard twin padded to fours, and refused with padding of its own |
| Base64Url.WritesTheTwin | apps/ios/Kiroshi/Core/Base64URL.swift:11-16 | what is encoded is the standard text without padding, with the two URL-safe letters |
| StandardBase64.StandardIsBase64 | apps/ios/Kiroshi/Core/Base64URL.swift:8-13 | the encoding of section 4 of RFC 4648 keeps what is promised of the standard one: it is decoded again, and its padding completes fours |
| DeviceKeys.OneKeyTwoHolders | apps/ios/KiroshiTests/FakeRelayDevices.swift:87-117 | two accounts that register one key under two texts both hold it, the second told of no transfer |
| DeviceKeys.HoldersAreLive | apps/ios/KiroshiTests/FakeRelayDevices.swift:97-124 | over every run an account holds a key if and only if a live registration of its bytes is the account's |
| DeviceKeys.OneDeviceExactly | apps/ios/KiroshiTests/FakeRelayDevices.swift:108-117 | a key has at most one device if and only if its live registrations used one text |
| DeviceKeys.OneHolderExactly | apps/ios/KiroshiTests/FakeRelayDevices.swift:108-117 | at most one account holds a key if and only if its live registrations are by one account |
| DeviceKeys.LastDecidesExactly | apps/ios/KiroshiTests/FakeRelayDevices.swift:97-124 | the last registration or deletion of a key decides who holds it if and only if every live registration of the key is by that last one's account |
| DeviceKeys.CanonicalTextsDecide | apps/ios/KiroshiTests/FakeRelayDevices.swift:97-124 | when every registered text is the one that encoding its key gives, at most one account holds a key, and its last registration or deletion tells who |
| SignIn.Browser.Navigate | apps/website/src/router.tsx:112-195 | the tab and the outcome after the guard and loader of any location are those of the visit function, of which the lemmas ending in `Do` and `Does` say what it is, location by location |
| SignIn.Browser.FinishSocialSignIn | apps/website/src/router.tsx:87-108 | a returned session is saved; `via` is dropped, an error shows when none came back |
| SignIn.Browser.LoadLoginState | apps/website/src/router.tsx:59-81 | signed out without a bearer; onward with a named account; an unauthorized answer clears the bearer |
| SignIn.Browser.StoreThenRedirect | apps/website/src/authorize-state.ts:47-50 | the marker is written when there is a request, and a login nests the location left |
| SignIn.Browser.ConsumeJustSignedIn | apps/website/src/authorize-state.ts:65-69 | reports whether the marker names the request, and removes it either way |
| SignIn.Browser.SignInAgainOnUnauthorized | apps/website/src/authorize-state.ts:96-107 | an unauthorized failure clears the bearer, stores the request and redirects; another one is thrown on |
| SignIn.Browser.LoadAuthorizeState | apps/website/src/authorize-state.ts:71-117 | the outcome is that of the loader; what it shows and does is `AuthorizeDoes` |
| SignIn.Browser.LoadDoneState | apps/website/src/authorize-state.ts:147-167 | an approved request signs the browser out, any other has expired |
| SignIn.Browser.SignOutBrowser | apps/website/src/authorize-state.ts:128-145 | the bearer is cleared unless signing out failed otherwise than as unauthorized |
| SignIn.Browser.LoadAccountState | apps/website/src/account-state.ts:9-15 | the account page, or signing in again |
| SignIn.UuidsHaveFiveGroups | apps/website/src/authorize-state.ts:14-15 | a request is told exactly by five groups of hexadecimal digits of either case |
| SignIn.SocialReturnDoes | apps/website/src/router.tsx:87-108 | a login come back from a provider saves a session that is there, shows an error for one that is not, and leads to the login itself |
| SignIn.LoginDoes | apps/website/src/router.tsx:59-81 | shown without a bearer or when refused, which clears it; onward with a named account; the name step with an unnamed one |
| SignIn.GuardsDo | apps/website/src/authorize-state.ts:47-63 | without a bearer a guarded location leads to the login it is nested in, and an authorization stores its request |
| SignIn.AuthorizeDoes | apps/website/src/authorize-state.ts:71-117 | with a bearer: the page of the request's status, pending reported as just signed in if and only if the marker names it, the marker taken; refused, the bearer cleared and the request stored; any other failure thrown |
| SignIn.AuthorizeDoneDoes | apps/website/src/authorize-state.ts:128-167 | an approved request signs the browser out and says whether that failed, another one has expired; refused, as above without a marker |
| SignIn.AccountDoes | apps/website/src/account-state.ts:9-15 | the account page, or signing in again when refused |
| SignIn.RedirectsStoreTheRequest | apps/website/src/authorize-state.ts:47-63 | every redirect from an authorization of a request leaves the marker naming it, and every other redirect leaves the marker alone |
| SignIn.RedirectsShrink | apps/website/src/router.tsx:54-108 | every redirect leads to a location from where strictly fewer redirects may follow |
| SignIn.Follow | apps/website/src/router.tsx:54-208 | following redirects ends, within the bound of the location |
| SignIn.ChainsEnd | apps/website/src/router.tsx:54-208 | every chain ends after at most two redirects per nested login plus one, whatever the relay answers |
| SignIn.BoundIsReached | apps/website/src/router.tsx:54-208 | the number reached is the location's own `MaxRedirects`, for every location, when logins succeed and guarded pages refuse |
| SignIn.TwoRedirectsAreNeeded | apps/website/src/router.tsx:54-108 | with every login come back from a provider the bound is two redirects a login and one more |
| SignIn.FollowIsARun | apps/website/src/router.tsx:54-208 | following redirects is a run of one visit more than there are redirects, each to where the one before led |
| SignIn.SignInSettlesAndReturns | apps/website/src/authorize-state.ts:57-63 | a guarded location redirects only with the bearer gone, to a login that settles, and that returns to it after signing in |
| SignIn.UnauthorizedClears | apps/website/src/authorize-state.ts:96-145 | a visit takes the bearer out if and only if an unauthorized answer decides it or it signs the browser out; refused, it shows the login or leads to it |
| SignIn.FailuresKeepTheTab | apps/website/src/authorize-state.ts:96-107 | a visit that throws another failure changes neither bearer nor marker |
| SignIn.PagesTellTheTruth | apps/website/src/authorize-state.ts:80-167 | each page shows what the relay answered; a pending one reports the marker, takes it and logs that; what is said of the bearer is what is stored |
| SignIn.RunTracks | apps/website/src/authorize-state.ts:47-69 | over every run of visits, saves and clears the log obeys its rules and determines the storage |
| SignIn.JustSignedInMeansIt | apps/website/src/authorize-state.ts:47-94 | over every run of a new tab the pending page of the next visit says that the browser has just signed in if and only if its request was stored and the marker untouched since; then a bearer was saved in between |
| SignIn.MarkersServeOnce | apps/website/src/authorize-state.ts:65-69 | over every run such pages, plus one if a marker is left, are at most the markers stored |
| Text.WellFormedExactly | scripts/baseline.ts:425-439 | a text is read back as it was written to a file if and only if every surrogate in it is paired |
| Text.TrimTrims | scripts/baseline.ts:427 | trimming yields trimmed text, leaves exactly trimmed text alone, keeps text well-formed, and is empty exactly for white space |
| Text.CollapseEnds | scripts/baseline.ts:241-242 | collapsed text is on one line, ends in a space exactly when the cut at 120 code units falls behind one, and of well-formed text is well-formed exactly when the cut splits no pair |
| Text.ReadsOnlySafeItems | scripts/baseline.ts:422-429 | only line-safe items are ever read |
| Text.ReadsBackExactly | scripts/baseline.ts:422-440 | an item written is read back as itself alone if and only if it is line-safe: trimmed, not empty, on one line, well-formed |
| Text.ReadsBackSafeItems | scripts/baseline.ts:422-440 | a file of line-safe items reads back as them, in order |
| Reports.TrimsTheEnds | scripts/baseline.ts:427 | trimming takes white space off both ends and nothing else |
| Reports.SqueezesEveryRun | scripts/baseline.ts:241-242 | a run of white space inside a text becomes one blank |
| Reports.CutsAt120 | scripts/baseline.ts:241-242 | what is kept of a collapsed text is its first 120 code units |
| Reports.ReadsLines | scripts/baseline.ts:422-429 | the items of a file are its lines, trimmed, without the empty ones, in order |
| Reports.WritesLines | scripts/baseline.ts:433-440 | the file of some items is each of them and a line break |
| Ordinals.SortedSorts | scripts/baseline.ts:93 | sorting puts the same texts, copies included, in the order of their code units |
| Ordinals.SameItemsSortAlike | scripts/baseline.ts:435 | what is written depends only on the set of items |
| Ordinals.NumberCopies | scripts/baseline.ts:91-98 | the loop over the map of ranks numbers each key by its copies so far, in sorted order |
| Ordinals.CopiesAreNumbered | scripts/baseline.ts:91-98 | an item comes out if and only if it is a key under a rank between 1 and its number of copies |
| Ordinals.FewerCopiesFewerItems | scripts/baseline.ts:91-98 | numbering fewer copies yields no new item |
| Ordinals.DistinctExactlyWithoutClash | scripts/baseline.ts:91-98 | numbered items are pairwise distinct if and only if no key already reads as a copy of another |
| Ordinals.CopiesGoneItemsGone | scripts/baseline.ts:91-98 | without such a clash no numbered item is gone if and only if no copy is |
| Reports.OrdersByUnits | scripts/baseline.ts:93 | the order is that of the first code unit in which two texts differ; a text stands before what it begins |
| Reports.NumbersCopies | scripts/baseline.ts:91-98 | copy n of a key in sorted order is the key, or the key, a blank, a hash and n from the second on |
| Baseline.AreaPassesExactly | scripts/baseline.ts:26-74 | an area passes if and only if what is reported is recorded and owned, for stories also conversely; it is silent if and only if what is owned is reported |
| Baseline.ChecksEveryArea | scripts/baseline.ts:564-578 | a check passes, or is silent, if and only if every area does |
| Baseline.Baselines.WriteItems | scripts/baseline.ts:433-440 | the area's file holds the distinct items in order, one a line |
| Baseline.Baselines.Update | scripts/baseline.ts:580-586 | the files become the update of the old ones, area after area |
| Baseline.Baselines.Prune | scripts/baseline.ts:588-598 | the files become the prune of the old ones, area after area |
| Baseline.Baselines.Check | scripts/baseline.ts:564-578 | the verdict of all areas, of which `CheckPrints` and `CheckNotices` say what it is; exit code 0 if and only if there is no failure |
| Verdicts.CheckPrints | scripts/baseline.ts:26-62 | for all files, reports and suites the failures are, area after area, the items reported that are not recorded and owned, and for stories those recorded and gone; the warnings are the other areas' items recorded and gone; each in its own order and words |
| Verdicts.CheckNotices | scripts/baseline.ts:564-578 | a line is a failure, or a warning, if and only if it is the notice in those words of such an item of some area |
| Baseline.ReadsWhatWasWritten | scripts/baseline.ts:422-440 | line-safe items are read back as written, each once and in order |
| Baseline.RewrittenAt | scripts/baseline.ts:580-598 | each area's file is one rewrite of what it held at the start |
| Baseline.UpdateThenCheck | scripts/baseline.ts:553-586 | after an update the same report checks without failure if and only if it is recordable: line-safe, tests owned |
| Baseline.UpdateOnlyAdds | scripts/baseline.ts:580-586 | an update keeps every recorded item but the stories; with line-safe items nothing else but what is reported is added; other areas keep their file |
| Baseline.PruneThenCheck | scripts/baseline.ts:553-598 | after a prune it checks without failure or warning if and only if it is recordable |
| Baseline.PruneKeepsOthers | scripts/baseline.ts:588-598 | a prune keeps the entries of suites that did not run; with recordable items nothing else but what is reported stays; other areas keep their file |
| Baseline.PruneSettlesExactly | scripts/baseline.ts:580-598 | a second prune changes nothing, and an update before a prune leaves no trace, if and only if no unowned line of a reported test is neither recorded nor reported |
| Baseline.RecordableLeavesNothing | scripts/baseline.ts:588-598 | of a recordable report that is always so |
| Baseline.BrokenNameStaysBehind | scripts/baseline.ts:252-255 | a name with a line break leaves the line behind the break, unless it is owned, recorded or reported |
| Baseline.TwoPrunesSettle | scripts/baseline.ts:588-598 | a third prune never changes anything |
| Collect.CollectAll | scripts/baseline.ts:600-608 | the nested loops gather the numbered items of every scope by area, or the first scope's error |
| Collect.SilentSuitesAreGreen | scripts/baseline.ts:246-259 | a suite reports nothing if and only if every file and every test of it is green |
| Collect.FailedTestsShow | scripts/baseline.ts:246-253 | every failed test is reported by suite, file and name |
| Collect.RedSuitesAreAttributed | scripts/baseline.ts:76-84 | collecting throws if and only if a red suite has no item to show; otherwise the items are those of all suites |
| Collect.CollectedTestsAreOwned | scripts/baseline.ts:246-259 | whatever the scopes, every collected test item is owned by a collected suite, and areas are distinct |
| Collect.RecordsWhatWasFound | scripts/baseline.ts:553-608 | a report just recorded checks without failure, just pruned without notice, if and only if every key found fits a line |
| Collect.TestFileIsRecordable | scripts/baseline.ts:246-256 | a test file's items fit a line if and only if it is green, or its suite and path start an item and the names of its failed tests, or its message when none is named, end one |
| Collect.DiagnosticIsRecordable | scripts/baseline.ts:354-389 | a diagnostic's item fits a line if and only if its category and path start an item and its source line exists, is not blank, and is cut neither behind a space nor inside a pair |
| Collect.UnsafeDiagnosticNeverPasses | scripts/baseline.ts:360-389 | a diagnostic whose item fits no line fails the check also right after an update or a prune |
| Collect.SplitPairNeverFits | scripts/baseline.ts:241-242 | a source line of 119 letters and a character outside the basic plane is cut inside its pair |
| Collect.BlankBehindPairsNeverFits | scripts/baseline.ts:241-242 | a source line of 59 such characters, a letter and a blank is cut behind the blank |
| Collect.DiagnosticsThatNeverPass | scripts/baseline.ts:381-388 | so a diagnostic without a line, or at either of those lines, fails every check |
| Collect.FewerCopiesFewerFailures | scripts/baseline.ts:26-62 | removing copies of items makes a passing area fail if and only if it is the stories' and a numbered item is gone by it |
| Reports.ReportsFailures | scripts/baseline.ts:246-256 | a file is reported by suite, path and name of each failed test in order; without one, a failed file by its message collapsed; no other file is |
| Reports.ReportsEveryFile | scripts/baseline.ts:258-259 | a suite's items are its files' one after the other |
| Reports.ShowsTheLine | scripts/baseline.ts:354-389 | the line shown is the one of that number, from 1 on, collapsed; nothing stands for a line or a file that is not there |
| Reports.ShowsTheDiagnostic | scripts/baseline.ts:381-388 | a diagnostic is reported by category, path and the line it is at |
| Reports.ShowsTheFinding | scripts/baseline.ts:411-419 | an unused file is named once, anything else behind its file |
| Reports.AttributesEvery | scripts/baseline.ts:76-84 | the items of all suites in order, or an error naming the red suites that show none |
| Reports.ScopesReport | scripts/baseline.ts:464-499 | which suites each scope runs, in which order, and that all tests come with the stories |
| Reports.LintReports | scripts/baseline.ts:501-504 | lint reports the diagnostics and the unused exports, each under its own area |
| Reports.CollectsByArea | scripts/baseline.ts:600-608 | a collection holds of each area what every scope found of it, scope after scope, numbered scope by scope, and the suites of all scopes |
| Reports.ThrowsTheFirst | scripts/baseline.ts:600-608 | it throws the message of the first scope that does, and only then |
| ChangedScope.ChangedIsWithin | scripts/baseline.ts:483-499 | when the changed files are files of their suites with the same results, what they find is a part of what all tests find, copies counted |
| ChangedScope.ChangedPassesWithVitest | scripts/baseline.ts:541-547 | whenever all tests pass the check, so do the changed ones that find a part of it |
| ChangedScope.PruneOfChangedDrops | scripts/baseline.ts:541-598 | a prune by the changed tests drops of the recorded tests exactly those of the unit suites that stand on no line it reports |
| ChangedScope.PruneOfChangedBreaksVitest | scripts/baseline.ts:541-598 | after it a check of all tests that passed still passes if and only if the changed tests reported every failure of the unit suites again |
| SearchCodec.DecodesTheEncoded | apps/website/src/join-search.ts:26 | percent-decoding with plus as space undoes both encoders on every text |
| SearchCodec.ReadsThePrinted | apps/website/src/join-state.ts:60-64 | any printed list of pairs is read back in order with its duplicates, with or without a question mark |
| SearchCodec.SitePairs | apps/website/src/join-search.ts:22-32 | a printed search reads as the pairs of its rest, then each invitation as text, in order |
| SearchCodec.ParseUndoesStringify | apps/website/src/join-search.ts:15-36 | a search with a nonempty list of texts under `invitation` is read back whole, and validates to that list |
| SearchCodec.PlainDefaultsAreDefaults | apps/website/src/join-search.ts:16-28 | a witness that what is relied on of the router's printer and parser can be met: by a printer and a parser of plain pairs, not the router's own |
| SearchCodec.LinkReadsBack | apps/website/src/join-state.ts:60-64 | any invitation is read back from its link, whatever it holds |
| SearchCodec.PrintsTheId | apps/website/src/join-state.ts:4-4 | an identifier of the pattern is printed as it stands |
| SearchCodec.JoinOpensItsLinks | apps/website/src/join-state.ts:43-64 | either link leads the join page to its invitation, accepted if and only if it matches the pattern |
| SearchCodec.PrintsBytes | apps/website/src/join-search.ts:26 | a text is printed byte by byte: letters, digits and marks as they are, a blank in a form as a plus, anything else as a percent sign and two upper-case digits |
| SearchCodec.ReadsBytes | apps/website/src/join-search.ts:18 | what is no escape is read as it stands, a plus as a blank |
| SearchCodec.ReadsEscape | apps/website/src/join-search.ts:18 | a percent sign and two digits of either case are read as their byte |
| SearchCodec.ReadsOnePart | apps/website/src/join-search.ts:18 | a part of a query is a name up to its first equals sign and a value behind it; an empty part is none |
| SearchCodec.ReadsEachPart | apps/website/src/join-search.ts:18 | the pairs of a query are those of its parts between ampersands; a question mark in front is no part of it |
| SearchCodec.PrintsTheSite | apps/website/src/join-search.ts:22-32 | a search with a list prints its other pairs as the router does, then `invitation=` and each text behind an ampersand, or behind a question mark when there is nothing else |
| SearchCodec.ReadsTheSite | apps/website/src/join-search.ts:15-36 | any other search is the router's to print; invitations are read as texts, and a search is valid with a nonempty list of them |
| SearchCodec.LinksAre | apps/website/src/join-state.ts:58-64 | the text of both links |
| SearchCodec.TakesOneInvitation | apps/website/src/join-state.ts:43-48 | the one invitation taken: 1 to 128 letters, digits, dashes and underscores |

## Left out

- RelayCrypto.FrameOpens: says nothing of forgery or secrecy; signatures, key agreement, HKDF and SHA-256 are functions given to the model. A key agreement that throws counts as one that yields zeros.
- RelayCrypto.OpensExactlySealedFrames: CryptoKit's ChaChaPoly is taken to be `Aead.Seal` and `Aead.Open`; device ids are the sixteen bytes their lower-case hexadecimal text stands for, and instances the bytes of their UTF-8 encoding.
- Rfc8439.BlockIsTheRfcs: the worked examples of the standard are not computed.
- Frames.FrameOf: the hexadecimal fields of the result are bytes.
- VectorHost.VectorHost.Send: JSON and base64 are decoded before the model; a failed decoding is an absent value. The keys' instance and ids fit a header, sealing is taken to succeed, and an answer never to be the hello.
- VectorHost.RunTracks: the two streams are the order of the log; closing, `drop`, `receive` and `ping` are not modelled.
- RelayConnection.CallsToldByOneHello: starts where the phone hears the hello, with no call made behind it; frames are delivered once, one at a time and in order, each answered before the next is sent; the host has draws for the restarts pending, both counters have room, and the phone opens the host's frames by the rule of their counters.
- RelayConnection.UndisturbedCall: the same of one call that is queued already.
- Transit.PipelinedCalls: starts where the phone hears the hello, with no call made behind it and no restart later on; frames are delivered once and in order in each direction; the host has draws for the restarts pending and both counters have room.
- AtMostOnce.NoCallRunsTwice: the connection's hello is sent already, and the host answers it at any time; frames are delivered once and in order in each direction; key rotation and the end of the connection are outside, and that a call is answered at all is not part of it.
- RelayConnection.SentAtMostTwice: the handshake, pings, events, key requests, checks of a handed key and storage of counters are not modelled; a counter that cannot be read is one that ran out.
- RelayConnection.PhoneNoncesNeverRepeat: the counters are a map that every connection of one instance goes on with.
- RelayDevices.FakeRelayDevices.Send: JSON, UTF-8, the stripping of `Bearer ` and requests without a URL are outside; requests for other paths are only forwarded, and random nonces are parameters.
- DeviceReplies.AnswersRegistration: the dates and message texts of bodies are outside.
- RelayDevices.IdsTellDevicesApart: the queries `devices(of:)` and `count` are not modelled.
- Base64Url.UrlRoundTrip: standard base64 itself is given, with what is used of it; `StandardBase64` shows that the encoding of RFC 4648 keeps that, not that Foundation's decoder refuses what that one does.
- SignIn.Follow: the router's own matching, caching and preloading are not modelled, and a redirect text is taken to be parsed already: a login nests the location it leads to.
- SignIn.JustSignedInMeansIt: visits of one tab do not overlap; other tabs appear as saving or clearing the shared bearer between visits.
- Baseline.Baselines.Check: the labels in front of printed notices and the closing lines are outside.
- Text.WellFormedExactly: a file is the sequence of characters its UTF-8 bytes stand for; the bytes are not modelled.
- Collect.CollectAll: processes, git, report files and their errors are outside; the tools' answers are parameters, and scopes are chosen already.
- Collect.CollectedTestsAreOwned: paths are taken relative to the repository already, and XML entities as unescaped.
- SearchCodec.ParseUndoesStringify: the router's own printer and parser are relied on by the clauses of `AreDefaults`; queries that start with two question marks are outside.
- SearchCodec.DecodesTheEncoded: texts are the bytes of their UTF-8 encoding; texts that have none, on which `encodeURIComponent` throws, are outside.
- `main`, `requestedScopes` and `assertChangedScopeChecksAlone` of the baseline script: argument checks that would only add easy members; why the last one stands is `ChangedScope`.
- Waiting.QueuedCallsLeave: that the host's next hello arrives is not part of it.
- React pages, copy, marks, the demonstration scene and the join page's relay read: no state to keep.
- `ci.ts`, `red-main.ts`, `release.ts` and the other scripts: calls of other programs.
- The conversations and views of the app: not part of this model.
