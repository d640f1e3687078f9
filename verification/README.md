# Verified model of the voting platform's integrity core

This project models four connected parts of the platform and proves what they promise.

* **The audit hash chain.** One append-only log carries a global chain and one chain for every group, voting and
  survey. `Serialization` and `AuditChain` give the text that is hashed, `ChainStore` the queries of one scope,
  `ChainScan` the verification loop, `AuditState` the effect of every operation on log, counters, markers and
  checkpoints, and `AuditServices` the same operations as a class that updates its fields. The results are in
  `AuditRuns` (append runs, lost numbers), `AuditRecords` (what the log records, and the hashed string read back),
  `AuditGate` and `AuditStamps` (markers, stamps and the secure status, earned and had), `ScanAgreement`
  (incremental against full scans), `AuditCommitment` and `AuditSeals` (checkpoints), `AuditTampering`,
  `AuditForensics` and `AuditEdits` (exact fault location); `PlainPayload` says when the hashed text determines the
  payload, with the printed scalars of `Scalars`; `AuditOverwrites` and `AuditWitnesses` have what direct overwrites do
  to the gate and to the forensic query, and `AuditRecut` the re-cutting of a hashed string.
* **RSA blind signatures.** `Euclid` (truncated division, gcd, Bezout, inverse), `Primes` (Fermat's little theorem and
  the RSA identity from two distinct primes), `Hex` (the padded encodings), `BlindSign` (the protocol)
  and `SignatureTexts` (every text that is accepted as a signature).
* **Tokens and ballots.** `VotingStore` is the stored state and the effect of each call, `VotingTallies`,
  `VotingInvariants` and `VotingGuarantees` hold the proofs over all runs, `VoteEffects`, `VotingReads` and `VotingEdits`
  what each call writes, shows and refuses, `VoteServices` the class, `RedisLock`, `VoteLock`, `VoteOnce` and
  `LockProgress` the locks with expiry in small steps, `SharedTokens` the table of pending ballots shared with surveys,
  `SealRace` votes and finalising in small steps, and `HonestVoter` joins the protocol to the arithmetic.
* **Survey counters.** `SurveyStore` has the submission with its nested loops and the Redis hashes, `SurveyAnswers`
  what a submission stores for what it asked, `SurveyCounters`, `SurveyEntries`, `SurveyGuarantees`, `SurveyResults`,
  `SurveyOptions` and `SurveySealing` the proofs about counters and results, `SurveyWitnesses` the failing runs, and
  `SubmitServices` the class. `Rows` is the unique index both services insert into. `FinalizeGate` ties sealing in both
  services to the audit chain.

Each method of a class is proved to have exactly the effect of a function on the stored state; the theorems are about
those functions and the runs made of them. Check everything with `dafny verify dfyconfig.toml`.

## Assumptions and conventions

* A number in a payload is given by the text that String prints for it, which tells any two numbers apart but 0 and -0.
  Such texts follow the cases of section 6.1.6.1.20 of ECMA-262; some decimals of 16 or 17 digits have that shape
  without being the shortest for their value. A date is its ISO text, and exactly the existing dates are admitted.
* SHA-256 and the ISO text of block times are parameters. Where a result needs it, the hash is assumed collision-free with
  non-empty hexadecimal output, dates to be determined by their text, and action names and stored hashes of the blocks
  the service writes to be free of the separator `|`; the payload is not restricted, and nothing of the kind is assumed
  of a log that may have been edited. Keyed receipt hashes are modelled by what they are computed from,
  which takes them to be collision-free; encryption of a tally is taken to be undone by decryption.
* The four verification methods of the audit service differ in the scope they query and in the first expected number:
  only the voting scan expects 1. They are one scan with a scope parameter. Appends run one at a time, as the queue's
  concurrency of one makes them; the locking described above `processAppendInternal` does not exist, and the model
  follows the code.
* Votes, reads, edits and submissions are atomic steps, except in `VoteLock`, `VoteOnce`, `LockProgress` and `SealRace`,
  where their transactions are. Redis and database calls other than the modelled unique indexes do not fail, apart from
  the audit insert, which may; Redis may lose survey keys and results snapshots at any time. Clocks, random choices and
  new row ids are parameters. The vote, snapshot and lock clocks are integers in any order the run gives them.
* `history` in the voting and survey states records accepted calls for the proofs, and `lost` in the survey state when
  Redis last lost a key. The program does not store them, no operation reads them, and in the classes they are ghost
  fields.
* The database schema names the ballot column `signatureToken` and makes it unique, while the services write
  `blindSignature` on every ballot of a call. The model follows the services and keeps the unique `ballotHash`.
* A voting's `allowAbstain` flag is checked by no operation, so the model has no such field.
* An accepted `retyped` field of a voting update takes part in the bounds check and is then not stored, as in the code.

## What does not hold, and when

* `modInverse` refuses some values that are coprime to the modulus when they are negative; no caller passes one
  (`Euclid.ModInverseRefusesNegativeUnit`). It is exact if and only if the signed gcd is not -1
  (`Euclid.ModInverseIsExactIff`), which covers every non-negative value.
* An incremental scan can pass where a full one fails if the marker's own block is missing
  (`ChainScan.IncrementalNeedsMarkerBlock`). The two agree exactly when the blocks up to the marker pass and both treat
  the first block after it alike (`ScanAgreement.IncrementalAgreesIff`); with the marker's block stored, exactly when
  the blocks up to the marker pass.
* A checkpoint commits to its chain exactly when the sealed block still carries the scope's id, because ids are not
  hashed, and no separator has got into the fields of the chain up to it, because the fields are joined unescaped and
  payloads may hold the separator (`AuditCommitment.CheckpointCommits`). Removing the id of a sealed block escapes every
  check (`AuditCommitment.RelabellingEscapesSeal`), and so does cutting its hashed string anew
  (`AuditRecut.RecuttingEscapesSeal`, `AuditRecut.TitleEscapesSeal`). In the global scope position, hash and hashed
  string are fixed all the same (`AuditCommitment.GlobalCheckpointCommits`).
* The forensic query returns the overwritten block and the next, tagged, if and only if the block is not sealed
  (`AuditForensics.ReturnsPairIffUnsealed`). If it is, the query looks in the scope for its global number, and the block
  appears exactly when its scope number is that number or the one before (`AuditForensics.SealedTamperIsReturnedIff`);
  in reachable runs nothing is returned (`AuditWitnesses.SealedTamperGoesUnreturned`).
* A secure status means a valid chain only while no overwrite changes a block the marker covers
  (`AuditOverwrites.SecureUnlessExposed`, `AuditOverwrites.OverwriteKeepsGateIff`); after one, a voting can be finalised
  on a broken chain (`AuditOverwrites.FinalizedOnBrokenChain`).
* Participations are not always unspent tokens or accepted votes: a survey can spend a voting's token
  (`SharedTokens.TokenDivertedToSurvey`). They are exactly when no survey has
  (`VotingGuarantees.ParticipationsAreAccountedFor`).
* A voting can count more votes than participants, since it accepts tokens that surveys issued
  (`SharedTokens.SurveyTokenVotes`); `VotingGuarantees.VotesWithinParticipantsIff` says exactly when it does not, and
  without survey tokens it never does (`VotingGuarantees.VotesNeverExceedParticipants`).
* The lock and the pending ballot alone do not keep a token to one commit: an expired lock
  (`VoteOnce.ExpiryAllowsTwoCommits`) or two users (`VoteOnce.UsersAllowTwoCommits`) let two calls for different options
  both commit. A token is committed at most once in every run exactly when any two calls that may commit it share a
  receipt (`VoteOnce.OnceIff`), and in every run without an overrun lock exactly when any two such calls by different
  users do (`VoteOnce.TimelyOnceIff`). Receipts are keyed on the text of the signature, and every accepted text has
  others, so even two calls for one option need not share one (`SignatureTexts.OneOptionCommitsTwice`).
* Survey submissions take no lock, so a survey token is submitted at most once exactly when any two submissions with it
  share a receipt (`VoteOnce.SubmittedOnceIff`), and two abstentions never do (`VoteOnce.AbstentionsCommitTwice`).
* A vote admitted before a voting is finalised can be stored after the seal (`SealRace.AcceptedVoteOutlivesSeal`). The
  sealed tally is the live one exactly when no vote came after its count (`SealRace.SealIsLiveIff`); with votes and
  finalising as atomic steps it always is (`VotingGuarantees.SealedForGood`).
* An option's text is not always kept once its voting has ballots, because the option is not looked for in the voting
  that is named (`VotingEdits.VotedOptionIsRetexted`). It is kept by every call exactly when no other voting is open
  without ballots (`VotingEdits.VotedOptionKeepsTextIff`).
* Deleting or replacing the last block of a chain goes unnoticed by every scan; anywhere else the scans and the
  forensic query report it as `AuditEdits.DeletedBlockIsReported` and `AuditEdits.ReplacedBlockIsReported` say.
* Survey counters part from the stored ballots over repeated Other texts (`SurveyWitnesses.RepeatedOtherText`) and after
  lost keys; they agree exactly when there is neither (`SurveyGuarantees.CountersAgreeIff`).
* Results read from the ballots after a lost key count dynamic options twice (`SurveyWitnesses.LostHashShowsTwice`), and
  responses read from the ballots count ballots (`SurveyWitnesses.LostCounterShowsBallots`). Shown numbers are the
  stored ones exactly under the conditions of `SurveyResults.ShownIsStoredIff`, option by option
  `SurveyOptions.OptionShownIff`, and `SurveySealing.ResponsesShownIff`.
* The serialised payload is not injective (`Serialization.SerializationNotInjective`,
  `PlainPayload.ImpurePayloadsCollide`, `PlainPayload.KeyColonCollides`), not even on the plain payloads of the
  services, because a number and the string that spells it print alike (`PlainPayload.OptionCountCollides`). For plain
  payloads the text determines the payload up to key order and the kinds of scalars, and up to key order where no
  string spells another scalar (`PlainPayload.TextDeterminesPayload`); every plain payload with such a string collides
  (`PlainPayload.SpelledCollides`). Commitments to the text are commitments to the payload to that extent
  (`AuditCommitment.AgreementReachesPayloads`).

## Model

| member | source | states |
|---|---|---|
| `BlindSign.ModPow` | frontend/lib/security/blindSign.ts:28-37 | Square-and-multiply is congruent to the power for every base and non-zero modulus; for a modulus of absolute value above 1 it is exactly the truncated remainder of the power, and an error only for modulus 0 |
| `Euclid.JsDivision` | frontend/lib/security/blindSign.ts:41-42 | BigInt `%` and `/` truncate toward zero: quotient times divisor plus remainder is the dividend, the remainder is smaller than the divisor and has the dividend's sign |
| `Euclid.Egcd` | frontend/lib/security/blindSign.ts:39-43 | The recursion ends, its first value is the result of the gcd loop, and the other two are Bezout coefficients for it, for all integers |
| `Euclid.GcdLoop` | frontend/lib/security/blindSign.ts:64-69 | The loop returns the recursive gcd of its arguments |
| `Euclid.GcdDividesBoth` | frontend/lib/security/blindSign.ts:64-69 | That result divides both arguments |
| `Euclid.GcdIsOneIffCoprime` | frontend/lib/security/blindSign.ts:86 | The loop ends at 1 or -1 exactly for coprime arguments, whatever their signs |
| `Euclid.ModInverseThrowsIffNotCoprime` | frontend/lib/security/blindSign.ts:45-49 | For a non-negative value and a positive modulus the inverse throws exactly when they are not coprime, and otherwise lies in [0, m) and inverts |
| `Euclid.ModInverseIsExactIff` | frontend/lib/security/blindSign.ts:45-49 | For every value and positive modulus the inverse is refused exactly for non-units if and only if the gcd loop on the truncated remainder does not end at -1 |
| `Euclid.ModInverseRefusesNegativeUnit` | frontend/lib/security/blindSign.ts:45-49 | A concrete negative unit that is coprime to the modulus and still refused, because the truncated remainder makes the gcd -1 |
| `Primes.RsaIdentity` | backend/src/common/utils/crypto-utils.ts:56-87 | For a modulus of two distinct primes and inverse exponents, private then public operation and public then private one give back every value (sections 5.2.1 and 5.2.2 of RFC 8017) |
| `Hex.PaddedRoundTrip` | frontend/lib/security/blindSign.ts:103-107 | Parsing the padded hexadecimal text of a number gives the number |
| `Hex.ResidueWidth` | frontend/lib/security/blindSign.ts:107 | A residue written in hexadecimal fits the width of the modulus text, so the padded text has exactly that width |
| `BlindSign.BlindToken` | frontend/lib/security/blindSign.ts:97-108 | For every integer r, the text of the remainder of T times r to the e, padded to the modulus width, with a minus sign if it is negative, and an error for bad hexadecimal or modulus 0 |
| `BlindSign.VerifyBlindSignature` | backend/src/common/utils/crypto-utils.ts:78-87 | The comparison of the signature raised to e with the token |
| `BlindSign.UnblindedValue` | frontend/lib/security/blindSign.ts:113-121 | Signing a blinded value and multiplying by an inverse of r leaves T to the d |
| `BlindSign.BlindSignatureFlow` | frontend/lib/security/blindSign.ts:97-121 | Blinding, signing and unblinding succeed through every padded encoding and give exactly T to the d mod n whatever r was; the server accepts it for T exactly when T is below n (the unpadded core of sections 4.2 to 4.4 of RFC 9474) |
| `BlindSign.AcceptedIffReduced` | backend/src/common/utils/crypto-utils.ts:78-87 | A signature on T verifies exactly when T is below n |
| `BlindSign.BlindedIsUnit` | frontend/lib/security/blindSign.ts:106 | Blinding a unit with a unit gives a unit |
| `BlindSign.BlindingInjective` | frontend/lib/security/blindSign.ts:106 | Two blinding factors below n that blind the same unit token to the same value are equal |
| `BlindSign.BlindingPermutesUnits` | frontend/lib/security/blindSign.ts:97-108 | Every unit is the blinded value of a given unit token for exactly one unit r below n, so the blinded value says nothing about the token |
| `Serialization.KeyOrderIrrelevant` | backend/src/audit/audit.service.ts:40-56 | Two payload trees that differ only in the order of object keys, at any depth, serialise to the same text |
| `Serialization.SerializationNotInjective` | backend/src/audit/audit.service.ts:49-53 | Two different payloads with the same text, since values are not quoted |
| `PlainPayload.TextDeterminesPayload` | backend/src/audit/audit.service.ts:40-56 | For payloads whose texts are non-empty and hold no comma or bracket, and whose keys hold none nor a colon, the text determines the payload up to key order and the kinds of its scalars, and no more; when moreover no string spells a number, a boolean, a date or a missing value, up to key order |
| `PlainPayload.SpellsScalarIff` | backend/src/audit/audit.service.ts:41-55 | A string spells another scalar exactly when a missing value, a boolean, a date that exists or a number text prints as it; number texts follow the cases of Number::toString with at most 17 significant digits |
| `PlainPayload.SpelledCollides` | backend/src/audit/audit.service.ts:40-56 | Every plain payload with such a string, at any depth, shares its text with a different plain payload of the model |
| `PlainPayload.KindsCollide` | backend/src/audit/audit.service.ts:55 | Two scalars of different kinds that print alike, under any key, give different payloads with one text |
| `PlainPayload.OptionCountCollides` | backend/src/votings/vote.service.ts:292-294 | The option count of a vote as a number and as a string are such payloads |
| `PlainPayload.AbstentionFlagCollides` | backend/src/votings/vote.service.ts:292-294 | The abstention flag as a boolean and as a string are such payloads |
| `PlainPayload.ImpurePayloadsCollide` | backend/src/audit/audit.service.ts:40-56 | An empty text and a text of brackets each share their text with another payload |
| `PlainPayload.KeyColonCollides` | backend/src/audit/audit.service.ts:49-52 | A colon in a key shares its text with one in a value |
| `AuditCommitment.AgreementReachesPayloads` | backend/src/audit/audit.service.ts:60-88 | Chains that agree in the hashed fields of plain payloads agree in the payloads up to key order and kinds, and up to key order where no string spells another scalar |
| `AuditChain.PreimageInjective` | backend/src/audit/audit.service.ts:73-85 | The hashed string determines all four numbers and previous hashes including which are absent, the action, the payload text and the time, even when the payload text holds the separator |
| `AuditChain.HashIgnoresKeyOrder` | backend/src/audit/audit.service.ts:60-88 | A block's recomputed hash does not depend on the key order in which its payload is read back |
| `AuditChain.NotGenesis` | backend/src/audit/audit.service.ts:116-121 | No block hashes to a genesis hash, so a chain cannot close on itself |
| `AuditChain.EqualHashes` | backend/src/audit/audit.service.ts:60-88 | Equal block hashes mean equal hashed fields, given a collision-free hash |
| `ChainScan.Scan` | backend/src/audit/audit.service.ts:1178-1267 | The verdict names the first block with a gap, an earlier time, a wrong hash or a wrong link, in that order of checks, and is valid exactly when there is none |
| `ChainScan.IncrementalRefinesFull` | backend/src/audit/audit.service.ts:1111-1286 | From a marker whose block is stored and whose prefix passes, the incremental scan and the full one give the same verdict, brokenAt and fault, in every scope; totalChecked differs by the blocks skipped |
| `ChainScan.IncrementalNeedsMarkerBlock` | backend/src/audit/audit.service.ts:1166-1176 | A log where the marker's block is missing: the incremental scan passes and the full one reports the gap |
| `ScanAgreement.IncrementalAgreesIff` | backend/src/audit/audit.service.ts:1111-1286 | For every log with unique numbers and every marker, present or missing, the two scans agree in verdict and brokenAt exactly when the blocks up to the marker pass and both treat the first block after it alike |
| `ScanAgreement.StoredMarkerAgreesIff` | backend/src/audit/audit.service.ts:1166-1176 | With the marker's block stored they agree exactly when the blocks up to the marker pass |
| `ScanAgreement.MissingMarkerAgreesIff` | backend/src/audit/audit.service.ts:1154-1199 | With it missing, after a stored block or in the voting scan, they agree exactly when the blocks before pass and the incremental scan reads nothing or stops at its first block |
| `ChainStore.QueryFacts` | backend/src/audit/audit.service.ts:1115-1152 | The sorted query returns exactly the blocks of the scope after the marker |
| `ChainStore.AppendQuery` | backend/src/audit/audit.service.ts:589-683 | An appended block with a new largest number extends its scope's chain at the end and leaves the other chains as they were |
| `AuditRecords.HashedStringReadsBack` | backend/src/audit/audit.service.ts:60-88 | Cut at its separators, the hashed string of a block without separators in its texts gives back the links and decimal numbers of its scopes, the action, the payload text and the time, in that order |
| `AuditRecords.GenesisHashesDiffer` | backend/src/audit/audit.service.ts:116-121 | Chains of different scopes start at different hashes |
| `AuditRuns.SuccessfulRunsAreValid` | backend/src/audit/audit.service.ts:571-697 | After any run of one-at-a-time appends with a clock that never goes back, interleaved with verifications, each scope is numbered 1..k with its counter at k, starts at its genesis hash, links each block to its predecessor in that scope, and passes the full scan with totalChecked k |
| `AuditRuns.NeverRejected` | backend/src/audit/schemas/audit-chain.schema.ts:68-90 | With a collision-free hash the unique indexes never refuse a one-at-a-time append |
| `AuditRuns.FailingRunsAreLocated` | backend/src/audit/audit.service.ts:571-697 | When appends may fail after taking numbers, the full scan is valid exactly when no number up to the last stored one was lost; otherwise brokenAt is the first stored number after the first lost one. The voting scan counts from 1, the others from the first stored number |
| `AuditRuns.RunKeepsChain` | backend/src/audit/audit.service.ts:571-697 | The invariant of all runs: unique numbers within the counters, correct hashes, links and times in every scope |
| `AuditRuns.AppendKeepsChain` | backend/src/audit/audit.service.ts:571-697 | One append, stored or refused, keeps that invariant |
| `AuditRecords.RunRecords` | backend/src/audit/audit.service.ts:571-697 | After any successful run the chain of every scope records, in order, the action, payload, user, group, voting, survey and time of each append that touches it, and nothing else |
| `AuditRecords.IndexesHold` | backend/src/audit/schemas/audit-chain.schema.ts:68-90 | Whatever fails, over every run no two blocks share a hash or a number in any scope |
| `AuditRecords.RunsNumberWhereNamed` | backend/src/audit/audit.service.ts:571-583 | Over every run each stored block has a number and a link in a group, voting or survey exactly when it names one by an id that is not empty |
| `AuditRecords.FailedAppendTakesNumbers` | backend/src/audit/audit.service.ts:571-583 | A failed insert stores nothing and still takes a number in every scope it was for |
| `AuditRecords.LostNumberIsReported` | backend/src/audit/audit.service.ts:1184-1199 | After any successful run with n blocks of a voting, a failed and then a successful append to it make the full scan break at number n+2 with n+1 missing |
| `AuditGate.VerifyKeepsMarker` | backend/src/audit/audit.service.ts:1085-1286 | A verification, throttled, refused by a checkpoint, broken or valid, leaves a marker that covers only blocks that pass |
| `AuditGate.AppendKeepsMarker` | backend/src/audit/audit.service.ts:571-697 | An append leaves every marker covering only blocks that pass |
| `AuditGate.SecureStatusIsEarned` | backend/src/audit/audit.service.ts:125-203 | From any stored log within its indexes and counters with no marker for the scope, over every run of appends, verifications, resets and checkpoints and without direct overwrites, a secure status means the full scan of the scope is valid |
| `AuditStamps.VerificationMarks` | backend/src/audit/audit.service.ts:125-145 | What a verification writes: a scan that passes marks the last number and, only if it was full, stamps its time; a broken one takes the marker to 0 and keeps the stamp; nothing checked, throttled or a broken checkpoint writes nothing |
| `AuditStamps.StampMoves` | backend/src/audit/audit.service.ts:125-145 | In every step of every kind the stamp of a scope changes only by a full verification of that scope that passes, to its time |
| `AuditStamps.ResetMarks` | backend/src/audit/audit.service.ts:375-402 | A reset takes the marker to 0 and keeps the stamp |
| `AuditStamps.RunKeepsSeals` | backend/src/audit/audit.service.ts:711-782 | Over every run without direct edits, failed inserts included, every checkpoint stays respected |
| `AuditStamps.FullVerificationPasses` | backend/src/audit/audit.service.ts:1085-1110 | After any successful run a full verification is throttled exactly within a day of the last stamp, and otherwise passes with the number of appends, marks it and stamps the time |
| `AuditStamps.IncrementalCatchesUp` | backend/src/audit/audit.service.ts:1111-1286 | After any successful run an incremental verification passes, checks exactly the blocks above the marker, moves the marker to the number of appends and keeps the stamp |
| `AuditStamps.SecureIff` | backend/src/audit/audit.service.ts:155-203 | After any successful run the status is secure exactly within a day of the stamp and with the marker at the number of appends |
| `AuditStamps.StaysSecure` | backend/src/audit/audit.service.ts:125-203 | Any successful run with an append to the scope, a full verification that is not throttled, any further successful run and one incremental verification: the marker is the number of appends and the status is secure at every moment within a day of the full verification |
| `FinalizeGate.FinalizedVotingHasValidChain` | backend/src/votings/vote.service.ts:530-536 | After such runs, finalising a voting succeeds only when its whole audit chain passes the full scan |
| `FinalizeGate.FinalizedSurveyHasValidChain` | backend/src/surveys/submit.service.ts:434-440 | After such runs, finalising a survey succeeds only when its whole audit chain passes the full scan |
| `FinalizeGate.WatchedVotingIsFinalized` | backend/src/votings/vote.service.ts:521-536 | And after such a run the gate opens: an ended voting is finalised |
| `FinalizeGate.WatchedSurveyIsFinalized` | backend/src/surveys/submit.service.ts:424-440 | The same for a survey |
| `AuditOverwrites.SecureUnlessExposed` | backend/src/audit/audit.controller.ts:180-192 | Over every run that also overwrites hashes at any point, a secure status still means a valid full scan as long as no overwrite changes a block its scope's marker covers at that moment |
| `AuditOverwrites.OverwriteKeepsGateIff` | backend/src/audit/audit.controller.ts:180-192 | On a chain that passes, an overwrite keeps the markers sound exactly when it changes no block the marker covers; if it changes one, the full scan breaks and the status stays what it was at every time |
| `AuditOverwrites.FinalizedOnBrokenChain` | backend/src/votings/vote.service.ts:530-536 | After any successful appends and a full verification, overwriting the hash of any block of a voting leaves the status secure for the day, and the voting is finalised on a chain that fails the full scan |
| `AuditCommitment.CommonHash` | backend/src/audit/audit.service.ts:1214-1265 | A chain as it was written and any chain that passes up to a block with the same hash: positions and all hashed fields up to it coincide exactly when no separator has got into the fields of the second, by induction back to genesis |
| `AuditCommitment.CheckpointCommits` | backend/src/audit/audit.service.ts:711-782 | In any scope, with nothing assumed of the later log but that it passes and respects the seal: the sealed chain is fixed block by block exactly when the sealed block still carries the scope's id, since ids are not hashed, and no separator has got into the fields of the chain up to it, since fields are joined unescaped |
| `AuditCommitment.RelabellingEscapesSeal` | backend/src/audit/audit.service.ts:644-682 | Removing only the voting id of a sealed block: both logs pass, the seal is respected and the later voting chain is empty |
| `AuditCommitment.FirstBlockEscapesSeal` | backend/src/audit/audit.service.ts:571-697 | The first block appended for any voting is such a block |
| `AuditCommitment.GlobalCheckpointCommits` | backend/src/audit/audit.service.ts:711-782 | In the global scope the later log always begins with the sealed blocks in position, hash and hashed string, none missing and none inserted; each agrees in every hashed field exactly when no separator has got into its own fields |
| `AuditRecut.RecuttingEscapesSeal` | backend/src/audit/audit.service.ts:73-85 | Whenever a sealed payload's text splits at a separator before the text of some payload, the same string can be cut into another action and payload: in every scope of the block both logs pass and the seal is respected |
| `AuditRecut.TitleEscapesSeal` | backend/src/votings/votings.controller.ts:97-104 | The first block ever appended, for a voting with such a title, is such an input: after the seal it can carry another title |
| `AuditSeals.CheckpointSealsLast` | backend/src/audit/audit.service.ts:711-747 | A checkpoint is made exactly when the scope has a block and its last one is not sealed in it, and adds the global number and the hash of the block with the largest number behind the earlier ones |
| `AuditSeals.LeastBrokenSealIsReported` | backend/src/audit/audit.service.ts:749-782 | Of the checkpoints whose block is missing or has another hash, in whatever order they were stored, the one with the least number is reported; none exactly when all are respected |
| `AuditSeals.VerificationStopsAtSeal` | backend/src/audit/audit.service.ts:1085-1110 | A full verification is throttled exactly within a day of the stamp; otherwise a broken checkpoint stops it before the scan and nothing is written |
| `AuditTampering.FullScanLocatesTamper` | backend/src/audit/audit.service.ts:361-366 | Overwriting only the hash of block k of a valid chain: the full scan reports the tampered hash at k with the original hash as expected |
| `AuditForensics.ForcedReport` | backend/src/audit/audit.service.ts:396-402 | After the overwrite, outside the throttle and with every checkpoint respected before, the forced verification stops at the block's checkpoint if it is sealed and else gives the full scan's report |
| `AuditForensics.ReturnsPairIffUnsealed` | backend/src/audit/audit.service.ts:375-469 | The query returns exactly block k and block k+1 if there is one, tagged with the corrupted and the original hash, if and only if no checkpoint seals block k |
| `AuditForensics.SealedTamperIsReturnedIff` | backend/src/audit/audit.service.ts:506-538 | If it is sealed, the checkpoint's global number is read as a number of the scope: the query returns block k exactly when its scope number is its global one or the one before, and as the tampered block only in the second case |
| `AuditWitnesses.SealedTamperGoesUnreturned` | backend/src/audit/audit.service.ts:506-538 | A reachable failing input: after any two or more successful appends outside a voting, its first block is stored, sealed and overwritten, and the query returns nothing |
| `AuditTampering.IncrementalScanAfterTamper` | backend/src/audit/audit.service.ts:1178-1267 | A scan from marker L then reports k when k > L, the broken link at L+1 when k = L and that block exists, and valid otherwise |
| `AuditEdits.FaultMeans` | backend/src/audit/audit.service.ts:1184-1265 | What each fault of the full scan says of its block, and that the checks made before it have passed; no fault means that number, time, hash and link are all right |
| `AuditEdits.IncrementalStopsFirstIff` | backend/src/audit/audit.service.ts:1159-1265 | An incremental scan stops at the first block it reads exactly when its number is not the one after the marker, its hash is wrong or, with the marker's block stored, its time or link does not follow that block |
| `AuditEdits.DeletedBlockIsReported` | backend/src/audit/audit.service.ts:1184-1199 | A log without block k of a chain that passed: the last block goes unnoticed; else a gap is reported at the next block, or a broken link for the first block outside a voting |
| `AuditEdits.DeletedBlockIsReturnedAs` | backend/src/audit/audit.service.ts:423-469 | The forensic query then returns exactly the block after the hole, as a victim without an expected hash for a gap, with the genesis hash for a broken link |
| `AuditEdits.ReplacedBlockIsReported` | backend/src/audit/audit.service.ts:1200-1265 | Block k replaced by another with its number and link and a recomputed hash: reported at its own time, at the next block's time or at the next block's link; not at all when it is the last |
| `AuditEdits.ReplacedBlockIsReturned` | backend/src/audit/audit.service.ts:403-469 | The forensic query then returns exactly the replaced block and the one the report names beside it, with the hashes of either |
| `AuditServices.AuditService.constructor` | backend/src/audit/audit.service.ts:92-114 | A new service holds an empty log without counters, markers or checkpoints |
| `AuditServices.AuditService.TakeNumbers` | backend/src/audit/audit.service.ts:572-583 | The counters of exactly the scopes in the context go up by one and give the numbers |
| `AuditServices.AuditService.Insert` | backend/src/audit/schemas/audit-chain.schema.ts:68-90 | A block is stored exactly when no unique index and no other failure refuses it |
| `AuditServices.AuditService.ProcessAppend` | backend/src/audit/audit.service.ts:571-697 | The new state is that of one append: numbers taken even when the insert fails, links from the last block of each scope or its genesis hash |
| `AuditServices.AuditService.SetLastVerifiedSequence` | backend/src/audit/audit.service.ts:125-145 | Writes the marker and stamps the time only for a full verification |
| `AuditServices.AuditService.SealCheckpoint` | backend/src/audit/audit.service.ts:711-747 | Seals the global number and hash of the scope's last block; an empty chain or a second seal at the same number is an error |
| `AuditServices.AuditService.VerifyCheckpoints` | backend/src/audit/audit.service.ts:749-782 | The first checkpoint, by number, whose block is missing or has another hash |
| `AuditServices.AuditService.ScanDocs` | backend/src/audit/audit.service.ts:1154-1267 | The loop over the cursor computes the scan's verdict and the last number |
| `AuditServices.AuditService.VerifyChain` | backend/src/audit/audit.service.ts:1078-1286 | Throttle, checkpoints, scan and marker writes have exactly the effect and verdict of the state function, for any scope |
| `AuditServices.AuditService.GetAuditStatus` | backend/src/audit/audit.service.ts:155-203 | The status computed from the marker, the largest number and the 24-hour window |
| `AuditServices.AuditService.GetCompromisedBlocks` | backend/src/audit/audit.service.ts:375-539 | Always a full scan, after an optional marker reset, and the records tagged by its fault |
| `AuditServices.AuditService.TamperHash` | backend/src/audit/audit.service.ts:361-366 | Overwrites one hash past the append-only hooks unless the unique index refuses it |
| `RedisLock.LockStore.AcquireLock` | backend/src/redis/redis.service.ts:53-57 | Takes the key exactly when no live token holds it |
| `RedisLock.LockStore.ReleaseLock` | backend/src/redis/redis.service.ts:59-68 | Deletes the key exactly when it still holds this token |
| `LockProgress.TakenForItsLifetime` | backend/src/redis/redis.service.ts:53-57 | A key taken when it is free is seen for exactly its lifetime |
| `LockProgress.HeldUntilReleased` | backend/src/redis/redis.service.ts:53-68 | A live key can be taken by nobody, and is deleted by exactly the holder of its token |
| `VoteLock.CriticalSectionsNeverOverlap` | backend/src/votings/vote.service.ts:141-268 | In every interleaving of any users' calls in which no call outlives its lock, two calls of one user are never both between taking and releasing it |
| `VoteLock.TimelyRunsStayExclusive` | backend/src/votings/vote.service.ts:141-268 | The inductive form: every timely step keeps each working call the owner of its user's live lock |
| `VoteLock.ReleaseSparesOthers` | backend/src/redis/redis.service.ts:59-68 | After every run, timely or not, each lock was taken by a call of its own user, and a release removes a lock only if the releasing call is that one |
| `LockProgress.ReleaseFrees` | backend/src/votings/vote.service.ts:366-370 | The release by the call that holds its user's live lock removes that key and no other |
| `LockProgress.NextCallEnters` | backend/src/votings/vote.service.ts:149-151 | After it, a waiting call of that user that acquires next is let in |
| `LockProgress.LockedIffBusy` | backend/src/votings/vote.service.ts:141-370 | After every timely run a user has a lock, live or not, exactly while one of the user's calls is at work |
| `LockProgress.EntersIffIdle` | backend/src/votings/vote.service.ts:149-151 | After every timely run a waiting call is let in, for 15 seconds, exactly when no call of its user is at work, and is otherwise refused with nothing changed |
| `LockProgress.IdleUserCommits` | backend/src/votings/vote.service.ts:141-370 | So a waiting call of an idle user with a pending token and fitting receipts commits, spends the token, stores its receipts and leaves the user idle |
| `LockProgress.EmptyCallLeavesNoTrace` | backend/src/votings/vote.service.ts:141-370 | And one that commits nothing, for whichever reason, ends and leaves everything else as it was |
| `LockProgress.NoBallotIsLost` | backend/src/votings/votings.repository.ts:248-266 | Over every run, timely or not, the table gains exactly the ballots of the commits whose receipts are all different and new |
| `VoteOnce.OnceIff` | backend/src/votings/vote.service.ts:141-268 | Over all runs, whatever expires, a pending token is committed at most once in every run exactly when any two calls that may commit it share a receipt, which the unique index on ballot hashes then refuses |
| `VoteOnce.TimelyOnceIff` | backend/src/votings/vote.service.ts:141-268 | Over the runs in which no call outlives its lock, it is committed at most once in every run exactly when any two calls by different users that may commit it share a receipt |
| `VoteOnce.SubmittedOnceIff` | backend/src/surveys/submit.service.ts:161-332 | A survey submission takes no lock, so over all interleavings a token is submitted at most once exactly when any two submissions that may be accepted with it share a receipt |
| `VoteOnce.AbstentionsCommitTwice` | backend/src/surveys/submit.service.ts:323-332 | Any two abstentions with one token have an interleaving in which both are accepted, since they store no ballots |
| `VoteOnce.ExpiryAllowsTwoCommits` | backend/src/votings/vote.service.ts:150-268 | One user, two different options, one expired lock: both calls store ballots for the same token |
| `VoteOnce.UsersAllowTwoCommits` | backend/src/votings/vote.service.ts:141-158 | Two users presenting one token for two different options, nothing expired: both calls store ballots, since the lock key holds the user |
| `SignatureTexts.AcceptedTextIff` | backend/src/common/utils/crypto-utils.ts:78-87 | A text is accepted for a token T exactly when T is below n and the text's value is T to the d modulo n |
| `SignatureTexts.AddedModulus` | backend/src/common/utils/crypto-utils.ts:78-87 | Adding the modulus to the value gives another text, accepted alike |
| `SignatureTexts.OneOptionCommitsTwice` | backend/src/common/utils/crypto-utils.ts:220-229 | A leading zero gives another accepted text with another receipt, so two calls for the same option can both commit one token |
| `VotingTallies.BallotsAreConserved` | backend/src/votings/votings.repository.ts:231-278 | The counts of a voting's options and its abstentions add up to its ballots, in any store with sound references |
| `VotingTallies.SealedResultsAreLive` | backend/src/votings/vote.service.ts:400-435 | Results read from a tally that matches the ballots equal a recount in every field |
| `VotingInvariants.ReachableHolds` | backend/src/votings/vote.service.ts:42-576 | Sound references, participation accounts, fresh snapshots and matching seals hold in every state reached by any sequence of creating, signing, voting, reading, finalising, editing, deleting and cache eviction, with surveys issuing and spending tokens of the shared table |
| `VotingInvariants.VoteKeeps` | backend/src/votings/vote.service.ts:131-371 | A vote, refused, for practice or accepted, keeps that invariant |
| `VotingInvariants.SignKeeps` | backend/src/votings/vote.service.ts:42-81 | Issuing a signature keeps it |
| `VotingInvariants.GetResultsKeeps` | backend/src/votings/vote.service.ts:390-500 | Reading results keeps it, whether or not it stores a snapshot |
| `VotingInvariants.FinalizeKeeps` | backend/src/votings/vote.service.ts:521-556 | Finalising keeps it |
| `VotingInvariants.UpdateOptionKeeps` | backend/src/votings/votings.service.ts:175-206 | Changing an option's text keeps it, even though nothing checks that the option belongs to the voting |
| `VotingGuarantees.ParticipationsAreAccountedFor` | backend/src/votings/vote.service.ts:57-81 | In every reachable state the participations of a voting are its unspent non-practice tokens, the accepted votes with its tokens and its tokens that surveys have spent; the first two account for all exactly when no step of the run was a survey spending one |
| `VotingGuarantees.VotesNeverExceedParticipants` | backend/src/votings/vote.service.ts:57-273 | With tokens issued by votings only, the vote counter of a voting never exceeds its distinct participants |
| `VotingGuarantees.VotesWithinParticipantsIff` | backend/src/votings/vote.service.ts:155-160 | In every reachable state that bound holds exactly when the steps that voted in it with survey tokens are no more than its own unspent tokens and the steps that spent one of its tokens in a survey |
| `SharedTokens.SubmissionSpends` | backend/src/surveys/submit.service.ts:161-332 | A survey submission changes the table of pending ballots exactly as the survey step of the voting runs does: an accepted one, and only that, deletes its row, whoever issued it |
| `SharedTokens.RowOpensSurveyIff` | backend/src/surveys/submit.service.ts:165-171 | A row opens a survey exactly when it is live and no other survey issued it, so a voting's row opens every survey |
| `SharedTokens.TokenDivertedToSurvey` | backend/src/surveys/submit.service.ts:165-168 | A run in which a voter's voting token is spent in a survey: one participation, no unspent token and no accepted vote |
| `SharedTokens.SurveyTokenVotes` | backend/src/votings/vote.service.ts:155-160 | A run in which a survey's token votes in a voting without participants: one vote counted |
| `VotingGuarantees.AcceptedIff` | backend/src/votings/vote.service.ts:155-268 | A vote is accepted exactly when its token is pending, unexpired and for this voting, its signature is valid, the voting is open at that time, and the answers are permitted; a non-practice one also needs receipts that are neither stored nor repeated and a free id for a new option. Other text alone is never counted against the choice limits |
| `VotingGuarantees.StorableAfter` | backend/src/votings/votings.repository.ts:248-266 | After one vote is committed another can be stored only if it shares no receipt with it |
| `VotingGuarantees.VoteAddsItsBallots` | backend/src/votings/vote.service.ts:183-268 | An accepted vote adds exactly one ballot per option, Other answer and abstention, at least one, raises each named option's count by exactly one and no other, and spends its token; a practice or refused vote changes nothing |
| `VoteEffects.AcceptedVoteStores` | backend/src/votings/vote.service.ts:211-268 | What an accepted vote stores, by position: one ballot for each chosen option, one for an abstention, one for an Other answer, each with the receipt over voting, choice and signature; the Other answer under the dynamic option with its text or under a new one; the token spent, the counter up by one, the snapshot dropped, nothing else |
| `VoteEffects.FreshSignatureIsAccepted` | backend/src/votings/vote.service.ts:155-268 | A signature no stored ballot carries is enough: choices, Other text or abstention, a vote that meets the guards and repeats no choice is accepted |
| `VoteEffects.EveryoneCanAbstain` | backend/src/votings/vote.service.ts:228-237 | Any number of voters with tokens and signatures of their own can abstain one after another, and each abstention is stored and counted |
| `VoteEffects.PracticeIff` | backend/src/votings/vote.service.ts:171 | An accepted vote is a practice one exactly when the request or the row of its token says so |
| `VoteEffects.RefusedVoteSaysWhy` | backend/src/votings/vote.service.ts:155-208 | A refused vote writes nothing, what its refusal says is so, and no reason looked for earlier is |
| `VotingGuarantees.TokenVotesOnce` | backend/src/votings/vote.service.ts:156-158 | After an accepted vote its token is refused in every later state until it is issued again |
| `VotingGuarantees.TotalsAreTheSum` | backend/src/votings/vote.service.ts:465-483 | In every reachable state the total shown and the total sealed both equal the sum of the counts and the abstentions |
| `VotingGuarantees.EveryReadIsLive` | backend/src/votings/vote.service.ts:390-500 | Every read, from the seal, the snapshot or the ballots, shows the counts, abstentions and total of a fresh recount |
| `VotingReads.ReadShows` | backend/src/votings/vote.service.ts:390-500 | In every reachable state a read succeeds exactly on an existing voting and shows one line for each of its options, static and dynamic apart and in order, with the number of ballots that name it, the abstentions and the number of its ballots; closed exactly when the end time is set and past; the Other answers exactly when the voting allows them, unless the read is answered from the snapshot, whose condition is spelled out |
| `VotingReads.ReadWrites` | backend/src/votings/vote.service.ts:440-497 | A read stores what it recounted for two hours exactly when the voting is open and the snapshot was not used, and the time of the broadcast exactly when it was an unforced read of an open voting with the interval over; nothing else |
| `VotingReads.BroadcastsKeepInterval` | backend/src/votings/vote.service.ts:445-463 | Over all steps the time of the last broadcast moves only by a read of that voting after the interval since the one before |
| `VotingGuarantees.SealedForGood` | backend/src/votings/votings.service.ts:135-219 | Once finalised, through every later step, a voting keeps its sealed tally, the tally still equals the live one, the voting is not deleted, and reads show the sealed total |
| `VotingGuarantees.FinalizeSeals` | backend/src/votings/vote.service.ts:521-576 | Finalising succeeds exactly on an existing, ended, not yet finalised voting with a secure chain, and seals the live tally |
| `VotingEdits.FinalizeWrites` | backend/src/votings/vote.service.ts:521-576 | Finalising writes the mark and the sealed numbers of that moment and nothing else, and what each of its refusals says is so |
| `VotingEdits.SignIff` | backend/src/votings/vote.service.ts:42-104 | A token is issued exactly for an existing voting, under a hash not in use, to a user without a participation or for practice; for an hour, with exactly the rows it writes |
| `VotingEdits.SurveySignIff` | backend/src/surveys/submit.service.ts:48-131 | A survey issues its tokens into the same table, naming no voting, for an hour |
| `VotingEdits.CreateIff` | backend/src/votings/votings.service.ts:36-68 | A voting is created exactly when permitted, with two options or more, bounds that do not cross and nothing of it there yet; it starts open with its options in order |
| `VotingEdits.UpdateIff` | backend/src/votings/votings.service.ts:135-173 | An update succeeds exactly on an existing, open voting, permitted, with bounds that do not cross; it sets the given fields and leaves all others, apart from the writes of the read that follows |
| `VotingEdits.UpdateOptionIff` | backend/src/votings/votings.service.ts:175-206 | A text is changed exactly when the named voting exists, is open and has no ballots and the option exists; the text of that option and nothing else, apart from the writes of the read that follows |
| `VotingEdits.VotedOptionKeepsTextIff` | backend/src/votings/votings.service.ts:189-198 | No call changes the text of an option whose voting has ballots exactly when no other voting is open without ballots, since the option need not be one of the named voting |
| `VotingEdits.VotedOptionIsRetexted` | backend/src/votings/votings.service.ts:189-198 | A run in which the text of an option with a ballot is changed by naming another voting |
| `VotingEdits.DeleteIff` | backend/src/votings/votings.service.ts:208-219 | A voting is deleted exactly when it exists, is open and the user may, and only its mark is set |
| `VotingEdits.DeletedForGood` | backend/src/votings/votings.service.ts:208-219 | Through every later step it stays deleted, and every read finds nothing |
| `SealRace.SealIsLiveIff` | backend/src/votings/vote.service.ts:521-556 | With votes and finalising in small steps, over all interleavings before and after the seal: the sealed tally is the live one exactly when no vote in the voting was stored after what it adds to (the options, or for an abstention the abstentions) had been counted |
| `SealRace.StoredAsCommitted` | backend/src/votings/vote.service.ts:240-268 | The transaction in small steps writes to the tables exactly what the atomic vote does |
| `SealRace.AcceptedVoteOutlivesSeal` | backend/src/votings/vote.service.ts:175-268 | From any start, a vote that would be accepted can be admitted before the guards of finalising and stored after the seal, which is then not the live tally |
| `HonestVoter.HonestVoteIsAccepted` | backend/src/votings/vote.service.ts:131-371 | A voter who blinds a token, has it signed, unblinds and votes for a permitted option within the hour is accepted, whatever the blinding factor |
| `VoteServices.AcceptedReceipts` | backend/src/votings/vote.service.ts:211-268 | The receipts of an accepted vote are those of the ballots it added, in order |
| `VoteServices.PracticeReceipts` | backend/src/votings/vote.service.ts:211-237 | A practice vote gets a receipt for each choice or its abstention, over the signature, and none for an Other answer |
| `VoteServices.VoteService.constructor` | backend/src/votings/vote.service.ts:26-38 | A new service holds the empty store, which satisfies the invariant |
| `VoteServices.VoteService.SignBlindedToken` | backend/src/votings/vote.service.ts:42-81 | The new tables and the outcome are those of the signing step |
| `VoteServices.VoteService.Admit` | backend/src/votings/vote.service.ts:155-208 | The guards of a vote in their order |
| `VoteServices.VoteService.HashBallots` | backend/src/votings/vote.service.ts:211-237 | The loop over the options and the abstention builds the ballots and their receipts |
| `VoteServices.VoteService.CreateBallots` | backend/src/votings/votings.repository.ts:248-266 | All ballots are inserted or, when a receipt is already stored, none |
| `VoteServices.VoteService.StoreVote` | backend/src/votings/vote.service.ts:240-268 | The transaction stores the Other option, the ballots and the spent token together or not at all |
| `VoteServices.VoteService.Vote` | backend/src/votings/vote.service.ts:131-371 | The new state and the outcome are those of the vote step, and the receipts returned are those of the stored ballots in order |
| `VoteServices.VoteService.RecordAccepted` | backend/src/redis/redis.service.ts:72-98 | The vote counter goes up by one and the stale snapshot is dropped |
| `VoteServices.VoteService.GetResults` | backend/src/votings/vote.service.ts:390-500 | Sealed, cached or recounted results with exactly the writes of the reading step |
| `VoteServices.VoteService.FinalizeVoting` | backend/src/votings/vote.service.ts:521-576 | The new state and the tally are those of the finalising step |
| `VoteServices.VoteService.CreateVoting` | backend/src/votings/votings.service.ts:36-68 | Creates a voting with its options, or refuses as the guards say |
| `VoteServices.VoteService.Update` | backend/src/votings/votings.service.ts:135-173 | Updates an open voting and reads its results |
| `VoteServices.VoteService.UpdateOption` | backend/src/votings/votings.service.ts:175-206 | Changes an option text while the voting has no ballots, and reads its results |
| `VoteServices.VoteService.Delete` | backend/src/votings/votings.service.ts:208-219 | Soft-deletes a voting that is not finalised |
| `SurveyCounters.IncrementEffect` | backend/src/redis/redis.service.ts:162-181 | HINCRBY raises one field of one hash by one and leaves every other field and hash alone |
| `SurveyCounters.CountGroupsEffect` | backend/src/redis/redis.service.ts:172-178 | The loop over a submission's answers adds to each question's hash exactly its chosen options and one for Other |
| `SurveyCounters.GroupsCountAnswers` | backend/src/surveys/submit.service.ts:237-312 | The per-question map built by the nested loops matches the built ballots for every question and field, except that all Other texts of a question share one flag |
| `SurveyCounters.CommitCounts` | backend/src/surveys/submit.service.ts:323-348 | What a committed submission does to the counters of any question of any survey |
| `SurveyGuarantees.AdmittedIff` | backend/src/surveys/submit.service.ts:142-222 | A submission passes the guards exactly when the survey is open to it, it has a good token or is for practice, and, unless it abstains, every question is answered well |
| `SurveyGuarantees.QuestionsPassIff` | backend/src/surveys/submit.service.ts:188-222 | The validation loop passes exactly when every required question is answered and every answered multiple-choice question is within its limits |
| `SurveyGuarantees.BuildFits` | backend/src/surveys/submit.service.ts:246-290 | Every ballot built is for a question of the survey and names an existing option of that question, and option ids stay distinct |
| `SurveyAnswers.AcceptedSubmissionStores` | backend/src/surveys/submit.service.ts:246-332 | What an accepted submission stores, by position: for each value of UUID form a ballot for exactly that known option of the question, for any other value and any text a ballot for an option of the question with that text; each with the receipt over the signature; options added only for texts no option of the question has; none for an abstention |
| `SurveyAnswers.DifferentTextsDifferentOptions` | backend/src/surveys/surveys.repository.ts:428-444 | So two texts or scale values given to one question are never stored for one option |
| `SurveyAnswers.FreshSignatureIsAccepted` | backend/src/surveys/submit.service.ts:142-332 | A signature no stored ballot carries is enough: a submission that meets the guards, names known options and repeats none is accepted |
| `SurveyAnswers.PracticeIff` | backend/src/surveys/submit.service.ts:176 | An accepted submission is a practice one exactly when the request or the row of its token says so |
| `SurveyAnswers.PracticeLeavesOptions` | backend/src/surveys/submit.service.ts:246-332 | A practice submission stores no answer and changes nothing but the options, which hold one for each text afterwards |
| `SurveyAnswers.RespondedIff` | backend/src/surveys/submit.service.ts:189-193 | A question is responded to exactly when its first entry has a choice or a text that is not blank |
| `SurveyAnswers.RefusedSubmissionSaysWhy` | backend/src/surveys/submit.service.ts:142-290 | A refused submission stores no answer, what its refusal says is so, and no guard before it would have refused |
| `SurveyGuarantees.RunKeeps` | backend/src/surveys/submit.service.ts:133-395 | Counters, responses, recorded entries and references are kept by every run of issuing, voting with shared tokens, submitting, finalising and losing keys |
| `SurveyGuarantees.CountersAgreeIff` | backend/src/surveys/submit.service.ts:232-348 | In every run, with Redis losing keys at any time, the fields of a question are its stored ballots less those stored before the last loss and less the repeated Other texts; they are equal exactly when there are none of the first and every submission accepted since has at most one entry with Other text for the question; an option's counter never exceeds its ballots |
| `SurveyEntries.RecordedOthers` | backend/src/surveys/submit.service.ts:286-311 | The Other answers built for a question are exactly the entries with text for it, unless it is freeform |
| `SurveyGuarantees.LoseKeeps` | backend/src/redis/redis.service.ts:172-178 | Losing a key keeps the accounts: the lost counters start again from nothing |
| `SurveyWitnesses.RepeatedOtherText` | backend/src/surveys/submit.service.ts:286-311 | A submission with two Other texts for one question: two ballots stored, one counted |
| `SurveyResults.SingleEntriesAgree` | backend/src/surveys/submit.service.ts:232-348 | With no key lost and no submission having two entries for a question, the fields of every question add up to exactly its stored ballots |
| `SurveyResults.QuietSubmissions` | backend/src/surveys/submit.service.ts:314-348 | A refused or practice submission leaves ballots, counters, responses and tokens alone; an abstention stores no ballot and touches no question's counters |
| `SurveyResults.ShownIsStoredIff` | backend/src/surveys/submit.service.ts:572-607 | The option counts and Other count shown for a question are its stored ballots exactly when: read from the ballots, Other is off or no ballot names a dynamic option; read from the counters, no ballot precedes their last loss and no Other text is repeated since |
| `SurveyOptions.OptionShownIff` | backend/src/surveys/submit.service.ts:572-607 | Option by option, in every run: the number shown for an option is its stored ballots exactly when it is read from the ballots, or none of them precedes the last loss of the key and none since is an Other answer |
| `SurveyOptions.OptionAgainstBallots` | backend/src/redis/redis.service.ts:172-178 | An option's counter, its Other ballots since the last loss and its ballots from before it add up to its stored ballots |
| `SurveyResults.FallbackShows` | backend/src/surveys/submit.service.ts:591-599 | Read from the ballots, each ballot is shown once under its option, and those on dynamic options again under Other |
| `SurveyResults.KeptShownIsStored` | backend/src/surveys/submit.service.ts:572-607 | While the question's key has never been lost, what is shown is the stored ballots less the repeated Other texts |
| `SurveyWitnesses.LostHashShowsTwice` | backend/src/surveys/submit.service.ts:591-599 | One Other ballot stored and the question's key lost: the results show two |
| `SurveySealing.ResponsesShownIff` | backend/src/surveys/submit.service.ts:565-568 | The number of responses shown is the number of accepted submissions exactly when: from a positive counter, none was accepted before its last loss; with the counter at zero, where it is the number of answers these submissions gave, they gave as many as there are submissions |
| `SurveySealing.KeptResponsesAreSubmissions` | backend/src/surveys/submit.service.ts:565-568 | While the response counter has never been lost, what is shown is the number of accepted submissions |
| `SurveyWitnesses.LostCounterShowsBallots` | backend/src/surveys/submit.service.ts:565-568 | One submission of two ballots and the response counter lost: two responses are shown |
| `SurveySealing.FinalizeSeals` | backend/src/surveys/submit.service.ts:424-463 | In every reachable state finalising succeeds exactly on an existing, ended, not yet finalised survey with a secure chain, and seals the results shown at that moment |
| `SurveySealing.SealedForGood` | backend/src/surveys/submit.service.ts:522-554 | Once sealed, a survey keeps its results through every later step and every loss; a sealed number is the stored one from then on exactly when the number shown at the sealing was, question by question and for the responses |
| `SubmitServices.ReceiptsOfSubmission` | backend/src/surveys/submit.service.ts:270-320 | One receipt for each value and text, under the signature or without one the user id, and at the end one for an abstention |
| `SubmitServices.SubmitService.constructor` | backend/src/surveys/submit.service.ts:30-44 | Starts from published surveys without responses |
| `SubmitServices.SubmitService.ValidateAnswers` | backend/src/surveys/submit.service.ts:188-222 | The loop over the questions finds the first unmet requirement or choice limit |
| `SubmitServices.SubmitService.GetOrCreateDynamicOption` | backend/src/surveys/surveys.repository.ts:428-444 | Finds the first option of the question with the text, or creates one |
| `SubmitServices.SubmitService.ResolveValue` | backend/src/surveys/submit.service.ts:247-268 | A value of UUID form must be a known option of the question; any other value is found or created as text |
| `SubmitServices.SubmitService.BuildChoices` | backend/src/surveys/submit.service.ts:246-284 | The inner loop over the chosen values of an entry |
| `SubmitServices.SubmitService.BuildText` | backend/src/surveys/submit.service.ts:286-311 | Free text: a field of its own for a freeform question, else the Other flag |
| `SubmitServices.SubmitService.BuildBallots` | backend/src/surveys/submit.service.ts:224-312 | The nested loops build exactly the specified ballots, per-question map and created options, up to the first refusal |
| `SubmitServices.SubmitService.CreateBallots` | backend/src/surveys/surveys.repository.ts:403-426 | All ballots are inserted or, when a receipt is already stored, none |
| `SubmitServices.SubmitService.PerformSurveySubmission` | backend/src/redis/redis.service.ts:148-182 | The nested increments, or the one abstention field |
| `SubmitServices.SubmitService.Admit` | backend/src/surveys/submit.service.ts:142-222 | The guards and the validation in their order |
| `SubmitServices.SubmitService.SubmitResponse` | backend/src/surveys/submit.service.ts:133-395 | The new state and the outcome are those of the submission step, and the receipts are those of the built ballots with the abstention's at the end |
| `SubmitServices.SubmitService.FinalizeSurvey` | backend/src/surveys/submit.service.ts:424-482 | The new state and the sealed results are those of the finalising step |

## Left out

- The four verifier copies as separate code; `verifyChain` called with a group id, which the job processor never does.
- `getAuditStatus`, `createCheckpoint` and `getPrevHash` with an empty scope id, which fall back to the global chain.
- The seeding of the global counter from the log at start-up, job records, progress callbacks and the paged queries.
- Forensic queries and resets running at the same time as an append: all audit operations are taken one at a time.
- Direct edits of stored blocks other than the overwrite of a hash, which only `AuditCommitment` and `AuditEdits` look at.
- SealRace.Next: one call of finalising at a time, and no deleting or editing of the voting between its steps.
- VoteLock.Next: the receipts of a call are fixed before the run, so an Other text stands for one option throughout, while the code finds or creates its option at the commit.
- Hex.Parse: BigInt also skips white space after the digits, which the model takes for malformed text.
- The random loop of `genTokenPair`: the blinding factor is any unit.
- RSA key generation, PEM parsing and the HMAC, AES and argon2 helpers; a key is a modulus with its exponents.
- Trimming and normalising of vote texts: a vote request carries the trimmed Other text. Survey texts are used untrimmed, as in the code.
- Option text, title and description in results, so a snapshot with an old option text counts as fresh.
- The separate blind-signature check inside a vote is a boolean of the request; `HonestVoter` supplies it from the RSA model.
- Redis failures in the middle of a call, the loss of the vote counter, temporary receipts, mail, sockets, broadcasts, dashboard counters and trends.
- Permission and membership checks, which are booleans of the request; visibility filters on reads.
- Survey signing, participation and their accounts: the same protocol as for votings; issuing a survey token, and a vote that spends one, are one step each.
- Editing, publishing and deleting surveys, questions and options after submissions, and clearing their counters.
- Reading raw freeform answers, participation statistics and receipt verification.
- Groups, users, authentication, complaints, exports and the user interface.
