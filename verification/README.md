# Verified models of verdictan

A Dafny project that models the parts of the verdictan command line tool whose correctness is
hardest to see from the code, and proves what those parts are relied on for. Everything stated here
is proved by `dafny verify dfyconfig.toml`; nothing is compiled or executed.

| part | modules |
|---|---|
| Cobertura report normalizer | `CoberturaLines`, `CoberturaMerge`, `CoberturaClosedForm`, `CoberturaGroups`, `RateText`, `CoberturaRates`, `CoberturaNormalizer`, `CoberturaReport`, `CoberturaTheorems`, `CoberturaBroken`, `CoberturaIdempotence`, `CoberturaOrder`, `CoberturaExamples` |
| Signed self-update | `Bytes`, `FileSystem`, `SelfUpdate`, `SignedUpdate` |
| Atomic file replacement and the credential store | `AtomicWrite`, `Persistence`, `Trimming`, `Credentials`, `CredentialFile`, `CredentialInterleavings` |
| Browser login | `BrowserCallback` |
| Retries and backoff | `Retry`, `ApiClient` |
| Telemetry text and records | `Utf8`, `Truncation`, `ServiceJsonWriter` |
| Budget export | `TextOrder`, `StableSorting`, `BudgetExport` |

How the models relate to the code:

- Code that changes state in place is imperative here too. The normalizer, the updater, the credential
  store, the retry loops, the truncation loop and the log writer are methods with loops or with
  `modifies` clauses, each proved against a specification function or an invariant. Pure code is
  functions and lemmas.
- A `Disk` may fail at every call, may leave a part of a write behind, and records every state it
  passes through, so contracts speak about every intermediate point of a run. It counts the calls that
  failed although nothing stood in their way, so contracts also say what a run without faults and a run
  with one fault must achieve, and which paths hold bytes that were not synced. A disk marked
  `reliable` has no faults.
- Several processes are a step system: one step per file system call of any process, in any order,
  with any call failing and any process crashing. Theorems are about every sequence of steps.
- Library code is a parameter: the digest that makes name suffixes, the JSON codec (of which only
  `parse(encode(s)) == s` is assumed), signature verification, version parsing, SHA-256, RFC 3339
  parsing, replies of servers, random samples and drawn temporary names.
- Source integers are unbounded except where their width shows: the 32-bit attempt counter and its
  conversion to a signed exponent, 64-bit delays, and bytes.

Where the code does not do what one would expect of it, the model keeps the code's behaviour and
states exactly where the expectation holds:

- A pass succeeds exactly when methods of one identity have the same lines (`PassSucceedsIff`). Methods
  without separators in their fields do (`SeparableIsConsistent`); a separator in a field can make the
  pass end in a conflict (`PassCanConflict`).
- A second pass over a normalized report changes nothing exactly when the names given to structural
  collisions stay apart from each other and from names in use (`SecondPassIsQuietIffStable`); a
  method that already carries such a name breaks it (`SecondPassCanChange`).
- Saves by several processes can be lost (`UpdatesCanBeLost`). A write acts on the current store
  exactly when no other profile changed since it read (`LandingIsAtomicIff`).
- The two retry loops agree except when the limit is the largest 32-bit number and all calls fail
  transiently (`GetBothWays`), as with a server that always answers 500 (`AlwaysFailing`). There the counter of the generic loop overflows: it wraps in builds
  without overflow checks, such as the release profile, and aborts in the others.
- Delays grow with the retry number exactly up to retry 2^31, where the exponent becomes negative
  (`NonDecreasingIff`).
- Writing a log record in chunks gives the same output for every chunking exactly when the record is
  empty, starts with a brace or has none (`SplitIndependentIff`).
- The order in which the service lists budgets shows in the export exactly when two different budgets
  have the same scope and name (`CanonicalIffUnambiguous`).

The version check of the signed update is needed: without it two manifests can have the same signed
bytes (`UncheckedVersionsCollide`), with it they cannot (`SignatureCoversManifest`).

## Model

| member | source | states |
|---|---|---|
| `Text.DecimalRoundTrip` | ci/scripts/normalize_cobertura.rb:37 | printing a count in decimal loses nothing: reading it back gives the count, and only digits occur |
| `CoberturaLines.Lookup` | ci/scripts/normalize_cobertura.rb:17-33 | the hash built from a method's lines holds exactly the numbers that occur, each with an entry of that number |
| `CoberturaLines.LookupOfLine` | ci/scripts/normalize_cobertura.rb:17-33 | with distinct numbers each line finds its own entry in the hash |
| `CoberturaLines.StructureInjective` | ci/scripts/normalize_cobertura.rb:35-39 | equal structure keys mean equal lists of line number, branch flag and condition total, when no field contains a separator |
| `CoberturaLines.SameShapeSameStructure` | ci/scripts/normalize_cobertura.rb:35-39 | rewriting hits and covered counts leaves the structure key unchanged |
| `CoberturaMerge.MergeMethodXml` | ci/scripts/normalize_cobertura.rb:54-95 | the merge loop raises exactly the conflict (or the missing attribute) its inputs have, and otherwise returns the left text with every counted line widened and rates recomputed |
| `CoberturaClosedForm.MergedIsPointwiseMax` | ci/scripts/normalize_cobertura.rb:71-85 | each textual substitution reaches its own line: the merged text is the left text with every line at the maximum of both profiles |
| `CoberturaClosedForm.MergingOneMore` | ci/scripts/normalize_cobertura.rb:54-95 | merging into an already merged method gives the maxima over the whole collection: chains of merges collapse to one closed form |
| `CoberturaGroups.SeparableIsConsistent` | ci/scripts/normalize_cobertura.rb:115-118 | methods whose fields contain no separator and that are filed under one identity have the same line shapes, so they can be merged |
| `CoberturaGroups.SurvivorKeepsShape` | ci/scripts/normalize_cobertura.rb:115-127 | through any number of merges and a renaming a retained method keeps the structure it is filed under |
| `CoberturaGroups.SurvivorIsClosedForm` | ci/scripts/normalize_cobertura.rb:115-127 | what the table holds for an identity is its first profile, renamed if it collided, with the maxima over all its profiles |
| `CoberturaGroups.SurvivorTakesMaxima` | ci/scripts/normalize_cobertura.rb:71-76 | every retained line has the largest hits and covered conditions of all profiles of its identity, and its old shape |
| `CoberturaNormalizer.EmissionIgnoresOrder` | ci/scripts/normalize_cobertura.rb:115-159 | what is written for a class is the same for any rearrangement of later duplicates that keeps the identities in order of first appearance |
| `CoberturaOrder.PassIgnoresOrder` | ci/scripts/normalize_cobertura.rb:97-172 | two reports whose classes list the same methods, with identities in the same order of first appearance and the same first profile of each, give the same output and counts |
| `CoberturaGroups.IdsInOrder` | ci/scripts/normalize_cobertura.rb:117-127 | methods are emitted in the order in which their identities first appear |
| `CoberturaGroups.IdsAreDistinct` | ci/scripts/normalize_cobertura.rb:117-128 | no identity is emitted twice |
| `CoberturaRates.SurvivorRates` | ci/scripts/normalize_cobertura.rb:48-93 | the rates written for a merged method, read back as decimal numbers, are to the nearest millionth the lines that any profile hit over all lines, and the merged covered conditions over all conditions; they are the texts of `decimal_rate`, whichever way exact ties are rounded |
| `RateText.MillionthsAreNearest` | ci/scripts/normalize_cobertura.rb:48-52 | no number of millionths is nearer to the fraction than the one written |
| `RateText.RateIsShortest` | ci/scripts/normalize_cobertura.rb:48-52 | the stripping of zeros and point leaves the whole part and the decimals up to the last that is not zero |
| `RateText.RateStandsForFraction` | ci/scripts/normalize_cobertura.rb:48-52 | the whole part and the at most six decimals of a rate, read as a decimal number, are the fraction to the nearest millionth; a rate of nothing is `1` |
| `RateText.RateTextDetermines` | ci/scripts/normalize_cobertura.rb:48-52 | two rates are written alike exactly if they are the same number of millionths |
| `RateText.WholeRates` | ci/scripts/normalize_cobertura.rb:48-52 | full coverage is written as `1` and no coverage as `0` |
| `CoberturaRates.SurvivorPercentages` | ci/scripts/normalize_cobertura.rb:78-84 | a merged branch line shows the percentage of its merged conditions, rounded down |
| `CoberturaNormalizer.SimulationPreservesRuns` | ci/scripts/normalize_cobertura.rb:97-172 | two ways of keeping the methods of a class that agree step by step give the same output, counts and errors on every input |
| `CoberturaNormalizer.HashesRefineHistory` | ci/scripts/normalize_cobertura.rb:99-128 | the three hashes and the order list of the loop compute, on every input, what the whole history of filed methods determines |
| `CoberturaNormalizer.FileMethod` | ci/scripts/normalize_cobertura.rb:114-128 | filing a complete method updates the tables as specified: merge, rename on collision, or store, with the counts, or the error of the merge |
| `CoberturaNormalizer.WriteMethods` | ci/scripts/normalize_cobertura.rb:158-161 | the methods are written in table order after what was written before |
| `CoberturaNormalizer.ReadLine` | ci/scripts/normalize_cobertura.rb:110-164 | one line takes the loop state to the next state of the machine, or to the error raised |
| `CoberturaNormalizer.NormalizeCobertura` | ci/scripts/normalize_cobertura.rb:97-172 | for every input the streaming loop returns the output, counts or error of the history specification |
| `CoberturaReport.NothingIsLost` | ci/scripts/normalize_cobertura.rb:117-128 | methods read are methods emitted plus methods merged, and methods emitted are distinct keys plus methods renamed |
| `CoberturaReport.FilingSucceedsIff` | ci/scripts/normalize_cobertura.rb:114-128 | filing one more method is refused exactly if it is unreadable or its lines differ from those of the methods of its identity |
| `CoberturaTheorems.PassSucceedsIff` | ci/scripts/normalize_cobertura.rb:97-172 | a pass over a report succeeds if and only if in every class all methods are readable and methods of one identity have the same lines; on readable methods it otherwise ends in one of the two conflicts |
| `CoberturaExamples.PassCanConflict` | ci/scripts/normalize_cobertura.rb:35-69 | for every suffix function a well-formed report of readable methods, with a separator in a branch field, on which the pass ends in a conflict |
| `CoberturaTheorems.NormalizingAReport` | ci/scripts/normalize_cobertura.rb:97-172 | in that case the pass replaces the methods of each class by one per identity, keeps all other lines, and returns the three counts |
| `CoberturaBroken.CutInSection` | ci/scripts/normalize_cobertura.rb:109-168 | a report that ends inside a method is an unterminated method, and one that ends in a section between methods is unterminated methods |
| `CoberturaBroken.CutInTail` | ci/scripts/normalize_cobertura.rb:158-169 | a report that ends after the methods of a class and before the end of the class is an unterminated class |
| `CoberturaBroken.CutInHead` | ci/scripts/normalize_cobertura.rb:134-169 | a report that ends among the first lines of a class is unterminated methods if the section has been opened, and an unterminated class otherwise |
| `CoberturaBroken.MisplacedBetween` | ci/scripts/normalize_cobertura.rb:134-146 | after any accepted report a method outside a class, or a class without a name, ends the pass whatever follows |
| `CoberturaBroken.MisplacedWithin` | ci/scripts/normalize_cobertura.rb:134-153 | after any part of a section a class inside a class, or a method without a name or a signature, ends the pass whatever follows |
| `CoberturaIdempotence.CountsAddUp` | ci/scripts/normalize_cobertura.rb:154-171 | over a whole well-formed report the total returned is the number of methods written plus the number merged |
| `CoberturaIdempotence.QuietIffDistinctKeys` | ci/scripts/normalize_cobertura.rb:117-128 | a class needs no merge and no renaming exactly when all its name and signature pairs differ |
| `CoberturaIdempotence.ApartIffKeysDiffer` | ci/scripts/normalize_cobertura.rb:41-46 | emitted name and signature pairs are pairwise distinct exactly when colliding methods get different suffixes and no kept name equals a given one |
| `CoberturaIdempotence.SecondPassIsQuietIffStable` | ci/scripts/normalize_cobertura.rb:97-172 | normalizing the normalized report returns it unchanged with no merges and no renames, if and only if every class satisfies that condition; if one does not, the second pass merges, renames or ends in a conflict |
| `CoberturaIdempotence.NormalizingTwiceIsOnce` | ci/scripts/normalize_cobertura.rb:41-46 | it does so in particular when no method name carries the marker and no two structures of a class share a digest |
| `CoberturaExamples.SecondPassCanChange` | ci/scripts/normalize_cobertura.rb:41-46 | for every suffix function of fixed length a report that the first pass normalizes and on which the second pass is not quiet |
| `FileSystem.Disk.Rename` | src/self_update.rs:196-203 | a rename moves the node in one step, or changes nothing |
| `FileSystem.Disk.WriteAll` | src/self_update.rs:190-193 | at every moment the file holds a prefix of the bytes and nothing else changed, and all of them if the write succeeds |
| `SelfUpdate.RemoveStale` | src/self_update.rs:181-182 | stale working files are removed, each unless its removal fails, which is counted; the target is untouched throughout |
| `SelfUpdate.Stage` | src/self_update.rs:185-195 | the artifact is at the temporary path, synced and with the target's permissions, or the step fails, for a stale file or for one fault, with the target untouched throughout |
| `SelfUpdate.InstallAndValidate` | src/self_update.rs:198-225 | after the checkpoint the original stays at the target or the backup path at every point until the new binary has passed validation; a failure that is the only fault has been rolled back, and a failed validation without faults too |
| `SelfUpdate.RollBack` | src/self_update.rs:199 | rolling back puts the original back at the target, unless the rename fails, which is a fault and leaves it at the backup path |
| `SelfUpdate.Attempt` | src/self_update.rs:183-226 | staging, checkpoint, installation and validation keep the original at every point; what the number of faults tells about the outcome |
| `SelfUpdate.Replace` | src/self_update.rs:181-230 | at every point of the run, whichever calls fail, the original is at the target or the backup path and an installed binary is one of the two complete ones; with at most one fault the end is exact: success installs the synced artifact alone, a failed creation, write, permission change, checkpoint or installation leaves the start without stale working files, and so does a failed validation unless the rollback itself was the fault |
| `SelfUpdate.AtomicReplaceAndValidate` | src/self_update.rs:154-231 | the same from the caller's target path, with each early refusal leaving the disk alone and, without faults, exactly for a missing target or one that is not a file |
| `SelfUpdate.SuccessIsExact` | src/self_update.rs:223-230 | success leaves the artifact at the target with the old permissions, neither working file, and everything else as it was |
| `SignedUpdate.SignatureCoversManifest` | src/self_update.rs:43-49 | equal signed bytes mean equal version, address and checksum, even if addresses contain line breaks, once versions parse and checksums match digests |
| `SignedUpdate.UncheckedVersionsCollide` | src/self_update.rs:43-49 | two manifests with unparsed versions and different addresses that have the same signed bytes |
| `SignedUpdate.UpdateIsRequiredIff` | src/self_update.rs:77-95 | for every strict order of versions an update is required exactly if the versions differ and, without permission to go back, the target is later; the three refusals each have their exact condition |
| `SignedUpdate.ChecksumIgnoresCase` | src/self_update.rs:141-142 | a checksum matches a digest exactly if they agree up to the case of their letters |
| `SignedUpdate.UpdatesOnlyMoveForward` | src/self_update.rs:77-95 | for every strict order of versions, along any sequence of updates without permission to go back each version is lower than every later one, so none is ever installed again |
| `SignedUpdate.CheckUpdate` | src/self_update.rs:97-148 | exactly the update whose manifest is authentic, whose version is required and whose artifact matches the checksum is installed; the binary is current exactly for an authentic manifest of the same version; a refusal names what failed |
| `SignedUpdate.InstallUpdate` | src/self_update.rs:148-231 | without an error the target is replaced exactly and synced; with one the original survives, and is in its place if there was at most one fault before the new binary ran; at every point of the run before the new binary passed validation the original is at the target or the backup path |
| `SignedUpdate.ApplySignedUpdate` | src/self_update.rs:97-152 | the disk changes only for an authorized update; then the result is that version with the target replaced and synced, or an installation error with the original preserved, in its place if there was at most one fault before the new binary ran; the original is preserved at every point until validation |
| `SignedUpdate.OneSignatureOneUpdate` | src/self_update.rs:43-75 | two updates authorized at any times under the same signed bytes have the same version, address and artifact digest |
| `AtomicWrite.StepKeepsInv` | src/persistence.rs:104-164 | every step of every writer keeps the invariant that ties names, files, handles and finished writes together |
| `AtomicWrite.TargetIsNeverTorn` | src/persistence.rs:104-160 | in every interleaving the target holds its initial contents until the first rename and from then on the whole payload of the writer that renamed last, also if writers draw the same temporary name |
| `AtomicWrite.SuccessIsOneLanding` | src/persistence.rs:145-159 | a writer succeeds exactly if its rename took place, which happens at most once |
| `AtomicWrite.PrivateFilesStayPrivate` | src/persistence.rs:87-97 | no file that holds any byte of a private payload ever has a mode wider than owner-only; files from before are unchanged |
| `AtomicWrite.NoResidue` | src/persistence.rs:122-151 | names other than the target keep their files; a new name is the temporary of a writer at work, or of one that crashed or whose removal of it failed |
| `AtomicWrite.ReadersSeeOneVersion` | src/persistence.rs:145-151 | a file opened at the target keeps the contents it had, whatever writers do while it is read |
| `AtomicWrite.PowerLossLeavesAVersion` | src/persistence.rs:130-151 | after a power loss that keeps synced files only and the directory as of any rename, the target holds a version it had, whole |
| `AtomicWrite.NeverTornAcrossPowerLosses` | src/persistence.rs:104-160 | through any number of runs of any writers separated by power losses the target holds its first contents or one writer's whole payload |
| `Persistence.WriteAtomically` | src/persistence.rs:104-160 | at every point of one write the target is the old node or the complete new one; success changes the target alone, to synced data, failure at most the temporary; without faults it fails exactly for a taken temporary or a directory at the target; one fault leaves nothing behind |
| `Credentials.ProfileNamesAreNormal` | src/auth/credential_store.rs:230-235 | a stored profile name names the same profile again |
| `Credentials.OperationsCommute` | src/auth/credential_store.rs:115-144 | saves and deletes of different profiles give the same store in either order |
| `Credentials.LaterOperationAbsorbs` | src/auth/credential_store.rs:115-144 | of two operations on one profile only the later one shows in the store |
| `Credentials.LatestOperationWins` | src/auth/credential_store.rs:92-147 | after any history a profile holds the credential of its last operation if that is a login, and nothing if it is a logout |
| `Credentials.UntouchedProfileStays` | src/auth/credential_store.rs:92-147 | a profile that no operation names keeps its entry |
| `Credentials.StoredCredentialDecides` | src/auth/token.rs:195-234 | with no explicit and no environment token the token is the stored one exactly if it is not blank and its expiry, if any, is readable and in the future; a blank token, an unreadable expiry and a past one are three different errors |
| `Credentials.ResolvedTokenIsLatestLogin` | src/auth/token.rs:180-210 | after any history from an empty store the resolved token is that of the latest login of the same normalized profile, exactly if no logout followed and it is usable |
| `Credentials.NoLoginNoToken` | src/auth/token.rs:206-209 | a profile that was never used has no token |
| `CredentialFile.LoadFromPath` | src/auth/credential_store.rs:65-89 | loading returns the profile's entry of the stored map; a missing file is an empty map; a directory and a file that does not parse are two different errors |
| `CredentialFile.WriteStore` | src/auth/credential_store.rs:172-197 | a successful write makes the file hold exactly the store, synced and with mode 0600, and changes nothing else; a failed one leaves the file as it was |
| `CredentialFile.Perform` | src/auth/credential_store.rs:92-147 | saving and deleting change the stored map as the map operation does, or leave the file as it was; the answer is true exactly for a save and for a profile that was there, and deleting an absent profile writes nothing; a file that does not parse is an error and is kept |
| `CredentialFile.OperationOnContents` | src/auth/credential_store.rs:115-144 | every other profile keeps its credential across an operation |
| `CredentialFile.SequentialHistoryIsMap` | src/auth/credential_store.rs:92-147 | operations one after another refine a plain map, failed ones not counting |
| `CredentialFile.PerformAll` | src/commands/auth_login.rs:92-115 | a whole sequence of logins and logouts on a faulty disk leaves the map of those that succeeded, and on a sound disk all succeed |
| `CredentialFile.ResolveAfter` | src/auth/token.rs:173-234 | after any such sequence, loading the file and resolving a profile yields the explicit token if given, else the environment token, else the token of the latest login that succeeded, exactly if no successful logout followed and it is usable, and otherwise an auth error |
| `CredentialInterleavings.NextKeepsSound` | src/auth/credential_store.rs:92-147 | every event of every process keeps the invariant that each pending payload is an operation's effect on a version that was read, holding only known entries |
| `CredentialInterleavings.WritesOnlyChanges` | src/auth/credential_store.rs:97-145 | a process goes on to write exactly if the file parses and it saves a profile, or the profile it deletes is there; what it writes is the map with that profile set or removed |
| `CredentialInterleavings.NoInventedEntries` | src/auth/credential_store.rs:92-147 | in every interleaving the file parses once written, and every entry was there initially or was saved under that profile by some process |
| `CredentialInterleavings.StoreStaysPrivate` | src/auth/credential_store.rs:185-190 | once written by anyone the file has owner-only mode |
| `CredentialInterleavings.UnparsableFileIsKept` | src/auth/credential_store.rs:97-139 | an unparsable file is never overwritten, in any interleaving |
| `CredentialInterleavings.LandingAppliesToWhatWasRead` | src/auth/credential_store.rs:92-147 | each write that lands makes the store its operation's effect on the version its process had read |
| `CredentialInterleavings.LandingIsAtomicIff` | src/auth/credential_store.rs:92-147 | such a write acts on the current store exactly when no other profile differs between the current store and the one that was read |
| `CredentialInterleavings.UndisturbedRunIsSequential` | src/auth/credential_store.rs:92-147 | if every write reads what the write before left, the run is the sequential history of its writes |
| `CredentialInterleavings.OvertakenSaveIsLost` | src/auth/credential_store.rs:92-120 | of two saves that read the same version and land one after the other, the first one's profile is as before either |
| `CredentialInterleavings.UpdatesCanBeLost` | src/auth/credential_store.rs:92-120 | a run from no file in which two saves of different profiles succeed and only the second is stored |
| `BrowserCallback.RedeemedCodeWasSent` | src/auth/browser_callback.rs:98-136 | in every run a redeemed code is the `code` of a request that arrived with it and with the generated `state` |
| `BrowserCallback.RunKeepsInv` | src/auth/browser_callback.rs:94-146 | every sequence of callbacks, timeouts, server stops and replies keeps the invariant of sender, channel and flow |
| `BrowserCallback.AtMostOneRedemption` | src/auth/browser_callback.rs:447-481 | at most one code is ever redeemed: the first handled callback's, with this attempt's verifier, and only if its state is the generated one |
| `BrowserCallback.OutcomeMatchesFirstCallback` | src/auth/browser_callback.rs:447-484 | each outcome tells what the first handled callback was; no outcome but the two of a redemption redeems |
| `BrowserCallback.LaterEventsChangeNothing` | src/auth/browser_callback.rs:132-136 | once the flow stopped waiting no later callback or timeout changes its redemption or its outcome |
| `BrowserCallback.DeliveryBeatsTimeout` | src/auth/browser_callback.rs:447-450 | the callback that was handled first while the flow waits is what it decides on, also if the timer fires first |
| `BrowserCallback.MatchingCallbackIsRedeemed` | src/auth/browser_callback.rs:456-481 | a first callback with the generated state and a code is redeemed with that code |
| `BrowserCallback.CallbackDecides` | src/auth/browser_callback.rs:98-136 | in every run in which nothing has been delivered yet a request that arrives and is handled decides the login by its parameters: another or no state is a mismatch, a code with the generated state is redeemed, and otherwise its error, or that something is missing, is the outcome; nothing later changes this |
| `BrowserCallback.NothingDelivered` | src/auth/browser_callback.rs:447-450 | while nothing has been delivered a look changes nothing, the timer ends the login in a timeout and a stopped server in a closed channel |
| `BrowserCallback.ReplyDecides` | src/auth/browser_callback.rs:480-484 | the reply to the redemption decides whether the login succeeded |
| `Retry.RetryLoop` | src/retry.rs:107-148 | the loop returns the first success, the first permanent error or the last transient error after at most `maxRetries` + 1 calls, numbers its backoffs 1, 2, ... and sleeps as the backoff says before each retry |
| `Retry.WithRetryClassified` | src/retry.rs:95-149 | under a policy the whole run sleeps at most the allowed number of retries times the longest delay; the loop goes past its limit exactly if that is the largest 32-bit number and every call fails transiently |
| `Retry.RetriedIsUnique` | src/retry.rs:107-148 | result, number of calls and backoff numbers are determined by the outcomes of the calls |
| `Retry.DelayBounds` | src/retry.rs:156-173 | each delay is within the capped delay times one plus or minus the jitter, rounded down |
| `Retry.DelayIsLimited` | src/retry.rs:156-173 | no delay exceeds the configured maximum times one plus the jitter |
| `Retry.SampleSpreadsDelay` | src/retry.rs:165-172 | delays grow with the sample, from the capped delay less the jitter at zero through the capped delay in the middle |
| `Retry.NonDecreasingIff` | src/retry.rs:156-173 | delays of the first n retries never decrease, for all policies with a multiplier of at least one and all samples, if and only if n is at most 2^31 |
| `Retry.DelayCollapsesAfterWrap` | src/retry.rs:161-163 | with the default policy the delay of retry 2^31 + 1 is zero |
| `ApiClient.ReadIff` | src/api/client.rs:386-390 | a header is read as a number exactly if it is the digits of that number, after any zeros and perhaps a plus sign, and the number has 64 bits |
| `ApiClient.RetryAfterIsHonoured` | src/api/client.rs:381-392 | a number of seconds that can be read, blanks around it or not, is waited for in full; after any other reply the computed backoff applies |
| `ApiClient.GetLoop` | src/api/client.rs:138-168 | for every way of delaying, the client's loop, which compares its counter before incrementing it, stops at the same call as the generic loop and delays after each transient reply |
| `ApiClient.SendIdempotentGet` | src/api/client.rs:138-168 | the client's loop meets the same specification as the generic loop, and sleeps after each transient reply as that reply asks |
| `ApiClient.LastReplyDecides` | src/api/client.rs:138-168 | every reply before the last had status 429, 500, 502, 503 or 504, or did not come; the last had another or came after all retries, and is the result exactly if its status is 200 to 299 |
| `ApiClient.ReplyMeans` | src/retry.rs:55-63 | which replies count as success, as worth another try and as errors, for every status |
| `ApiClient.GetBothWays` | src/api/client.rs:125-169 | running both loops on the same replies gives the same calls, backoff numbers and result exactly unless the limit is the largest 32-bit number and every call fails transiently; the client makes at most `maxRetries` + 1 calls and sleeps at most the longest delay per retry, with the values servers asked for in their place |
| `ApiClient.AlwaysFailing` | src/retry.rs:55-63 | a server that answers every call with status 500 is one on which, at that limit, the loops disagree |
| `Utf8.EncodeInjective` | src/telemetry.rs:953-964 | different texts have different UTF-8 encodings (section 3 of RFC 3629) |
| `Utf8.CharacterRoundTrip` | src/telemetry.rs:953-964 | a character is encoded in the fewest bytes that hold its number, which can be read back from them (section 3 of RFC 3629) |
| `Utf8.PrefixIsBoundary` | src/telemetry.rs:958-961 | the positions between characters are character boundaries |
| `Utf8.InsideIsNoBoundary` | src/telemetry.rs:958-961 | the positions inside characters are not |
| `Trimming.TrimRemovesBlanks` | src/auth/token.rs:173-196 | trimming takes blanks from both ends and nothing else |
| `Truncation.BoundaryBelow` | src/telemetry.rs:958-961 | at most three bytes below any limit is the boundary that ends the longest fitting prefix |
| `Truncation.TruncateUtf8String` | src/telemetry.rs:953-964 | the loop keeps the longest prefix of whole characters that fits in the limit, at most three bytes below it, and appends the marker; shorter texts are unchanged |
| `ServiceJsonWriter.RecordGetsPrefixOnce` | src/telemetry.rs:24-43 | for every split of a record that starts with a brace the calls write the service prefix and the record without its first byte |
| `ServiceJsonWriter.SplitIndependentIff` | src/telemetry.rs:24-43 | the output is the same for all splits exactly when the record is empty, starts with a brace or has none |
| `ServiceJsonWriter.Writer.Write` | src/telemetry.rs:25-38 | one call takes a piece of its buffer and writes what that piece stands for, or fails having written a part of it |
| `ServiceJsonWriter.Writer.WriteAll` | src/telemetry.rs:24-43 | writing all of a buffer writes its pieces in order, whatever parts the inner writer takes |
| `ServiceJsonWriter.Writer.WriteRecord` | src/telemetry.rs:24-43 | for every list of chunks and every pattern of short writes and errors the output is that of the record with the prefix injected once, or a part of it from the start after an error |
| `TextOrder.TextLeIsOrder` | src/commands/control_export.rs:712-716 | comparing encoded texts byte by byte is a total order in which only equal texts are equal |
| `TextOrder.TextOrderIsCharacterOrder` | src/commands/control_export.rs:712-716 | that order is the dictionary order of the characters |
| `StableSorting.SortIsStable` | src/commands/control_export.rs:712-716 | the sort orders by key, keeps every element and keeps the order of elements with the same key |
| `StableSorting.StableSortIsUnique` | src/commands/control_export.rs:712-716 | a stable sort has one possible result, whatever the algorithm |
| `BudgetExport.SortKeyIdentifiesScope` | src/commands/control_export.rs:681-691 | two budgets have the same scope key exactly if they have the same effective scope: the team, else the user, else the agent, else the organization |
| `BudgetExport.KeyOrderIsScopeOrder` | src/commands/control_export.rs:681-691 | keys compare as scopes and names do: agents before the organization before teams before users, by name within a kind, and by the budget's name within a scope |
| `BudgetExport.BuiltFromItems` | src/commands/control_export.rs:705-711 | a specification is listed exactly if some fetched budget builds to it |
| `BudgetExport.SpecsDescribe` | src/commands/control_export.rs:647-679 | one specification is built for each budget with a name and an amount, with that name, amount, details and the three identifiers shown by name where known |
| `BudgetExport.ExportIsOrderedAndComplete` | src/commands/control_export.rs:695-718 | each exported entry describes a listed budget with a name and an amount, each such budget is described, and there are as many entries; agents come first, then the organization, teams and users, each in character order of scope name and then budget name, ties in listed order; any stable sort gives this export |
| `BudgetExport.CanonicalIffUnambiguous` | src/commands/control_export.rs:695-718 | all orders of listing the same budgets export alike if and only if budgets of the same scope and name are exported alike |

## Left out

- Cobertura text: a line of a report is a record of what the script's patterns can see of it, with at
  most one `<line` element; substring matches of a raw line inside a longer line, and backslashes in
  replacement text, are not modelled.
- RateText.Millionths: takes as a parameter how a fraction exactly between two millionths is rounded,
  which in the script depends on the binary quotient; totals so large that the quotient's error crosses
  such a middle (above four thousand million) are not modelled.
- NormalizingAReport: is about reports whose classes hold their methods in one section, with attributes
  where the script expects them. Reports that end early or have a tag out of place are refused as
  `CoberturaBroken` says; for all other inputs `NormalizeCobertura` gives the exact result of the script.
- The command around the normalizer that replaces the report file, and its self-test.
- Self-update across restarts: a run that starts after a crash removes the backup of the earlier run,
  so the guarantees are about one run.
- Self-update durability: an installed artifact has been synced, but what power loss does to a disk is
  modelled only for atomic writes.
- The guard that refuses to update supervised installations.
- Ed25519, SHA-256, base64, semantic version syntax, JSON, RFC 3339 and UUIDs are parameters.
- Creation and protection of parent directories is one step that may fail; the directory sync after
  the rename is omitted, as its result is ignored.
- Windows and other non-Unix branches of private file protection.
- Listing profiles, cached OAuth tokens and organization state directories.
- The HTTP server, the browser, the HTML shown, the challenge derived from the verifier, and a
  poisoned lock in the callback handler.
- ComputeDelayWithSample: is computed over the reals with one rounding at the end; floating-point
  rounding, infinities and a zero multiplier to a negative power are not modelled.
- SendIdempotentGet: takes the policy's backoff as a function; `ClientSleepIsBounded` puts the actual
  one in its place. The HTTP-date form of Retry-After is unreadable text, as in the code.
- ServiceJsonWriter: writes that are interrupted and repeated by the standard library, and flushing.
- Telemetry bodies that are not valid UTF-8, which the caller replaces before truncating.
- ExportBudgets: fetching and decoding the budgets; fields that are only copied are one field.
- All other commands, the gateway, supervisor, policy and plan code, argument parsing and messages.
